/**
 The mutating HTTP handlers as transitions of the database: manual broadcast,
 moderation, creation and update of an event. Each validates its input in a
 fixed order, calls the repository, and answers with a status code and a JSON
 body. Only manual broadcast and moderation bump the feed version.
 */
module Handlers {
  import opened Base
  import opened Model
  import JobQueue
  import Repository

  /** The JSON body of a reply. */
  datatype Body =
    | ErrorBody(error: string)                          // {"error": msg}
    | MessageBody(message: string)                      // {"message": msg}
    | QueuedBody(message: string, channels: seq<string>)
    | ModeratedBody(message: string, status: string)
    | CreatedBody(id: Uuid)

  datatype Reply = Reply(status: nat, body: Body)

  /** A handler's effect on the database together with its reply. */
  datatype Exchange = Exchange(state: State, reply: Reply)

  // ---------------------------------------------------------------------------
  // Request binding
  // ---------------------------------------------------------------------------

  /** The message of the request validator for one missing `required` field. */
  function FieldError(dto: string, field: string): string {
    "Key: '" + dto + "." + field + "' Error:Field validation for '" + field + "' failed on the 'required' tag"
  }

  /** The validator's message for all missing fields, one per line. */
  function RequiredError(dto: string, missing: seq<string>): (msg: string)
    requires |missing| > 0
    ensures |msg| > 0
    decreases |missing|
  {
    if |missing| == 1 then FieldError(dto, missing[0])
    else FieldError(dto, missing[0]) + "\n" + RequiredError(dto, missing[1..])
  }

  /** The names of the listed fields whose value is empty. */
  function Missing(fields: seq<(string, string)>): (names: seq<string>)
    ensures |names| == 0 <==> forall i | 0 <= i < |fields| :: fields[i].1 != ""
    decreases |fields|
  {
    if |fields| == 0 then []
    else (if fields[0].1 == "" then [fields[0].0] else []) + Missing(fields[1..])
  }

  /** `ShouldBindJSON` on a DTO with `binding:"required"` fields: a body that
      does not decode fails with the decoder's message (`raw` is `Err`), a
      decoded body with an empty required field fails with the validator's. */
  function Bind<T>(raw: Result<T>, dto: string, required: T -> seq<(string, string)>): (r: Result<T>)
    ensures r.Ok? <==> raw.Ok? && forall i | 0 <= i < |required(raw.value)| :: required(raw.value)[i].1 != ""
    ensures r.Ok? ==> r.value == raw.value
  {
    match raw
    case Err(msg) => Err(msg)
    case Ok(v) =>
      var missing := Missing(required(v));
      if |missing| > 0 then Err(RequiredError(dto, missing)) else Ok(v)
  }

  // ---------------------------------------------------------------------------
  // Manual broadcast
  // ---------------------------------------------------------------------------

  /** The channels a broadcast goes to when the request names none. */
  const AllChannels: seq<string> := ["fcm", "email", "teams"]

  /** The requested channels: `request` is `None` when the body does not
      bind, and both that and an empty list fall back to every channel. */
  function RequestedChannels(request: Option<seq<string>>): (cs: seq<string>)
    ensures |cs| > 0
    ensures request.Some? && |request.value| > 0 ==> cs == request.value
    ensures request.None? || |request.value| == 0 ==> cs == ["fcm", "email", "teams"]
  {
    if request.None? || |request.value| == 0 then AllChannels else request.value
  }

  /** The job payload: the event's title and summary at enqueue time. */
  function PayloadOf(e: Event): (p: Payload)
    ensures p.Keys == {"title", "summary"}
    ensures p["title"] == e.title && p["summary"] == e.summary
  {
    map["title" := e.title, "summary" := e.summary]
  }

  /** One `EnqueueBroadcast` per channel, in order; the `k`th call fails
      with `fault(k)`, and its error is dropped. */
  function EnqueueAll(s: State, eventId: Uuid, channels: seq<string>, payload: Payload,
                      fault: nat -> Fault, k: nat): (s': State)
    ensures s'.events == s.events && s'.tags == s.tags && s'.version == s.version && s'.audit == s.audit
    ensures |s.jobs| <= |s'.jobs| <= |s.jobs| + |channels| && s'.jobs[..|s.jobs|] == s.jobs
    ensures Valid(s) ==> Valid(s')
    decreases |channels|
  {
    if |channels| == 0 then s
    else
      var s1 := JobQueue.Enqueue(s, eventId, channels[0], payload, fault(k)).state;
      EnqueueAll(s1, eventId, channels[1..], payload, fault, k + 1)
  }

  /** The jobs a fault-free fan-out appends: one pending job per channel, in
      order, with serial ids from `firstId` and creation times from `clock`. */
  function QueuedJobs(firstId: nat, clock: nat, eventId: Uuid, channels: seq<string>, payload: Payload): (jobs: seq<Job>)
    ensures |jobs| == |channels|
    decreases |channels|
  {
    if |channels| == 0 then []
    else [Job(firstId, eventId, channels[0], payload, Pending, 0, None, clock)]
         + QueuedJobs(firstId + 1, clock + 1, eventId, channels[1..], payload)
  }

  /** Job `k` of a fan-out is a fresh pending job for channel `k`. */
  lemma {:induction false} QueuedJobsAt(firstId: nat, clock: nat, eventId: Uuid, channels: seq<string>, payload: Payload, k: nat)
    requires k < |channels|
    ensures QueuedJobs(firstId, clock, eventId, channels, payload)[k]
         == Job(firstId + k, eventId, channels[k], payload, Pending, 0, None, clock + k)
    decreases k
  {
    if k > 0 {
      QueuedJobsAt(firstId + 1, clock + 1, eventId, channels[1..], payload, k - 1);
    }
  }

  /** No enqueue fails. */
  function NoFault(k: nat): Fault {
    None
  }

  /** The storage faults of one broadcast request, call by call. */
  datatype BroadcastFaults = BroadcastFaults(lookup: Fault, enqueue: nat -> Fault, increment: Fault, audit: Fault)

  /** `ManualBroadcast`: looks the event up, enqueues one job per requested
      channel, bumps the feed version and writes a "manual" audit row. Only
      the id and the lookup can fail the request; later write errors are
      dropped. */
  function ManualBroadcast(s: State, idText: string, request: Option<seq<string>>, parsers: Parsers,
                           faults: BroadcastFaults): (r: Exchange)
    ensures r.reply == Reply(StatusBadRequest, ErrorBody("invalid event id")) <==> parsers.uuid(idText).None?
    ensures r.reply == Reply(StatusNotFound, ErrorBody("event not found")) <==>
              parsers.uuid(idText).Some? && Repository.GetEvent(s, parsers.uuid(idText).value, faults.lookup).Err?
    ensures r.reply.status == StatusOK <==>
              parsers.uuid(idText).Some? && Repository.GetEvent(s, parsers.uuid(idText).value, faults.lookup).Ok?
    ensures r.reply.status != StatusOK ==> r.state == s
    ensures r.reply.status == StatusOK ==> r.reply.body == QueuedBody("broadcast queued", RequestedChannels(request))
    ensures r.state.events == s.events && r.state.tags == s.tags
    ensures Valid(s) ==> Valid(r.state)
  {
    match parsers.uuid(idText)
    case None => Exchange(s, Reply(StatusBadRequest, ErrorBody("invalid event id")))
    case Some(id) =>
      var channels := RequestedChannels(request);
      match Repository.GetEvent(s, id, faults.lookup)
      case Err(_) => Exchange(s, Reply(StatusNotFound, ErrorBody("event not found")))
      case Ok(e) => Exchange(Publish(s, e, channels, faults), Reply(StatusOK, QueuedBody("broadcast queued", channels)))
  }

  /** The writes of an accepted broadcast: the jobs, the version bump and the
      "manual" audit row, each failing independently. */
  function Publish(s: State, e: Event, channels: seq<string>, faults: BroadcastFaults): (s': State)
    ensures s'.events == s.events && s'.tags == s.tags
    ensures Valid(s) ==> Valid(s')
  {
    var s1 := EnqueueAll(s, e.id, channels, PayloadOf(e), faults.enqueue, 0);
    var s2 := Repository.IncrementFeedVersion(s1, faults.increment).state;
    Repository.CreatePublishAudit(s2, AuditEntry(e.id, "manual", "triggered", ChannelsDetail(channels)), faults.audit).state
  }

  /** A fan-out without faults appends exactly the reference jobs. */
  lemma {:induction false} EnqueueAllClean(s: State, eventId: Uuid, channels: seq<string>, payload: Payload,
                                           fault: nat -> Fault, k: nat)
    requires forall i | k <= i < k + |channels| :: fault(i).None?
    ensures EnqueueAll(s, eventId, channels, payload, fault, k)
         == s.(jobs := s.jobs + QueuedJobs(|s.jobs| + 1, s.clock, eventId, channels, payload),
               clock := s.clock + |channels|)
    decreases |channels|
  {
    if |channels| == 0 {
      assert s.jobs + QueuedJobs(|s.jobs| + 1, s.clock, eventId, channels, payload) == s.jobs;
    } else {
      var job := Job(|s.jobs| + 1, eventId, channels[0], payload, Pending, 0, None, s.clock);
      var s1 := s.(jobs := s.jobs + [job], clock := s.clock + 1);
      var rest := QueuedJobs(|s1.jobs| + 1, s1.clock, eventId, channels[1..], payload);
      assert EnqueueAll(s, eventId, channels, payload, fault, k)
          == s1.(jobs := s1.jobs + rest, clock := s1.clock + |channels[1..]|) by {
        assert JobQueue.Enqueue(s, eventId, channels[0], payload, fault(k)).state == s1;
        EnqueueAllClean(s1, eventId, channels[1..], payload, fault, k + 1);
      }
      assert s1.jobs + rest == s.jobs + QueuedJobs(|s.jobs| + 1, s.clock, eventId, channels, payload);
    }
  }

  /** Fault-free writes of a broadcast: one pending job per channel in
      order, carrying the event's title and summary, the version one higher,
      and one "manual"/"triggered" audit row naming the channels. */
  lemma PublishClean(s: State, e: Event, channels: seq<string>)
    ensures Publish(s, e, channels, BroadcastFaults(None, NoFault, None, None))
         == s.(jobs := s.jobs + QueuedJobs(|s.jobs| + 1, s.clock, e.id, channels, PayloadOf(e)),
               clock := s.clock + |channels|,
               version := if s.version.Some? then Some(s.version.value + 1) else None,
               audit := s.audit + [AuditEntry(e.id, "manual", "triggered", ChannelsDetail(channels))])
  {
    EnqueueAllClean(s, e.id, channels, PayloadOf(e), NoFault, 0);
    PublishAfterEnqueue(s, e, channels, s.jobs + QueuedJobs(|s.jobs| + 1, s.clock, e.id, channels, PayloadOf(e)),
                        s.clock + |channels|);
  }

  /** Once the jobs are queued, the version bump and the audit row of a
      fault-free broadcast touch only their own fields. */
  lemma PublishAfterEnqueue(s: State, e: Event, channels: seq<string>, jobs: seq<Job>, clock: nat)
    requires EnqueueAll(s, e.id, channels, PayloadOf(e), NoFault, 0) == s.(jobs := jobs, clock := clock)
    ensures Publish(s, e, channels, BroadcastFaults(None, NoFault, None, None))
         == s.(jobs := jobs, clock := clock,
               version := if s.version.Some? then Some(s.version.value + 1) else None,
               audit := s.audit + [AuditEntry(e.id, "manual", "triggered", ChannelsDetail(channels))])
  {
    Repository.IncrementOnce(s.(jobs := jobs, clock := clock));
  }

  /** A successful broadcast without storage faults appends one pending job
      per requested channel in order, carrying the event's title and summary,
      bumps the version by one and appends exactly one "manual"/"triggered"
      audit row naming the channels. Nothing else changes. */
  lemma BroadcastEffect(s: State, idText: string, request: Option<seq<string>>, parsers: Parsers)
    requires parsers.uuid(idText).Some? && Repository.GetEvent(s, parsers.uuid(idText).value, None).Ok?
    ensures var id := parsers.uuid(idText).value;
            var e := Repository.GetEvent(s, id, None).value;
            var channels := RequestedChannels(request);
            ManualBroadcast(s, idText, request, parsers, BroadcastFaults(None, NoFault, None, None)).state
            == s.(jobs := s.jobs + QueuedJobs(|s.jobs| + 1, s.clock, id, channels, PayloadOf(e)),
                  clock := s.clock + |channels|,
                  version := if s.version.Some? then Some(s.version.value + 1) else None,
                  audit := s.audit + [AuditEntry(id, "manual", "triggered", ChannelsDetail(channels))])
  {
    var e := Repository.GetEvent(s, parsers.uuid(idText).value, None).value;
    PublishClean(s, e, RequestedChannels(request));
  }

  /** An empty or unbindable request broadcasts on every channel. */
  lemma BroadcastDefaults(s: State, idText: string, request: Option<seq<string>>, parsers: Parsers, faults: BroadcastFaults)
    requires request.None? || request.value == []
    requires ManualBroadcast(s, idText, request, parsers, faults).reply.status == StatusOK
    ensures ManualBroadcast(s, idText, request, parsers, faults).reply.body.channels == ["fcm", "email", "teams"]
  {
  }

  /** Write failures after the lookup are invisible to the client: the reply
      lists the requested channels whether or not their jobs were stored, the
      version bumped or the audit row written. */
  lemma BroadcastIgnoresWriteFaults(s: State, idText: string, request: Option<seq<string>>, parsers: Parsers,
                                    faults: BroadcastFaults, enqueue: nat -> Fault, increment: Fault, audit: Fault)
    ensures ManualBroadcast(s, idText, request, parsers, faults).reply
         == ManualBroadcast(s, idText, request, parsers, faults.(enqueue := enqueue, increment := increment, audit := audit)).reply
  {
  }

  // ---------------------------------------------------------------------------
  // Moderation
  // ---------------------------------------------------------------------------

  /** The moderation request body; `action` and `moderatorId` are required. */
  datatype ModerateRequest = ModerateRequest(action: string, moderatorId: string, notes: string)

  function ModerateRequired(m: ModerateRequest): seq<(string, string)> {
    [("Action", m.action), ("ModeratorID", m.moderatorId)]
  }

  /** The status an accepted action sets. */
  function StatusFor(action: string): (status: string)
    requires action == "approve" || action == "reject"
    ensures status == "approved" <==> action == "approve"
    ensures status == "rejected" <==> action == "reject"
  {
    if action == "approve" then "approved" else "rejected"
  }

  /** `ModerateEvent`: validates the id, the body, the action and the
      moderator id in that order, then sets the event's status with an audit
      row in one transaction and bumps the feed version (whose failure is
      dropped). */
  function ModerateEvent(s: State, idText: string, raw: Result<ModerateRequest>, parsers: Parsers,
                         repoFault: Fault, incrementFault: Fault): (r: Exchange)
    ensures r.reply.status == StatusOK <==>
              && parsers.uuid(idText).Some?
              && Bind(raw, "ModerateEventDTO", ModerateRequired).Ok?
              && (raw.value.action == "approve" || raw.value.action == "reject")
              && parsers.uuid(raw.value.moderatorId).Some?
              && repoFault.None?
    ensures r.reply.status != StatusOK ==> r.state == s
    ensures r.reply.status == StatusOK ==> r.reply.body == ModeratedBody("event moderated", StatusFor(raw.value.action))
    ensures r.state.jobs == s.jobs && r.state.tags == s.tags
    ensures Valid(s) ==> Valid(r.state)
  {
    match parsers.uuid(idText)
    case None => Exchange(s, Reply(StatusBadRequest, ErrorBody("invalid event id")))
    case Some(id) =>
      match Bind(raw, "ModerateEventDTO", ModerateRequired)
      case Err(msg) => Exchange(s, Reply(StatusBadRequest, ErrorBody(msg)))
      case Ok(dto) =>
        if dto.action != "approve" && dto.action != "reject" then
          Exchange(s, Reply(StatusBadRequest, ErrorBody("action must be approve or reject")))
        else match parsers.uuid(dto.moderatorId)
          case None => Exchange(s, Reply(StatusBadRequest, ErrorBody("invalid moderator_id")))
          case Some(moderator) =>
            var status := StatusFor(dto.action);
            var st := Repository.ModerateEvent(s, id, status, moderator, dto.notes, repoFault);
            if st.result.Err? then Exchange(s, Reply(StatusInternalServerError, ErrorBody("moderation failed")))
            else
              var s2 := Repository.IncrementFeedVersion(st.state, incrementFault).state;
              Exchange(s2, Reply(StatusOK, ModeratedBody("event moderated", status)))
  }

  /** The validation errors, first failure first. */
  lemma ModerateRejects(s: State, idText: string, raw: Result<ModerateRequest>, parsers: Parsers,
                        repoFault: Fault, incrementFault: Fault)
    ensures var r := ModerateEvent(s, idText, raw, parsers, repoFault, incrementFault).reply;
            && (parsers.uuid(idText).None? ==> r == Reply(StatusBadRequest, ErrorBody("invalid event id")))
            && (parsers.uuid(idText).Some? && raw.Err? ==> r == Reply(StatusBadRequest, ErrorBody(raw.error)))
            && (parsers.uuid(idText).Some? && raw.Ok? && raw.value.action != "" && raw.value.moderatorId != ""
                && raw.value.action != "approve" && raw.value.action != "reject"
                ==> r == Reply(StatusBadRequest, ErrorBody("action must be approve or reject")))
            && (parsers.uuid(idText).Some? && raw.Ok? && (raw.value.action == "approve" || raw.value.action == "reject")
                && raw.value.moderatorId != "" && parsers.uuid(raw.value.moderatorId).None?
                ==> r == Reply(StatusBadRequest, ErrorBody("invalid moderator_id")))
            && (parsers.uuid(idText).Some? && raw.Ok? && (raw.value.action == "approve" || raw.value.action == "reject")
                && raw.value.moderatorId != "" && parsers.uuid(raw.value.moderatorId).Some? && repoFault.Some?
                ==> r == Reply(StatusInternalServerError, ErrorBody("moderation failed")))
  {
  }

  /** A successful moderation without a version fault sets the mapped status
      on the event, appends one "moderation" audit row and bumps the version
      by exactly one; nothing else changes. */
  lemma ModerateEffect(s: State, idText: string, raw: Result<ModerateRequest>, parsers: Parsers)
    requires ModerateEvent(s, idText, raw, parsers, None, None).reply.status == StatusOK
    ensures var id := parsers.uuid(idText).value;
            var status := StatusFor(raw.value.action);
            var moderator := parsers.uuid(raw.value.moderatorId).value;
            var s' := ModerateEvent(s, idText, raw, parsers, None, None).state;
            && s' == s.(events := s'.events, audit := s'.audit, version := s'.version)
            && s'.version == (if s.version.Some? then Some(s.version.value + 1) else None)
            && s'.audit == s.audit + [AuditEntry(id, "moderation", status, ModerationDetail(moderator, raw.value.notes))]
            && |s'.events| == |s.events|
            && (forall i | 0 <= i < |s.events| ::
                  s'.events[i] == if s.events[i].id == id then s.events[i].(status := status) else s.events[i])
  {
    var id := parsers.uuid(idText).value;
    var moderator := parsers.uuid(raw.value.moderatorId).value;
    var st := Repository.ModerateEvent(s, id, StatusFor(raw.value.action), moderator, raw.value.notes, None);
    assert ModerateEvent(s, idText, raw, parsers, None, None).state == Repository.IncrementFeedVersion(st.state, None).state;
  }

  // ---------------------------------------------------------------------------
  // Creation
  // ---------------------------------------------------------------------------

  /** The creation request body; `title`, `body` and `createdBy` are
      required. Its `attachments` are never read and are left out. */
  datatype CreateRequest = CreateRequest(
    title: string,
    summary: string,
    body: string,
    tags: seq<string>,
    createdBy: string,
    scheduledAt: string)

  function CreateRequired(c: CreateRequest): seq<(string, string)> {
    [("Title", c.title), ("Body", c.body), ("CreatedBy", c.createdBy)]
  }

  /** The schedule of a new event: none for an empty string, otherwise the
      parsed time, or the zero time when the text does not parse. */
  function ScheduleOf(text: string, parsers: Parsers): (t: Option<nat>)
    ensures t.None? <==> text == ""
    ensures text != "" && parsers.time(text).None? ==> t == Some(ZeroTime)
    ensures text != "" && parsers.time(text).Some? ==> t == parsers.time(text)
  {
    if text == "" then None else Some(parsers.time(text).GetOr(ZeroTime))
  }

  /** The event a request describes, before the repository stamps its
      creation time. */
  function DraftOf(id: Uuid, c: CreateRequest, createdBy: Uuid, parsers: Parsers): (e: Event)
    ensures e.id == id && e.status == "draft" && e.attachments == "[]" && e.createdBy == createdBy
    ensures e.title == c.title && e.summary == c.summary && e.body == c.body
    ensures e.scheduledAt == ScheduleOf(c.scheduledAt, parsers)
  {
    Event(id, c.title, c.summary, createdBy, "draft", ScheduleOf(c.scheduledAt, parsers), 0, c.body, "[]")
  }

  /** `CreateEvent`: `newId` is the freshly generated event id. The event, its
      body and its tag rows are stored in one transaction; a storage error is
      answered with 500 and its message. */
  function CreateEvent(s: State, raw: Result<CreateRequest>, parsers: Parsers, newId: Uuid, fault: Fault): (r: Exchange)
    ensures r.reply.status == StatusCreated <==>
              && Bind(raw, "CreateEventDTO", CreateRequired).Ok?
              && parsers.uuid(raw.value.createdBy).Some?
              && fault.None? && Repository.FindEvent(s.events, newId).None?
    ensures r.reply.status == StatusCreated ==> r.reply.body == CreatedBody(newId)
    ensures r.reply.status != StatusCreated ==> r.state == s
    ensures r.state.version == s.version && r.state.jobs == s.jobs && r.state.audit == s.audit
    ensures Valid(s) ==> Valid(r.state)
  {
    match Bind(raw, "CreateEventDTO", CreateRequired)
    case Err(msg) => Exchange(s, Reply(StatusBadRequest, ErrorBody(msg)))
    case Ok(dto) =>
      match parsers.uuid(dto.createdBy)
      case None => Exchange(s, Reply(StatusBadRequest, ErrorBody("invalid created_by")))
      case Some(creator) =>
        var st := Repository.CreateEvent(s, DraftOf(newId, dto, creator, parsers), Repository.RowsFor(newId, dto.tags), fault);
        match st.result
        case Err(msg) => Exchange(s, Reply(StatusInternalServerError, ErrorBody(msg)))
        case Ok(_) => Exchange(st.state, Reply(StatusCreated, CreatedBody(newId)))
  }

  /** A created event is appended as a draft with `[]` attachments, stamped
      with the current time, and followed by one tag row per requested tag in
      order. */
  lemma CreateEffect(s: State, raw: Result<CreateRequest>, parsers: Parsers, newId: Uuid)
    requires CreateEvent(s, raw, parsers, newId, None).reply.status == StatusCreated
    ensures var s' := CreateEvent(s, raw, parsers, newId, None).state;
            var creator := parsers.uuid(raw.value.createdBy).value;
            && s'.events == s.events + [DraftOf(newId, raw.value, creator, parsers).(createdAt := s.clock)]
            && s'.events[|s.events|].status == "draft"
            && s'.events[|s.events|].attachments == "[]"
            && s'.tags == s.tags + Repository.RowsFor(newId, raw.value.tags)
            && TagsOf(s'.tags, newId) == TagsOf(s.tags, newId) + raw.value.tags
  {
    var s' := CreateEvent(s, raw, parsers, newId, None).state;
    var rows := Repository.RowsFor(newId, raw.value.tags);
    TagsOfConcat(s.tags, rows, newId);
    Repository.OwnRows(raw.value.tags, newId);
  }

  /** A request that names a creator that is not a UUID is refused with 400
      before anything is stored. */
  lemma CreateRejectsBadCreator(s: State, raw: Result<CreateRequest>, parsers: Parsers, newId: Uuid, fault: Fault)
    requires Bind(raw, "CreateEventDTO", CreateRequired).Ok?
    requires parsers.uuid(raw.value.createdBy).None?
    ensures CreateEvent(s, raw, parsers, newId, fault) == Exchange(s, Reply(StatusBadRequest, ErrorBody("invalid created_by")))
  {
  }

  // ---------------------------------------------------------------------------
  // Update
  // ---------------------------------------------------------------------------

  /** The update request body: every field is optional. `attachments` records
      only whether a non-null array was sent, since its contents are dropped. */
  datatype UpdateRequest = UpdateRequest(
    title: Option<string>,
    summary: Option<string>,
    body: Option<string>,
    attachments: bool,
    tags: seq<string>,
    scheduledAt: Option<string>)

  /** The columns an update request writes: present fields, except that a
      present but empty `scheduledAt` is skipped. */
  function PatchOf(id: Uuid, u: UpdateRequest, parsers: Parsers): (p: Repository.EventPatch)
    ensures p.id == id
    ensures p.title == u.title.GetOr("") && p.summary == u.summary.GetOr("") && p.body == u.body.GetOr("")
    ensures p.attachments == if u.attachments then Some("[]") else None
    ensures p.scheduledAt.Some? <==> u.scheduledAt.Some? && u.scheduledAt.value != ""
    ensures p.scheduledAt.Some? ==> p.scheduledAt == ScheduleOf(u.scheduledAt.value, parsers)
  {
    Repository.EventPatch(
      id,
      u.title.GetOr(""),
      u.summary.GetOr(""),
      if u.scheduledAt.Some? && u.scheduledAt.value != "" then ScheduleOf(u.scheduledAt.value, parsers) else None,
      u.body.GetOr(""),
      if u.attachments then Some("[]") else None)
  }

  /** `UpdateEvent`: patches the event and its body and replaces its tags with
      the requested ones, in one transaction. An id that names no event is
      not an error. */
  function UpdateEvent(s: State, idText: string, raw: Result<UpdateRequest>, parsers: Parsers, fault: Fault): (r: Exchange)
    ensures parsers.uuid(idText).None? ==> r.reply == Reply(StatusBadRequest, ErrorBody("invalid id"))
    ensures parsers.uuid(idText).Some? && raw.Err? ==> r.reply == Reply(StatusBadRequest, ErrorBody(raw.error))
    ensures parsers.uuid(idText).Some? && raw.Ok? && fault.Some? ==>
              r.reply == Reply(StatusInternalServerError, ErrorBody("unable to update event"))
    ensures r.reply.status == StatusOK <==> parsers.uuid(idText).Some? && raw.Ok? && fault.None?
    ensures r.reply.status == StatusOK ==> r.reply.body == MessageBody("event updated")
    ensures r.reply.status != StatusOK ==> r.state == s
    ensures r.state.version == s.version && r.state.jobs == s.jobs && r.state.audit == s.audit
    ensures Valid(s) ==> Valid(r.state)
  {
    match parsers.uuid(idText)
    case None => Exchange(s, Reply(StatusBadRequest, ErrorBody("invalid id")))
    case Some(id) =>
      match raw
      case Err(msg) => Exchange(s, Reply(StatusBadRequest, ErrorBody(msg)))
      case Ok(u) =>
        var st := Repository.UpdateEvent(s, PatchOf(id, u, parsers), Repository.RowsFor(id, u.tags), fault);
        if st.result.Err? then Exchange(s, Reply(StatusInternalServerError, ErrorBody("unable to update event")))
        else Exchange(st.state, Reply(StatusOK, MessageBody("event updated")))
  }

  /** After a successful update the event keeps every field the request
      leaves out (or sends empty), takes every field it sends non-empty, and
      has exactly the requested tags, in order. No other event and no other
      event's tags change. */
  lemma UpdateEffect(s: State, idText: string, raw: Result<UpdateRequest>, parsers: Parsers, i: nat)
    requires UpdateEvent(s, idText, raw, parsers, None).reply.status == StatusOK
    requires i < |s.events|
    ensures var id := parsers.uuid(idText).value;
            var u := raw.value;
            var s' := UpdateEvent(s, idText, raw, parsers, None).state;
            var e, e' := s.events[i], s'.events[i];
            && |s'.events| == |s.events|
            && (e.id != id ==> e' == e)
            && (e.id == id ==>
                  && e'.id == e.id && e'.createdBy == e.createdBy && e'.status == e.status && e'.createdAt == e.createdAt
                  && e'.title == (if u.title.Some? && u.title.value != "" then u.title.value else e.title)
                  && e'.summary == (if u.summary.Some? && u.summary.value != "" then u.summary.value else e.summary)
                  && e'.body == (if u.body.Some? && u.body.value != "" then u.body.value else e.body)
                  && e'.attachments == (if u.attachments then "[]" else e.attachments)
                  && e'.scheduledAt == (if u.scheduledAt.Some? && u.scheduledAt.value != ""
                                        then ScheduleOf(u.scheduledAt.value, parsers) else e.scheduledAt))
  {
    var id := parsers.uuid(idText).value;
    var p := PatchOf(id, raw.value, parsers);
    assert UpdateEvent(s, idText, raw, parsers, None).state
        == Repository.UpdateEvent(s, p, Repository.RowsFor(id, raw.value.tags), None).state;
  }

  /** The tag list is rebuilt from the request: the event ends with exactly
      the requested tags (none when the request sends none) and every other
      event keeps its own. */
  lemma UpdateTags(s: State, idText: string, raw: Result<UpdateRequest>, parsers: Parsers)
    requires UpdateEvent(s, idText, raw, parsers, None).reply.status == StatusOK
    ensures var id := parsers.uuid(idText).value;
            var s' := UpdateEvent(s, idText, raw, parsers, None).state;
            && TagsOf(s'.tags, id) == raw.value.tags
            && forall other | other != id :: TagsOf(s'.tags, other) == TagsOf(s.tags, other)
  {
    var id := parsers.uuid(idText).value;
    Repository.UpdateReplacesTags(s, PatchOf(id, raw.value, parsers), raw.value.tags);
  }

  /** A present but empty `scheduledAt` is the same request as an absent one. */
  lemma UpdateEmptySchedule(s: State, idText: string, u: UpdateRequest, parsers: Parsers, fault: Fault)
    requires u.scheduledAt == Some("")
    ensures UpdateEvent(s, idText, Ok(u), parsers, fault) == UpdateEvent(s, idText, Ok(u.(scheduledAt := None)), parsers, fault)
  {
    if parsers.uuid(idText).Some? {
      var id := parsers.uuid(idText).value;
      assert PatchOf(id, u, parsers) == PatchOf(id, u.(scheduledAt := None), parsers);
    }
  }

  // ---------------------------------------------------------------------------
  // The feed version across handlers
  // ---------------------------------------------------------------------------

  /** A broadcast bumps the feed version by exactly one when it succeeds and
      the bump itself does not fail, and leaves it alone otherwise. */
  lemma BroadcastBumpsOnce(s: State, idText: string, request: Option<seq<string>>, parsers: Parsers,
                           faults: BroadcastFaults)
    requires s.version.Some?
    ensures var r := ManualBroadcast(s, idText, request, parsers, faults);
            r.state.version == if r.reply.status == StatusOK && faults.increment.None?
                               then Some(s.version.value + 1) else s.version
  {
    var r := ManualBroadcast(s, idText, request, parsers, faults);
    if r.reply.status == StatusOK {
      var e := Repository.GetEvent(s, parsers.uuid(idText).value, faults.lookup).value;
      PublishVersion(s, e, RequestedChannels(request), faults);
    }
  }

  /** The writes of a broadcast move the version only through the bump. */
  lemma PublishVersion(s: State, e: Event, channels: seq<string>, faults: BroadcastFaults)
    requires s.version.Some?
    ensures Publish(s, e, channels, faults).version
         == if faults.increment.None? then Some(s.version.value + 1) else s.version
  {
    var s1 := EnqueueAll(s, e.id, channels, PayloadOf(e), faults.enqueue, 0);
    Repository.IncrementOnce(s1);
  }

  /** A moderation bumps the feed version by exactly one when it succeeds and
      the bump itself does not fail, and leaves it alone otherwise; creation
      and update never move it. */
  lemma ModerateBumpsOnce(s: State, idText: string, raw: Result<ModerateRequest>, parsers: Parsers,
                          repoFault: Fault, incrementFault: Fault)
    requires s.version.Some?
    ensures var r := ModerateEvent(s, idText, raw, parsers, repoFault, incrementFault);
            r.state.version == if r.reply.status == StatusOK && incrementFault.None?
                               then Some(s.version.value + 1) else s.version
  {
    var r := ModerateEvent(s, idText, raw, parsers, repoFault, incrementFault);
    if r.reply.status == StatusOK {
      var id := parsers.uuid(idText).value;
      var moderator := parsers.uuid(raw.value.moderatorId).value;
      var st := Repository.ModerateEvent(s, id, StatusFor(raw.value.action), moderator, raw.value.notes, repoFault);
      assert r.state == Repository.IncrementFeedVersion(st.state, incrementFault).state;
    }
  }
}
