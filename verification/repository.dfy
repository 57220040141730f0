/**
 The event repository apart from the job queue: the feed-version row, the
 publish audit log, event creation, update and moderation (each one
 transaction), event lookup and the paginated feed query.
 */
module Repository {
  import opened Base
  import opened Model

  const RecordNotFound: string := "record not found"
  const DuplicateKey: string := "duplicate key value violates unique constraint"

  // ---------------------------------------------------------------------------
  // Feed version
  // ---------------------------------------------------------------------------

  /** `GetFeedVersion`: reads the version of row 1, failing when the row is missing. */
  function GetFeedVersion(s: State, fault: Fault): (r: Result<int>)
    ensures r.Ok? <==> fault.None? && s.version.Some?
    ensures r.Ok? ==> r.value == s.version.value
  {
    if fault.Some? then Err(fault.value)
    else if s.version.None? then Err(RecordNotFound)
    else Ok(s.version.value)
  }

  /** `IncrementFeedVersion`: one atomic `version = version + 1` on row 1. An
      update that matches no row is not an error. Nothing else changes. */
  function IncrementFeedVersion(s: State, fault: Fault): (st: Step<()>)
    ensures fault.Some? ==> st == Step(s, Err(fault.value))
    ensures fault.None? ==> st.result.Ok? && st.state == s.(version := st.state.version)
    ensures fault.None? && s.version.Some? ==> st.state.version == Some(s.version.value + 1)
    ensures s.version.None? ==> st.state == s
  {
    if fault.Some? then Step(s, Err(fault.value))
    else match s.version
      case None => Step(s, Ok(()))
      case Some(v) => Step(s.(version := Some(v + 1)), Ok(()))
  }

  /** A successful increment as one equation: the version moves up by one
      when the row exists and nothing else changes. */
  lemma IncrementOnce(s: State)
    ensures IncrementFeedVersion(s, None).state
         == s.(version := if s.version.Some? then Some(s.version.value + 1) else None)
  {
  }

  /** `n` successive successful increments. */
  function IncrementTimes(s: State, n: nat): State
    decreases n
  {
    if n == 0 then s else IncrementTimes(IncrementFeedVersion(s, None).state, n - 1)
  }

  /** No lost updates: `n` increments from version `v` leave version `v + n`
      and the rest of the database as it was. */
  lemma {:induction false} IncrementsAdd(s: State, n: nat)
    requires s.version.Some?
    ensures IncrementTimes(s, n) == s.(version := Some(s.version.value + n))
    decreases n
  {
    if n > 0 {
      IncrementsAdd(IncrementFeedVersion(s, None).state, n - 1);
    }
  }

  // ---------------------------------------------------------------------------
  // Audit log
  // ---------------------------------------------------------------------------

  /** `CreatePublishAudit`: appends one audit row and touches nothing else. */
  function CreatePublishAudit(s: State, entry: AuditEntry, fault: Fault): (st: Step<()>)
    ensures fault.Some? ==> st == Step(s, Err(fault.value))
    ensures fault.None? ==> st.result.Ok? && st.state == s.(audit := s.audit + [entry])
  {
    if fault.Some? then Step(s, Err(fault.value)) else Step(s.(audit := s.audit + [entry]), Ok(()))
  }

  // ---------------------------------------------------------------------------
  // Events
  // ---------------------------------------------------------------------------

  /** The position of the event with the given id, if there is one. */
  function FindEvent(events: seq<Event>, id: Uuid): (r: Option<nat>)
    ensures r.Some? ==> r.value < |events| && events[r.value].id == id
    ensures r.None? ==> forall i | 0 <= i < |events| :: events[i].id != id
  {
    if |events| == 0 then None
    else if events[|events| - 1].id == id then Some(|events| - 1)
    else FindEvent(events[..|events| - 1], id)
  }

  /** `GetEvent`: the event with that id, "record not found" when there is none. */
  function GetEvent(s: State, id: Uuid, fault: Fault): (r: Result<Event>)
    ensures r.Ok? ==> fault.None? && r.value in s.events && r.value.id == id
    ensures r.Err? ==> fault.Some? || forall i | 0 <= i < |s.events| :: s.events[i].id != id
  {
    if fault.Some? then Err(fault.value)
    else match FindEvent(s.events, id)
      case None => Err(RecordNotFound)
      case Some(i) => Ok(s.events[i])
  }

  /** `CreateEvent`: one transaction inserting the event (stamped with the
      current time), its body and its tag rows; a clash on the event id or a
      storage fault rolls everything back. */
  function CreateEvent(s: State, e: Event, rows: seq<TagRow>, fault: Fault): (st: Step<()>)
    ensures st.result.Err? ==> st.state == s
    ensures st.result.Ok? <==> fault.None? && FindEvent(s.events, e.id).None?
    ensures st.result.Ok? ==>
              && st.state.events == s.events + [e.(createdAt := s.clock)]
              && st.state.tags == s.tags + rows
              && s.clock < st.state.clock
              && st.state == s.(events := st.state.events, tags := st.state.tags, clock := st.state.clock)
    ensures Valid(s) ==> Valid(st.state)
  {
    if fault.Some? then Step(s, Err(fault.value))
    else if FindEvent(s.events, e.id).Some? then Step(s, Err(DuplicateKey))
    else Step(s.(events := s.events + [e.(createdAt := s.clock)], tags := s.tags + rows, clock := s.clock + 1), Ok(()))
  }

  /** The columns an update writes. GORM's `Updates` with a struct writes only
      fields that are not the zero value: empty strings and `nil` references are
      skipped. */
  datatype EventPatch = EventPatch(
    id: Uuid,
    title: string,
    summary: string,
    scheduledAt: Option<nat>,
    body: string,
    attachments: Option<string>)

  /** An event with the non-zero fields of a patch written over it. */
  function Patched(e: Event, p: EventPatch): (e': Event)
    ensures e'.id == e.id && e'.createdAt == e.createdAt && e'.createdBy == e.createdBy && e'.status == e.status
    ensures e'.title == (if p.title != "" then p.title else e.title)
    ensures e'.summary == (if p.summary != "" then p.summary else e.summary)
    ensures e'.scheduledAt == (if p.scheduledAt.Some? then p.scheduledAt else e.scheduledAt)
    ensures e'.body == (if p.body != "" then p.body else e.body)
    ensures e'.attachments == p.attachments.GetOr(e.attachments)
  {
    e.(title := if p.title != "" then p.title else e.title,
       summary := if p.summary != "" then p.summary else e.summary,
       scheduledAt := if p.scheduledAt.Some? then p.scheduledAt else e.scheduledAt,
       body := if p.body != "" then p.body else e.body,
       attachments := p.attachments.GetOr(e.attachments))
  }

  /** The tag rows that do not belong to the given event. */
  function WithoutEvent(rows: seq<TagRow>, id: Uuid): (r: seq<TagRow>)
    ensures forall x :: x in r <==> x in rows && x.eventId != id
    ensures TagsOf(r, id) == []
    ensures forall other | other != id :: TagsOf(r, other) == TagsOf(rows, other)
  {
    if |rows| == 0 then []
    else
      var rest := WithoutEvent(rows[1..], id);
      if rows[0].eventId == id then rest
      else
        assert ([rows[0]] + rest)[1..] == rest;
        [rows[0]] + rest
  }

  /** `UpdateEvent`: one transaction that patches the event and its body,
      deletes all of the event's tag rows and inserts the given ones. An id that
      matches no event updates nothing and is not an error. */
  function UpdateEvent(s: State, p: EventPatch, rows: seq<TagRow>, fault: Fault): (st: Step<()>)
    ensures fault.Some? ==> st == Step(s, Err(fault.value))
    ensures fault.None? ==> st.result.Ok?
    ensures fault.None? ==>
              && st.state == s.(events := st.state.events, tags := st.state.tags)
              && |st.state.events| == |s.events|
              && (forall i | 0 <= i < |s.events| ::
                    st.state.events[i] == if s.events[i].id == p.id then Patched(s.events[i], p) else s.events[i])
              && st.state.tags == WithoutEvent(s.tags, p.id) + rows
    ensures Valid(s) ==> Valid(st.state)
  {
    if fault.Some? then Step(s, Err(fault.value))
    else
      var events' := seq(|s.events|, i requires 0 <= i < |s.events| =>
        if s.events[i].id == p.id then Patched(s.events[i], p) else s.events[i]);
      Step(s.(events := events', tags := WithoutEvent(s.tags, p.id) + rows), Ok(()))
  }

  /** The rows the handlers build for one event from a list of tag names. */
  function RowsFor(id: Uuid, tags: seq<string>): (rows: seq<TagRow>)
    ensures |rows| == |tags|
    ensures forall k | 0 <= k < |tags| :: rows[k] == TagRow(id, tags[k])
  {
    seq(|tags|, k requires 0 <= k < |tags| => TagRow(id, tags[k]))
  }

  /** Deleting an event's rows and appending new ones for it gives that event
      exactly the new tags and leaves every other event's tags alone. */
  lemma ReplaceTags(table: seq<TagRow>, id: Uuid, tags: seq<string>)
    ensures TagsOf(WithoutEvent(table, id) + RowsFor(id, tags), id) == tags
    ensures forall other | other != id ::
              TagsOf(WithoutEvent(table, id) + RowsFor(id, tags), other) == TagsOf(table, other)
  {
    var kept, rows := WithoutEvent(table, id), RowsFor(id, tags);
    TagsOfConcat(kept, rows, id);
    OwnRows(tags, id);
    forall other | other != id
      ensures TagsOf(kept + rows, other) == TagsOf(table, other)
    {
      TagsOfConcat(kept, rows, other);
      ForeignRows(tags, id, other);
    }
  }

  /** Tag replacement is wholesale: after an update the event's tags are
      exactly the inserted ones, in order, and every other event's are untouched. */
  lemma UpdateReplacesTags(s: State, p: EventPatch, tags: seq<string>)
    ensures var s' := UpdateEvent(s, p, RowsFor(p.id, tags), None).state;
            && TagsOf(s'.tags, p.id) == tags
            && forall other | other != p.id :: TagsOf(s'.tags, other) == TagsOf(s.tags, other)
  {
    ReplaceTags(s.tags, p.id, tags);
  }

  /** Rows built for one event carry no tags of another. */
  lemma {:induction false} ForeignRows(tags: seq<string>, id: Uuid, other: Uuid)
    requires other != id
    ensures TagsOf(RowsFor(id, tags), other) == []
    decreases |tags|
  {
    if |tags| > 0 {
      ForeignRows(tags[1..], id, other);
      assert RowsFor(id, tags)[1..] == RowsFor(id, tags[1..]);
    }
  }

  /** Rows built for one event carry exactly its tags. */
  lemma {:induction false} OwnRows(tags: seq<string>, id: Uuid)
    ensures TagsOf(RowsFor(id, tags), id) == tags
    decreases |tags|
  {
    if |tags| > 0 {
      OwnRows(tags[1..], id);
      assert RowsFor(id, tags)[1..] == RowsFor(id, tags[1..]);
    }
  }

  /** `ModerateEvent`: one transaction that sets the event's status and appends
      a "moderation" audit row carrying the moderator and notes. An id that
      matches no event updates no row but still writes the audit row. */
  function ModerateEvent(s: State, id: Uuid, status: string, moderator: Uuid, notes: string, fault: Fault): (st: Step<()>)
    ensures fault.Some? ==> st == Step(s, Err(fault.value))
    ensures fault.None? ==> st.result.Ok?
    ensures fault.None? ==>
              && st.state == s.(events := st.state.events, audit := st.state.audit)
              && st.state.audit == s.audit + [AuditEntry(id, "moderation", status, ModerationDetail(moderator, notes))]
              && |st.state.events| == |s.events|
              && (forall i | 0 <= i < |s.events| ::
                    st.state.events[i] == if s.events[i].id == id then s.events[i].(status := status) else s.events[i])
    ensures Valid(s) ==> Valid(st.state)
  {
    if fault.Some? then Step(s, Err(fault.value))
    else
      var events' := seq(|s.events|, i requires 0 <= i < |s.events| =>
        if s.events[i].id == id then s.events[i].(status := status) else s.events[i]);
      var entry := AuditEntry(id, "moderation", status, ModerationDetail(moderator, notes));
      Step(s.(events := events', audit := s.audit + [entry]), Ok(()))
  }

  // ---------------------------------------------------------------------------
  // Feed query
  // ---------------------------------------------------------------------------

  /** The `created_at > since` filter; no filter when `since` is absent. */
  predicate After(e: Event, since: Option<nat>) {
    since.None? || e.createdAt > since.value
  }

  /** The events passing the filter, in insertion order. */
  function Matching(events: seq<Event>, since: Option<nat>): (r: seq<Event>)
    ensures |r| <= |events|
    ensures forall e :: e in r <==> e in events && After(e, since)
  {
    if |events| == 0 then []
    else Matching(events[..|events| - 1], since)
         + (if After(events[|events| - 1], since) then [events[|events| - 1]] else [])
  }

  function Reverse<T>(xs: seq<T>): (r: seq<T>)
    ensures |r| == |xs|
    ensures forall i | 0 <= i < |xs| :: r[i] == xs[|xs| - 1 - i]
  {
    seq(|xs|, i requires 0 <= i < |xs| => xs[|xs| - 1 - i])
  }

  /** The matching events, newest first (`ORDER BY created_at DESC`). */
  function NewestFirst(events: seq<Event>, since: Option<nat>): seq<Event> {
    Reverse(Matching(events, since))
  }

  datatype FeedPage = FeedPage(events: seq<Event>, total: int)

  /** The offset of a page: `(page - 1) * size`. */
  function Offset(page: int, size: int): (o: int)
    requires page >= 1 && size >= 1
    ensures o >= 0
  {
    (page - 1) * size
  }

  /** `OFFSET offset LIMIT size` over an ordered result. */
  function Window<T>(xs: seq<T>, offset: nat, size: nat): (w: seq<T>)
    ensures |w| == if offset >= |xs| then 0 else Min(size, |xs| - offset)
    ensures forall k | 0 <= k < |w| :: w[k] == xs[offset + k]
  {
    if offset >= |xs| then [] else xs[offset..Min(offset + size, |xs|)]
  }

  /** `GetEventFeed`: counts all matching events, then returns the `size`
      newest-first ones starting at `(page - 1) * size`. */
  function GetEventFeed(s: State, page: int, size: int, since: Option<nat>, channel: string, fault: Fault): (r: Result<FeedPage>)
    requires page >= 1 && size >= 1
    ensures r.Ok? <==> fault.None?
    ensures r.Ok? ==> r.value.total == |Matching(s.events, since)|
    ensures r.Ok? ==> |r.value.events| == if Offset(page, size) >= r.value.total then 0
                                         else Min(size, r.value.total - Offset(page, size))
    ensures r.Ok? ==> forall k | 0 <= k < |r.value.events| ::
                        r.value.events[k] == NewestFirst(s.events, since)[Offset(page, size) + k]
  {
    if fault.Some? then Err(fault.value)
    else
      var ordered := NewestFirst(s.events, since);
      Ok(FeedPage(Window(ordered, Offset(page, size), size), |ordered|))
  }

  /** Creation times strictly increase along `xs`. */
  predicate Ascending(xs: seq<Event>) {
    forall i, j | 0 <= i < j < |xs| :: xs[i].createdAt < xs[j].createdAt
  }

  /** Appending events younger than everything in an ascending sequence keeps it ascending. */
  lemma AppendAscending(xs: seq<Event>, tail: seq<Event>)
    requires Ascending(xs) && Ascending(tail)
    requires forall e, f | e in xs && f in tail :: e.createdAt < f.createdAt
    ensures Ascending(xs + tail)
  {
    var r := xs + tail;
    forall i, j | 0 <= i < j < |r|
      ensures r[i].createdAt < r[j].createdAt
    {
      if j < |xs| {
        assert r[i] == xs[i] && r[j] == xs[j];
      } else if i >= |xs| {
        assert r[i] == tail[i - |xs|] && r[j] == tail[j - |xs|];
      } else {
        assert r[i] == xs[i] && r[j] == tail[j - |xs|];
        assert xs[i] in xs && tail[j - |xs|] in tail;
      }
    }
  }

  /** Matching keeps the creation order of a consistent event table. */
  lemma {:induction false} MatchingSorted(events: seq<Event>, since: Option<nat>)
    requires Ascending(events)
    ensures Ascending(Matching(events, since))
    decreases |events|
  {
    if |events| > 0 {
      var front := events[..|events| - 1];
      var last := events[|events| - 1];
      MatchingSorted(front, since);
      var tail := if After(last, since) then [last] else [];
      forall e, f | e in Matching(front, since) && f in tail
        ensures e.createdAt < f.createdAt
      {
        var i :| 0 <= i < |front| && front[i] == e;
        assert events[i] == e;
      }
      AppendAscending(Matching(front, since), tail);
    }
  }

  /** A window of the reverse of an ascending sequence is descending and
      holds elements of the sequence only. */
  lemma WindowOfReverse(m: seq<Event>, offset: nat, size: nat)
    requires forall i, j | 0 <= i < j < |m| :: m[i].createdAt < m[j].createdAt
    ensures var w := Window(Reverse(m), offset, size);
            && (forall k | 0 <= k < |w| :: w[k] in m)
            && (forall k, l | 0 <= k < l < |w| :: w[k].createdAt > w[l].createdAt)
  {
    var w := Window(Reverse(m), offset, size);
    assert forall k | 0 <= k < |w| :: offset + k < |m| && w[k] == m[|m| - 1 - (offset + k)];
  }

  /** A page holds matching events only, strictly newest first. */
  lemma FeedNewestFirst(s: State, page: int, size: int, since: Option<nat>, channel: string)
    requires Valid(s)
    requires page >= 1 && size >= 1
    ensures var items := GetEventFeed(s, page, size, since, channel, None).value.events;
            && (forall k | 0 <= k < |items| :: items[k] in s.events && After(items[k], since))
            && (forall k, l | 0 <= k < l < |items| :: items[k].createdAt > items[l].createdAt)
  {
    MatchingSorted(s.events, since);
    var m := Matching(s.events, since);
    WindowOfReverse(m, Offset(page, size), size);
  }

  /** Paging covers the whole feed: the matching event at position
      `q * size + r` of the newest-first order is item `r` of page `q + 1`. */
  lemma FeedCovers(s: State, size: int, since: Option<nat>, channel: string, q: nat, r: nat)
    requires 0 <= r < size
    requires q * size + r < |Matching(s.events, since)|
    ensures var items := GetEventFeed(s, q + 1, size, since, channel, None).value.events;
            r < |items| && items[r] == NewestFirst(s.events, since)[q * size + r]
  {
    var o := Offset(q + 1, size);
    assert o == q * size;
    var total := |Matching(s.events, since)|;
    assert r < Min(size, total - o);
  }
}
