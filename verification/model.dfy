/**
 The rows the events service keeps and the abstract database state they live
 in: broadcast jobs, events with their announcement bodies, tag rows, the
 feed-version row and the publish audit log. Timestamps are abstract naturals
 drawn from a clock that advances on every insert.
 */
module Model {
  import opened Base

  /** The four job states; `Sent` and `Failed` are terminal. */
  datatype JobStatus = Pending | Processing | Sent | Failed

  /** The JSON object captured at enqueue time (`title`, `summary`). */
  type Payload = map<string, string>

  /** A row of `broadcast_queue`. */
  datatype Job = Job(
    id: nat,
    eventId: Uuid,
    channel: string,
    payload: Payload,
    status: JobStatus,
    attempts: int,
    lastError: Option<string>,
    createdAt: nat)

  /** The JSON `details` object of an audit row. */
  datatype Details =
    | ErrorDetail(error: string)                   // {"error": msg}
    | NoteDetail(note: string)                     // {"note": msg}
    | ChannelsDetail(channels: seq<string>)        // {"channels": [...]}
    | ModerationDetail(moderatorId: Uuid, notes: string)

  /** A row of the publish audit log. */
  datatype AuditEntry = AuditEntry(eventId: Uuid, channel: string, status: string, details: Details)

  /** An event row joined with its announcement body (`body`, `attachments`). */
  datatype Event = Event(
    id: Uuid,
    title: string,
    summary: string,
    createdBy: Uuid,
    status: string,
    scheduledAt: Option<nat>,
    createdAt: nat,
    body: string,
    attachments: string)

  /** A row of `event_tags`. */
  datatype TagRow = TagRow(eventId: Uuid, tag: string)

  /** The database. Jobs and events are kept in insertion order; `version` is
      the `feed_meta` row with id 1, absent until it is seeded. */
  datatype State = State(
    jobs: seq<Job>,
    events: seq<Event>,
    tags: seq<TagRow>,
    version: Option<int>,
    audit: seq<AuditEntry>,
    clock: nat)

  /** A repository call's effect on the database and what it returns. */
  datatype Step<+T> = Step(state: State, result: Result<T>)

  /** Job ids are assigned serially from 1, without the gaps a failed insert
      leaves in a real sequence, and creation times strictly increase with
      them: the state clock stands for a `time.Now()` that never ties. */
  predicate JobsValid(jobs: seq<Job>, clock: nat) {
    && (forall i | 0 <= i < |jobs| :: jobs[i].id == i + 1 && jobs[i].createdAt < clock)
    && (forall i, j | 0 <= i < j < |jobs| :: jobs[i].createdAt < jobs[j].createdAt)
  }

  /** Event ids are unique and creation times strictly increase in insertion
      order, under the same never-tying clock. */
  predicate EventsValid(events: seq<Event>, clock: nat) {
    && (forall i | 0 <= i < |events| :: events[i].createdAt < clock)
    && (forall i, j | 0 <= i < j < |events| :: events[i].createdAt < events[j].createdAt)
    && (forall i, j | 0 <= i < j < |events| :: events[i].id != events[j].id)
  }

  /** The invariant every reachable database state satisfies. */
  predicate Valid(s: State) {
    JobsValid(s.jobs, s.clock) && EventsValid(s.events, s.clock)
  }

  /** The tags of one event, in the order of its rows. `Preload("Tags")`
      loads the same tags but sends no ORDER BY, so reading them in
      insertion order is an assumption of this model. */
  function TagsOf(rows: seq<TagRow>, id: Uuid): (tags: seq<string>)
    ensures |tags| <= |rows|
    ensures forall t :: t in tags <==> TagRow(id, t) in rows
  {
    if |rows| == 0 then []
    else (if rows[0].eventId == id then [rows[0].tag] else []) + TagsOf(rows[1..], id)
  }

  lemma {:induction false} TagsOfConcat(a: seq<TagRow>, b: seq<TagRow>, id: Uuid)
    ensures TagsOf(a + b, id) == TagsOf(a, id) + TagsOf(b, id)
    decreases |a|
  {
    if |a| == 0 {
      assert a + b == b;
    } else {
      assert (a + b)[0] == a[0];
      assert (a + b)[1..] == a[1..] + b;
      TagsOfConcat(a[1..], b, id);
    }
  }
}
