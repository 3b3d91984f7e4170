/** The service as a state machine over its committed transactions.

    Each step is the effect of one commit (or of losing one): an append or replay through
    `create_audit_event`, the two commits of a redaction, a retention run, an id lost to a
    rollback, a redaction that never reaches its second commit. */
module System {
  import opened Texts
  import opened Jsons
  import opened Wrappers
  import opened AuditLog
  import JsonPrinter
  import opened Hashing

  // ----- requests and answers -----

  /** One call of `create_audit_event`, with the caller's idempotency key if it sent one. */
  datatype Call = Call(request: Request, key: Option<CallerKey>)

  datatype Response =
    | Created(id: int, eventHash: Text)
    | Replayed(id: int, eventHash: Text)
    | Conflict
    | Failed  // an integrity error of the database

  datatype Answer = Answer(call: Call, response: Response)

  /** What a redaction carries from its first commit to its second. */
  datatype Approval = Approval(
    tenantId: Text,
    actorId: Text,
    reason: Option<Text>,
    fields: seq<Text>,
    contentHash: Text
  )

  /** The tables and the id sequence, the redactions between their two commits, those that
      stopped there, and three history variables no step reads: the content each row was
      hashed with, the answers given, and the sum of the reported archive counts. */
  datatype State = State(
    rows: seq<Row>,
    keys: map<CallerKey, KeyRow>,
    nextId: int,
    live: map<int, Approval>,
    stuck: set<int>,
    origin: seq<Content>,
    answers: seq<Answer>,
    reported: nat
  )

  const INIT: State := State([], map[], 1, map[], {}, [], [], 0)

  // ----- appending -----

  /** The row `create_audit_event` builds on the tail of the log. */
  function NewContent(rows: seq<Row>, request: Request, timestamp: int): Content {
    Content(request, timestamp, LinkBefore(rows, |rows|))
  }

  function NewRow(hash: Content -> Text, id: int, content: Content): Row {
    Row(id, content, hash(content), None, None, None, None)
  }

  function Append(d: Digests, s: State, request: Request, timestamp: int): State {
    var content := NewContent(s.rows, request, timestamp);
    s.(rows := s.rows + [NewRow(d.content, s.nextId, content)],
       origin := s.origin + [content],
       nextId := s.nextId + 1)
  }

  /** The row an idempotency key stands for. */
  function KeyedRow(s: State, k: CallerKey): Option<nat>
    requires k in s.keys
  {
    Find(s.rows, s.keys[k].eventId)
  }

  /** The unique constraint on `event_hash` would refuse this hash. */
  predicate HashTaken(rows: seq<Row>, eventHash: Text) {
    exists r :: r in rows && r.eventHash == eventHash
  }

  function ResponseTo(d: Digests, s: State, call: Call, timestamp: int): Response {
    var eventHash := d.content(NewContent(s.rows, call.request, timestamp));
    if call.key.None? || call.key.value !in s.keys then
      if HashTaken(s.rows, eventHash) then Failed else Created(s.nextId, eventHash)
    else if s.keys[call.key.value].fingerprint != d.request(call.request) then Conflict
    else
      match KeyedRow(s, call.key.value)
      case Some(i) => Replayed(s.rows[i].id, s.rows[i].eventHash)
      case None => Failed  // proceeds to append, then trips over the unique key
  }

  /** One whole call of `create_audit_event`, as if nothing else ran meanwhile. */
  function Submit(d: Digests, s: State, call: Call, timestamp: int): State {
    var response := ResponseTo(d, s, call, timestamp);
    var t := match response
      case Created(_, _) =>
        var appended := Append(d, s, call.request, timestamp);
        if call.key.None? then appended
        else appended.(keys := s.keys[call.key.value :=
                                        KeyRow(d.request(call.request), s.nextId, timestamp)])
      case Failed => s.(nextId := s.nextId + 1)
      case _ => s;
    t.(answers := s.answers + [Answer(call, response)])
  }

  // ----- redacting -----

  /** `[f for f in fields if f in payload and f not in already]`. */
  function FieldsToRedact(payload: Dict, fields: seq<Text>, already: seq<Text>): (r: seq<Text>)
    ensures forall f :: f in r <==> f in fields && HasKey(payload, f) && f !in already
  {
    if fields == [] then []
    else
      var rest := FieldsToRedact(payload, fields[1..], already);
      assert fields == [fields[0]] + fields[1..];
      if Lookup(payload, fields[0]).Some? && fields[0] !in already then [fields[0]] + rest else rest
  }

  /** `for field in fields: payload[field] = v`. */
  function Overwritten(payload: Dict, fields: seq<Text>, v: Json): Dict {
    if fields == [] then payload
    else Put(Overwritten(payload, fields[..|fields| - 1], v), fields[|fields| - 1], v)
  }

  /** The payload with each of the fields overwritten by the marker. */
  function Tombstoned(payload: Dict, fields: seq<Text>): Dict {
    Overwritten(payload, fields, Str(REDACTED_MARKER))
  }

  /** Hashes of the fields' current values. */
  function FieldHashes(d: Digests, payload: Dict, fields: seq<Text>): map<Text, Text>
    requires forall f :: f in fields ==> HasKey(payload, f)
  {
    map f | f in fields :: d.field(Lookup(payload, f).value)
  }

  /** The four columns a redaction writes; the rest of the row stays. */
  function RedactRow(d: Digests, r: Row, fields: seq<Text>, now: int): Row
    requires forall f :: f in fields ==> HasKey(Payload(r), f)
  {
    r.(content := WithPayload(r.content, Tombstoned(Payload(r), fields)),
       redactedAt := Some(now),
       redactedFields := Some(SortUnique(r.redactedFields.GetOr([]) + fields)),
       redactedFieldHashes :=
         Some(r.redactedFieldHashes.GetOr(map[]) + FieldHashes(d, Payload(r), fields)))
  }

  function TextArray(ts: seq<Text>): Json {
    Arr(seq(|ts|, i requires 0 <= i < |ts| => Str(ts[i])))
  }

  function CompanionPayload(id: int, a: Approval): Dict {
    [
      Member(Lit("targetEventId"), Num(id)),
      Member(Lit("redactedFields"), TextArray(a.fields)),
      Member(Lit("redactedContentHash"), Str(a.contentHash))
    ] + (if a.reason.Some? && a.reason.value != [] then [Member(Lit("reason"), Str(a.reason.value))] else [])
  }

  function CompanionRequest(id: int, a: Approval): Request {
    Request(a.tenantId, REDACTION_EVENT_TYPE, a.actorId, REDACTION_RESOURCE_TYPE,
            Lit(JsonPrinter.Decimal(id)), CompanionPayload(id, a))
  }

  // ----- archiving -----

  predicate DueForArchive(r: Row, cutoff: int) {
    r.archivedAt.None? && r.content.timestamp < cutoff
  }

  function ArchiveRow(r: Row, cutoff: int, now: int): Row {
    if DueForArchive(r, cutoff) then r.(archivedAt := Some(now)) else r
  }

  function ArchiveRows(rows: seq<Row>, cutoff: int, now: int): (r: seq<Row>)
    ensures |r| == |rows|
    ensures forall i :: 0 <= i < |rows| ==> r[i] == ArchiveRow(rows[i], cutoff, now)
  {
    seq(|rows|, i requires 0 <= i < |rows| => ArchiveRow(rows[i], cutoff, now))
  }

  function DueCount(rows: seq<Row>, cutoff: int): nat {
    if rows == [] then 0
    else DueCount(rows[..|rows| - 1], cutoff) + (if DueForArchive(rows[|rows| - 1], cutoff) then 1 else 0)
  }

  // ----- the steps -----

  datatype Step =
    | SubmitStep(call: Call, timestamp: int)
    | BurnStep
    | RedactStep(id: int, fields: seq<Text>, actorId: Text, reason: Option<Text>, now: int)
    | CompleteStep(id: int, timestamp: int)
    | CrashStep(id: int)
    | ArchiveStep(cutoff: int, now: int)

  /** When a redaction of `id` commits its first transaction. The service does not check the
      last two conjuncts; its design takes them for granted. */
  ghost predicate Redactable(s: State, id: int, fields: seq<Text>) {
    var i := Find(s.rows, id);
    && i.Some?
    && NewFields(s.rows[i.value], fields) != []
    && EventType(s.rows[i.value]) != REDACTION_EVENT_TYPE
    && id !in s.live
  }

  function NewFields(r: Row, fields: seq<Text>): (f: seq<Text>)
    ensures forall x :: x in f ==> HasKey(Payload(r), x)
  {
    FieldsToRedact(Payload(r), fields, r.redactedFields.GetOr([]))
  }

  ghost predicate Enabled(d: Digests, s: State, step: Step) {
    match step
    case SubmitStep(call, _) =>
      call.request.eventType != REDACTION_EVENT_TYPE && DistinctKeys(call.request.payload)
    case BurnStep => true
    case RedactStep(id, fields, _, _, _) => Redactable(s, id, fields)
    case CompleteStep(id, timestamp) =>
      && id in s.live
      && !HashTaken(s.rows, d.content(NewContent(s.rows, CompanionRequest(id, s.live[id]), timestamp)))
    case CrashStep(id) => id in s.live
    case ArchiveStep(_, _) => true
  }

  function FirstCommit(d: Digests, s: State, i: nat, fields: seq<Text>, actorId: Text, reason: Option<Text>, now: int): State
    requires i < |s.rows| && forall f :: f in fields ==> HasKey(Payload(s.rows[i]), f)
  {
    var r := RedactRow(d, s.rows[i], fields, now);
    s.(rows := s.rows[i := r],
       live := s.live[r.id := Approval(r.content.request.tenantId, actorId, reason, fields, d.content(r.content))])
  }

  function SecondCommit(d: Digests, s: State, id: int, timestamp: int): State
    requires id in s.live
  {
    Append(d, s, CompanionRequest(id, s.live[id]), timestamp).(live := s.live - {id}, stuck := s.stuck - {id})
  }

  ghost function Apply(d: Digests, s: State, step: Step): State
    requires Enabled(d, s, step)
  {
    match step
    case SubmitStep(call, timestamp) => Submit(d, s, call, timestamp)
    case BurnStep => s.(nextId := s.nextId + 1)
    case RedactStep(id, fields, actorId, reason, now) =>
      var i := Find(s.rows, id).value;
      FirstCommit(d, s, i, NewFields(s.rows[i], fields), actorId, reason, now)
    case CompleteStep(id, timestamp) => SecondCommit(d, s, id, timestamp)
    case CrashStep(id) => s.(live := s.live - {id}, stuck := s.stuck + {id})
    case ArchiveStep(cutoff, now) =>
      s.(rows := ArchiveRows(s.rows, cutoff, now), reported := s.reported + DueCount(s.rows, cutoff))
  }

  // ----- runs -----

  ghost predicate ValidRun(d: Digests, steps: seq<Step>)
    decreases |steps|, 0
  {
    steps == [] ||
    (var front := steps[..|steps| - 1];
     ValidRun(d, front) && Enabled(d, After(d, front), steps[|steps| - 1]))
  }

  /** The state a run from the empty log ends in. */
  ghost function After(d: Digests, steps: seq<Step>): State
    requires ValidRun(d, steps)
    decreases |steps|, 1
  {
    if steps == [] then INIT
    else Apply(d, After(d, steps[..|steps| - 1]), steps[|steps| - 1])
  }

  /** Rows whose redaction is between its two commits, or stopped there. */
  function Gap(s: State): set<int> {
    s.live.Keys + s.stuck
  }

  ghost predicate Quiescent(s: State) {
    Gap(s) == {}
  }
}
