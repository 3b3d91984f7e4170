/** The rows of `audit_events` and of the idempotency table. */
module AuditLog {
  import opened Texts
  import opened Jsons
  import opened Wrappers

  /** What a caller controls of an event, together with the tenant the server derives for it. */
  datatype Request = Request(
    tenantId: Text,
    eventType: Text,
    actorId: Text,
    resourceType: Text,
    resourceId: Text,
    payload: Dict
  )

  /** Everything `event_hash` is computed from. Timestamps are UTC instants. */
  datatype Content = Content(request: Request, timestamp: int, previousHash: Text)

  datatype Row = Row(
    id: int,
    content: Content,
    eventHash: Text,
    archivedAt: Option<int>,
    redactedAt: Option<int>,
    redactedFields: Option<seq<Text>>,
    redactedFieldHashes: Option<map<Text, Text>>
  )

  datatype CallerKey = CallerKey(username: Text, key: Text)

  datatype KeyRow = KeyRow(fingerprint: Text, eventId: int, createdAt: int)

  function Repeat(c: CodePoint, n: nat): Text {
    seq(n, i => c)
  }

  /** 64 zeros, the length of a SHA-256 hex digest. */
  const GENESIS_HASH: Text := Repeat('0' as int, 64)

  const REDACTED_MARKER: Text := Lit("[REDACTED]")

  const REDACTION_EVENT_TYPE: Text := Lit("AUDIT_EVENT_REDACTED")

  const REDACTION_RESOURCE_TYPE: Text := Lit("AUDIT_EVENT")

  function Payload(r: Row): Dict {
    r.content.request.payload
  }

  function EventType(r: Row): Text {
    r.content.request.eventType
  }

  /** The same content with another payload. */
  function WithPayload(c: Content, payload: Dict): Content {
    c.(request := c.request.(payload := payload))
  }

  /** The request, and the content, with the payload's dicts in key order. */
  function CanonRequest(r: Request): Request {
    r.(payload := NormalizeDict(r.payload))
  }

  function Canon(c: Content): Content {
    c.(request := CanonRequest(c.request))
  }

  /** `hash` tells apart any two of these contents that differ in more than dict order. */
  ghost predicate Faithful(hash: Content -> Text, contents: set<Content>) {
    forall c, c' {:trigger hash(c), hash(c')} ::
      c in contents && c' in contents && hash(c) == hash(c') ==> Canon(c) == Canon(c')
  }

  /** None of these contents hashes to the value that stands before the first row. */
  ghost predicate AvoidsGenesis(hash: Content -> Text, contents: set<Content>) {
    forall c :: c in contents ==> hash(c) != GENESIS_HASH
  }

  function Contents(rows: seq<Row>): (s: set<Content>)
    ensures forall i :: 0 <= i < |rows| ==> rows[i].content in s
  {
    set r | r in rows :: r.content
  }

  /** The `event_hash` a row at position `i` has to link to. */
  function LinkBefore(rows: seq<Row>, i: nat): Text
    requires i <= |rows|
  {
    if i == 0 then GENESIS_HASH else rows[i - 1].eventHash
  }

  /** Primary keys, in the order `ORDER BY id` returns them. */
  ghost predicate AscendingIds(rows: seq<Row>) {
    forall i, j :: 0 <= i < j < |rows| ==> rows[i].id < rows[j].id
  }

  /** `get_event`. */
  function Find(rows: seq<Row>, id: int): (r: Option<nat>)
    ensures r.Some? ==> r.value < |rows| && rows[r.value].id == id
    ensures r.None? ==> forall i :: 0 <= i < |rows| ==> rows[i].id != id
  {
    if rows == [] then None
    else if rows[|rows| - 1].id == id then Some(|rows| - 1)
    else Find(rows[..|rows| - 1], id)
  }

  lemma FindAt(rows: seq<Row>, i: nat)
    requires AscendingIds(rows) && i < |rows|
    ensures Find(rows, rows[i].id) == Some(i)
  {
  }
}
