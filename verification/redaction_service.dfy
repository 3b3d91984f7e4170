/** `redact_event_fields`: two transactions, and everything that can end between them. */
module RedactionService {
  import opened Texts
  import opened Jsons
  import opened Wrappers
  import opened AuditLog
  import opened ChainVerification
  import JsonPrinter
  import opened Hashing
  import opened System
  import opened Invariants
  import opened Redaction
  import opened Refinement
  import opened Disclosure
  import opened PayloadLimits
  import opened Repository
  import opened AuditService

  datatype RedactionError =
    | EventNotFound(id: int)
    | NoRedactableFields(fields: seq<Text>)
    | InvalidCompanion         // raised after the first commit
    | CompanionRefused         // likewise

  datatype RedactionResult = RedactionResult(
    event: Row,
    newlyRedactedFields: seq<Text>,
    redactedContentHash: Text,
    redactionEvent: Row
  )

  /** The parameters of one call. */
  datatype Order = Order(id: int, fields: seq<Text>, actorId: Text, reason: Option<Text>, now: int)

  /** The log after the first transaction. */
  function FirstHalf(d: Digests, s: State, o: Order, i: nat): (t: State)
    requires i < |s.rows| && s.rows[i].id == o.id
    ensures o.id in t.live && t.nextId == s.nextId && t.keys == s.keys
    ensures |t.rows| == |s.rows|
  {
    FirstCommit(d, s, i, NewFields(s.rows[i], o.fields), o.actorId, o.reason, o.now)
  }

  function CompanionOf(t: State, id: int): Request
    requires id in t.live
  {
    CompanionRequest(id, t.live[id])
  }

  function Abandoned(t: State, id: int): State {
    t.(live := t.live - {id}, stuck := t.stuck + {id})
  }

  /** Where a call leaves the log. */
  function RedactionState(d: Digests, l: Limits, s: State, o: Order, timestamp: int): State {
    match Find(s.rows, o.id)
    case None => s
    case Some(i) =>
      if NewFields(s.rows[i], o.fields) == [] then s
      else
        var t := FirstHalf(d, s, o, i);
        var companion := CompanionOf(t, o.id);
        if !Acceptable(l, companion) then Abandoned(t, o.id)
        else if HashTaken(t.rows, d.content(NewContent(t.rows, companion, timestamp)))
        then Abandoned(t.(nextId := t.nextId + 1), o.id)
        else SecondCommit(d, t, o.id, timestamp)
  }

  /** What a call answers. */
  function RedactionOutcome(d: Digests, l: Limits, s: State, o: Order, timestamp: int)
    : Result<RedactionResult, RedactionError>
  {
    match Find(s.rows, o.id)
    case None => Failure(EventNotFound(o.id))
    case Some(i) =>
      var fields := NewFields(s.rows[i], o.fields);
      if fields == [] then Failure(NoRedactableFields(o.fields))
      else
        var t := FirstHalf(d, s, o, i);
        var companion := CompanionOf(t, o.id);
        if !Acceptable(l, companion) then Failure(InvalidCompanion)
        else if HashTaken(t.rows, d.content(NewContent(t.rows, companion, timestamp))) then Failure(CompanionRefused)
        else Success(RedactionResult(t.rows[i], fields, d.content(t.rows[i].content),
                                     NewRow(d.content, t.nextId, NewContent(t.rows, companion, timestamp))))
  }

  /** The steps of the service a call amounts to. */
  function RedactionSteps(d: Digests, l: Limits, s: State, o: Order, timestamp: int): seq<Step> {
    var first := RedactStep(o.id, o.fields, o.actorId, o.reason, o.now);
    match RedactionOutcome(d, l, s, o, timestamp)
    case Success(_) => [first, CompleteStep(o.id, timestamp)]
    case Failure(InvalidCompanion) => [first, CrashStep(o.id)]
    case Failure(CompanionRefused) => [first, BurnStep, CrashStep(o.id)]
    case _ => []
  }

  /** A companion for the redaction of these fields of this record, to this effect: filed under the
      record's tenant, the caller's name and the record's id, it says which record, which fields, what
      the record's content hashes to since and, if a reason was given, why; nothing else. */
  ghost predicate CompanionFor(was: Row, o: Order, fields: seq<Text>, contentHash: Text, c: Request) {
    && c.tenantId == was.content.request.tenantId && c.actorId == o.actorId
    && c.eventType == Lit("AUDIT_EVENT_REDACTED")
    && c.resourceType == Lit("AUDIT_EVENT") && c.resourceId == Lit(JsonPrinter.Decimal(o.id))
    && Lookup(c.payload, Lit("targetEventId")) == Some(Num(o.id))
    && Lookup(c.payload, Lit("redactedContentHash")) == Some(Str(contentHash))
    && (var listed := Lookup(c.payload, Lit("redactedFields"));
        && listed.Some? && listed.value.Arr? && |listed.value.items| == |fields|
        && forall k :: 0 <= k < |fields| ==> listed.value.items[k] == Str(fields[k]))
    && (if o.reason.Some? && o.reason.value != []
        then |c.payload| == 4 && Lookup(c.payload, Lit("reason")) == Some(Str(o.reason.value))
        else |c.payload| == 3)
  }

  lemma CompanionSays(d: Digests, s: State, o: Order, i: nat)
    requires i < |s.rows| && s.rows[i].id == o.id
    ensures var t := FirstHalf(d, s, o, i);
            CompanionFor(s.rows[i], o, NewFields(s.rows[i], o.fields), d.content(t.rows[i].content), CompanionOf(t, o.id))
  {
    var t := FirstHalf(d, s, o, i);
    CompanionEntries(o.id, t.live[o.id]);
  }

  lemma CompanionEntries(id: int, a: Approval)
    ensures var p := CompanionPayload(id, a);
            && |p| == (if a.reason.Some? && a.reason.value != [] then 4 else 3)
            && Lookup(p, Lit("targetEventId")) == Some(Num(id))
            && Lookup(p, Lit("redactedFields")) == Some(TextArray(a.fields))
            && Lookup(p, Lit("redactedContentHash")) == Some(Str(a.contentHash))
            && Lookup(p, Lit("reason")) == if a.reason.Some? && a.reason.value != [] then Some(Str(a.reason.value)) else None
  {
    var p := CompanionPayload(id, a);
    CompanionKeysDistinct(id, a);
    LookupAt(p, 0);
    LookupAt(p, 1);
    LookupAt(p, 2);
    if a.reason.Some? && a.reason.value != [] {
      LookupAt(p, 3);
    } else {
      assert |Lit("reason")| == 6;
      assert |Lit("targetEventId")| == 13 && |Lit("redactedFields")| == 14 && |Lit("redactedContentHash")| == 19;
    }
  }

  lemma ThreeSteps(d: Digests, s: State, a: Step, b: Step, c: Step, t: State)
    requires Enabled(d, s, a) && Enabled(d, Apply(d, s, a), b)
    requires Enabled(d, Apply(d, Apply(d, s, a), b), c) && Apply(d, Apply(d, Apply(d, s, a), b), c) == t
    ensures Follows(d, s, [a, b, c], t)
  {
    assert [a, b, c][1..] == [b, c];
    TwoSteps(d, Apply(d, s, a), b, c, t);
  }

  /** The record is no companion, and has no redaction between its two commits. The service checks
      neither. */
  ghost predicate Unhindered(s: State, id: int) {
    && (forall i :: 0 <= i < |s.rows| && s.rows[i].id == id ==> EventType(s.rows[i]) != Lit("AUDIT_EVENT_REDACTED"))
    && id !in s.live
  }

  /** A call, whatever becomes of it, is a run of the service: both commits, or the first and
      then the end of the request, or nothing. */
  lemma RedactionIsARun(d: Digests, l: Limits, s: State, o: Order, timestamp: int)
    requires RedactionSteps(d, l, s, o, timestamp) != [] ==> Unhindered(s, o.id)
    ensures Follows(d, s, RedactionSteps(d, l, s, o, timestamp), RedactionState(d, l, s, o, timestamp))
  {
    var first := RedactStep(o.id, o.fields, o.actorId, o.reason, o.now);
    var t := RedactionState(d, l, s, o, timestamp);
    match RedactionOutcome(d, l, s, o, timestamp) {
      case Success(_) => TwoSteps(d, s, first, CompleteStep(o.id, timestamp), t);
      case Failure(InvalidCompanion) => TwoSteps(d, s, first, CrashStep(o.id), t);
      case Failure(CompanionRefused) => ThreeSteps(d, s, first, BurnStep, CrashStep(o.id), t);
      case _ =>
    }
  }

  // ----- which calls succeed, and what they answer -----

  /** The fields of the record that the call names, redactable ones, repeated as they are named. */
  ghost predicate NewlyRedacted(was: Row, requested: seq<Text>, fields: seq<Text>) {
    exists at :: Picks(requested, fields, at)
                 && forall k :: 0 <= k < |requested| ==>
                      (Wanted(Payload(was), RedactedFields(was), requested[k]) <==> k in at)
  }

  lemma NewFieldsAre(was: Row, requested: seq<Text>)
    ensures NewlyRedacted(was, requested, NewFields(was, requested))
  {
    var at := FieldsToRedactInOrder(Payload(was), requested, RedactedFields(was));
  }

  /** The record after a redaction of these fields: they read like the marker, their hashes are those
      of the values they had, and nothing else of the record changed. */
  ghost predicate RedactedAs(d: Digests, was: Row, fields: seq<Text>, now: int, after: Row) {
    && after.id == was.id && after.eventHash == was.eventHash && after.archivedAt == was.archivedAt
    && after.content == WithPayload(was.content, Payload(after))
    && Keys(Payload(after)) == Keys(Payload(was))
    && (forall f :: Lookup(Payload(after), f)
                    == if f in fields then Some(Str(Lit("[REDACTED]"))) else Lookup(Payload(was), f))
    && after.redactedAt == Some(now)
    && (forall f :: f in RedactedFields(after) <==> f in RedactedFields(was) || f in fields)
    && (forall f :: f in StoredHashes(after) <==> f in StoredHashes(was) || f in fields)
    && (forall f :: f in fields ==>
          HasKey(Payload(was), f) && StoredHashes(after)[f] == d.field(Lookup(Payload(was), f).value))
    && (forall f :: f in StoredHashes(was) && f !in fields ==> StoredHashes(after)[f] == StoredHashes(was)[f])
  }

  lemma RedactRowAs(d: Digests, was: Row, fields: seq<Text>, now: int)
    requires forall f :: f in fields ==> HasKey(Payload(was), f)
    ensures RedactedAs(d, was, fields, now, RedactRow(d, was, fields, now))
  {
    var after := RedactRow(d, was, fields, now);
    KeysOverwritten(Payload(was), fields, Str(REDACTED_MARKER));
    forall f
      ensures Lookup(Payload(after), f) == if f in fields then Some(Str(REDACTED_MARKER)) else Lookup(Payload(was), f)
    {
      LookupOverwritten(Payload(was), fields, Str(REDACTED_MARKER), f);
    }
    assert StoredHashes(after) == StoredHashes(was) + FieldHashes(d, Payload(was), fields);
  }

  /** What a successful call answers: the record redacted, the fields newly redacted, the hash of what
      the record holds now, and the companion appended for it, linked to the end of the log. */
  ghost predicate Answered(d: Digests, s: State, o: Order, timestamp: int, was: Row, r: RedactionResult) {
    && was.id == o.id
    && r.newlyRedactedFields != [] && NewlyRedacted(was, o.fields, r.newlyRedactedFields)
    && RedactedAs(d, was, r.newlyRedactedFields, o.now, r.event)
    && r.redactedContentHash == d.content(r.event.content)
    && (var c := r.redactionEvent;
        && CompanionFor(was, o, r.newlyRedactedFields, r.redactedContentHash, c.content.request)
        && c.content.timestamp == timestamp && c.content.previousHash == LinkBefore(s.rows, |s.rows|)
        && c.id == s.nextId && c.eventHash == d.content(c.content)
        && c.archivedAt.None? && c.redactedAt.None? && c.redactedFields.None? && c.redactedFieldHashes.None?)
  }

  lemma NewCompanionRow(d: Digests, s: State, o: Order, i: nat, timestamp: int)
    requires i < |s.rows| && s.rows[i].id == o.id
    ensures var t := FirstHalf(d, s, o, i);
            NewContent(t.rows, CompanionOf(t, o.id), timestamp) == NewContent(s.rows, CompanionOf(t, o.id), timestamp)
  {
  }

  lemma SuccessParts(d: Digests, l: Limits, s: State, o: Order, i: nat, timestamp: int)
    requires Find(s.rows, o.id) == Some(i) && RedactionOutcome(d, l, s, o, timestamp).Success?
    ensures var r := RedactionOutcome(d, l, s, o, timestamp).value;
            var fields := NewFields(s.rows[i], o.fields);
            && fields != [] && r.newlyRedactedFields == fields
            && r.event == RedactRow(d, s.rows[i], fields, o.now)
            && r.redactedContentHash == d.content(r.event.content)
            && r.redactionEvent
               == NewRow(d.content, s.nextId, NewContent(s.rows, CompanionOf(FirstHalf(d, s, o, i), o.id), timestamp))
            && FirstHalf(d, s, o, i).rows[i] == r.event
  {
    NewCompanionRow(d, s, o, i, timestamp);
  }

  lemma AnsweredByParts(d: Digests, s: State, o: Order, timestamp: int, was: Row, r: RedactionResult)
    requires was.id == o.id && r.newlyRedactedFields != [] && r.redactedContentHash == d.content(r.event.content)
    requires NewlyRedacted(was, o.fields, r.newlyRedactedFields)
    requires RedactedAs(d, was, r.newlyRedactedFields, o.now, r.event)
    requires CompanionFor(was, o, r.newlyRedactedFields, r.redactedContentHash, r.redactionEvent.content.request)
    requires r.redactionEvent
             == NewRow(d.content, s.nextId, NewContent(s.rows, r.redactionEvent.content.request, timestamp))
    ensures Answered(d, s, o, timestamp, was, r)
  {
  }

  /** A successful call answers for the record it was asked to redact. */
  lemma SuccessAnswers(d: Digests, l: Limits, s: State, o: Order, i: nat, timestamp: int)
    requires Find(s.rows, o.id) == Some(i) && RedactionOutcome(d, l, s, o, timestamp).Success?
    ensures Answered(d, s, o, timestamp, s.rows[i], RedactionOutcome(d, l, s, o, timestamp).value)
  {
    var was, r := s.rows[i], RedactionOutcome(d, l, s, o, timestamp).value;
    SuccessParts(d, l, s, o, i, timestamp);
    NewFieldsAre(was, o.fields);
    RedactRowAs(d, was, r.newlyRedactedFields, o.now);
    CompanionSays(d, s, o, i);
    AnsweredByParts(d, s, o, timestamp, was, r);
  }

  /** A call fails for want of a record exactly when there is none with its id. */
  lemma NotFoundExactly(d: Digests, l: Limits, s: State, o: Order, timestamp: int)
    ensures RedactionOutcome(d, l, s, o, timestamp) == Failure(EventNotFound(o.id))
            <==> forall i :: 0 <= i < |s.rows| ==> s.rows[i].id != o.id
  {
  }

  lemma OutcomeCases(d: Digests, l: Limits, s: State, o: Order, i: nat, timestamp: int)
    requires Find(s.rows, o.id) == Some(i)
    ensures var r := RedactionOutcome(d, l, s, o, timestamp);
            var companion := CompanionOf(FirstHalf(d, s, o, i), o.id);
            if NewFields(s.rows[i], o.fields) == [] then r == Failure(NoRedactableFields(o.fields))
            else if !Acceptable(l, companion) then r == Failure(InvalidCompanion)
            else if HashTaken(FirstHalf(d, s, o, i).rows, d.content(NewContent(s.rows, companion, timestamp)))
            then r == Failure(CompanionRefused)
            else r.Success?
  {
    NewCompanionRow(d, s, o, i, timestamp);
  }

  /** How a call for the record at position `i` ends: none of the fields is redactable; the companion
      exceeds the limits; the database has its hash already; or else it succeeds. */
  lemma RedactionDecided(d: Digests, l: Limits, s: State, o: Order, i: nat, timestamp: int)
    requires AscendingIds(s.rows) && i < |s.rows| && s.rows[i].id == o.id
    ensures var r := RedactionOutcome(d, l, s, o, timestamp);
            var companion := CompanionOf(FirstHalf(d, s, o, i), o.id);
            var content := Content(companion, timestamp, s.rows[|s.rows| - 1].eventHash);
            if forall f :: f in o.fields ==> !Wanted(Payload(s.rows[i]), RedactedFields(s.rows[i]), f)
            then r == Failure(NoRedactableFields(o.fields))
            else if !Acceptable(l, companion) then r == Failure(InvalidCompanion)
            else if exists j :: 0 <= j < |s.rows| && s.rows[j].eventHash == d.content(content)
            then r == Failure(CompanionRefused)
            else r.Success?
  {
    FindAt(s.rows, i);
    SomeNewField(s.rows[i], o.fields);
    OutcomeCases(d, l, s, o, i, timestamp);
    SameHashesTaken(d, s, o, i, d.content(NewContent(s.rows, CompanionOf(FirstHalf(d, s, o, i), o.id), timestamp)));
  }

  lemma SomeNewField(was: Row, requested: seq<Text>)
    ensures NewFields(was, requested) == []
            <==> forall f :: f in requested ==> !Wanted(Payload(was), RedactedFields(was), f)
  {
    var fields := NewFields(was, requested);
    if f :| f in requested && Wanted(Payload(was), RedactedFields(was), f) {
      assert f in fields;
    }
    assert fields != [] ==> fields[0] in fields;
  }

  lemma SameHashesTaken(d: Digests, s: State, o: Order, i: nat, eventHash: Text)
    requires i < |s.rows| && s.rows[i].id == o.id
    ensures HashTaken(FirstHalf(d, s, o, i).rows, eventHash)
            <==> exists j :: 0 <= j < |s.rows| && s.rows[j].eventHash == eventHash
  {
    var rows := FirstHalf(d, s, o, i).rows;
    assert forall j :: 0 <= j < |rows| ==> rows[j].eventHash == s.rows[j].eventHash;
    if j :| 0 <= j < |s.rows| && s.rows[j].eventHash == eventHash {
      assert rows[j] in rows;
    }
  }

  lemma SuccessShape(d: Digests, l: Limits, s: State, o: Order, timestamp: int) returns (i: nat)
    requires Quiescent(s) && RedactionOutcome(d, l, s, o, timestamp).Success?
    ensures var t := RedactionState(d, l, s, o, timestamp);
            var r := RedactionOutcome(d, l, s, o, timestamp).value;
            && Quiescent(t) && i < |s.rows| && Find(s.rows, o.id) == Some(i)
            && t.rows == s.rows[i := r.event] + [r.redactionEvent]
  {
    i := Find(s.rows, o.id).value;
    var t := FirstHalf(d, s, o, i);
    assert Gap(t) == {o.id};
    assert Gap(SecondCommit(d, t, o.id, timestamp)) == {};
  }

  lemma RedactionReached(d: Digests, l: Limits, steps: seq<Step>, o: Order, timestamp: int)
    requires ValidRun(d, steps) && Unhindered(After(d, steps), o.id)
    ensures Inv(d, RedactionState(d, l, After(d, steps), o, timestamp))
  {
    var more := RedactionSteps(d, l, After(d, steps), o, timestamp);
    RedactionIsARun(d, l, After(d, steps), o, timestamp);
    FollowsExtendsRun(d, steps, more, RedactionState(d, l, After(d, steps), o, timestamp));
    RunKeepsInv(d, steps + more);
  }

  lemma CommittedAndIntact(d: Digests, t: State, i: nat)
    requires Inv(d, t) && Quiescent(t) && i < |t.rows| && t.rows[i].redactedAt.Some?
    ensures VerdictOf(d.content, t.rows) == Report(true, |t.rows|, None)
    ensures Commitment(d.content, t.rows, t.rows[i].id) == Some(Some(d.content(t.rows[i].content)))
  {
    QuiescentIsIntact(d, t);
  }

  /** The log is as it was but for the record, redacted, and the companion at the end, both as
      answered. */
  ghost predicate Stored(d: Digests, s: State, t: State, o: Order, timestamp: int, r: RedactionResult) {
    exists i :: 0 <= i < |s.rows| && t.rows == s.rows[i := r.event] + [r.redactionEvent]
                && Answered(d, s, o, timestamp, s.rows[i], r)
  }

  /** What a successful call leaves: what it answered, no open redaction, a log that verifies with one
      record more, and the redacted content committed to. */
  ghost predicate Settled(d: Digests, s: State, t: State, o: Order, timestamp: int, r: RedactionResult) {
    && Stored(d, s, t, o, timestamp, r)
    && Quiescent(t)
    && VerdictOf(d.content, t.rows) == Report(true, |s.rows| + 1, None)
    && Commitment(d.content, t.rows, o.id) == Some(Some(r.redactedContentHash))
  }

  lemma AnsweredRecord(d: Digests, s: State, o: Order, timestamp: int, was: Row, r: RedactionResult)
    requires Answered(d, s, o, timestamp, was, r)
    ensures r.event.id == o.id && r.event.redactedAt.Some? && r.redactedContentHash == d.content(r.event.content)
  {
  }

  lemma StoredByShape(d: Digests, s: State, t: State, o: Order, timestamp: int, r: RedactionResult, i: nat)
    requires i < |s.rows| && t.rows == s.rows[i := r.event] + [r.redactionEvent]
    requires Answered(d, s, o, timestamp, s.rows[i], r)
    ensures Stored(d, s, t, o, timestamp, r)
  {
  }

  lemma SuccessSettles(d: Digests, l: Limits, s: State, o: Order, timestamp: int)
    requires Quiescent(s) && Inv(d, RedactionState(d, l, s, o, timestamp))
    requires RedactionOutcome(d, l, s, o, timestamp).Success?
    ensures Settled(d, s, RedactionState(d, l, s, o, timestamp), o, timestamp,
                    RedactionOutcome(d, l, s, o, timestamp).value)
  {
    var t, r := RedactionState(d, l, s, o, timestamp), RedactionOutcome(d, l, s, o, timestamp).value;
    var i := SuccessShape(d, l, s, o, timestamp);
    SuccessAnswers(d, l, s, o, i, timestamp);
    AnsweredRecord(d, s, o, timestamp, s.rows[i], r);
    StoredByShape(d, s, t, o, timestamp, r, i);
    CommittedAndIntact(d, t, i);
  }

  /** A redaction that succeeds on a reachable log without open redactions settles it again. */
  lemma SuccessfulRedactionKeepsIntact(d: Digests, l: Limits, steps: seq<Step>, o: Order, timestamp: int)
    requires ValidRun(d, steps) && Quiescent(After(d, steps)) && Unhindered(After(d, steps), o.id)
    requires RedactionOutcome(d, l, After(d, steps), o, timestamp).Success?
    ensures var s := After(d, steps);
            Settled(d, s, RedactionState(d, l, s, o, timestamp), o, timestamp,
                    RedactionOutcome(d, l, s, o, timestamp).value)
  {
    RedactionReached(d, l, steps, o, timestamp);
    SuccessSettles(d, l, After(d, steps), o, timestamp);
  }

  /** A refused call changes nothing; one that fails half-way leaves exactly its record open. */
  lemma FailedRedaction(d: Digests, l: Limits, s: State, o: Order, timestamp: int)
    requires RedactionOutcome(d, l, s, o, timestamp).Failure?
    ensures var t := RedactionState(d, l, s, o, timestamp);
            var error := RedactionOutcome(d, l, s, o, timestamp).error;
            && (error.EventNotFound? ==> t == s && forall i :: 0 <= i < |s.rows| ==> s.rows[i].id != o.id)
            && (error.NoRedactableFields? ==> t == s)
            && (error.InvalidCompanion? || error.CompanionRefused? ==> Gap(t) == Gap(s) + {o.id} && t.keys == s.keys)
  {
  }

  /** What verification says after a call that failed half-way. */
  lemma HalfwayRedactionVerdict(d: Digests, l: Limits, steps: seq<Step>, o: Order, timestamp: int)
    requires ValidRun(d, steps) && Quiescent(After(d, steps)) && Redactable(After(d, steps), o.id, o.fields)
    requires RedactionOutcome(d, l, After(d, steps), o, timestamp).Failure?
    requires var s := After(d, steps);
             var i := Find(s.rows, o.id).value;
             s.rows[i].redactedAt.Some? ==>
               Exact(d.content, s.rows[i].content, FirstHalf(d, s, o, i).rows[i].content)
    ensures var s := After(d, steps);
            var i := Find(s.rows, o.id).value;
            VerdictOf(d.content, RedactionState(d, l, s, o, timestamp).rows)
            == GapReport(s.rows, i, NewFields(s.rows[i], o.fields))
  {
    var s := After(d, steps);
    var i := Find(s.rows, o.id).value;
    RunKeepsInv(d, steps);
    RunBooks(d, steps);
    assert Books(d, s.rows[i], s.origin[i].request.payload);
    SameKeyLists(Payload(s.rows[i]), s.origin[i].request.payload);
    GapIsVisible(d, s, i, NewFields(s.rows[i], o.fields), o.actorId, o.reason, o.now);
    HalfwayRows(d, l, s, o, timestamp);
  }

  lemma HalfwayRows(d: Digests, l: Limits, s: State, o: Order, timestamp: int)
    requires Redactable(s, o.id, o.fields) && RedactionOutcome(d, l, s, o, timestamp).Failure?
    ensures RedactionState(d, l, s, o, timestamp).rows == FirstHalf(d, s, o, Find(s.rows, o.id).value).rows
  {
  }

  /** `redact_event_fields`, with the clock reading of its companion append. */
  method RedactEventFields(db: Session, d: Digests, l: Limits, o: Order, timestamp: int, ghost s: State)
    returns (r: Result<RedactionResult, RedactionError>)
    requires db.Holds(s)
    modifies db
    ensures db.Holds(RedactionState(d, l, s, o, timestamp))
    ensures r == RedactionOutcome(d, l, s, o, timestamp)
  {
    var found := Find(db.rows, o.id);
    if found.None? {
      return Failure(EventNotFound(o.id));
    }
    var i := found.value;
    var event := db.rows[i];
    var already := event.redactedFields.GetOr([]);
    var fields := FieldsToRedact(Payload(event), o.fields, already);
    if fields == [] {
      return Failure(NoRedactableFields(o.fields));
    }
    var newHashes := FieldHashes(d, Payload(event), fields);
    var newPayload := Payload(event);
    for k := 0 to |fields|
      invariant newPayload == Tombstoned(Payload(event), fields[..k])
    {
      newPayload := Put(newPayload, fields[k], Str(REDACTED_MARKER));
      assert fields[..k + 1][..k] == fields[..k];
    }
    assert fields[..|fields|] == fields;
    var contentHash := d.content(WithPayload(event.content, newPayload));
    var updated := db.RedactEventFields(i, newPayload, SortUnique(already + fields),
                                        event.redactedFieldHashes.GetOr(map[]) + newHashes, o.now);
    ghost var t := FirstHalf(d, s, o, i);
    assert db.Holds(t);
    var approval := Approval(event.content.request.tenantId, o.actorId, o.reason, fields, contentHash);
    var companion := CompanionRequest(o.id, approval);
    assert companion == CompanionOf(t, o.id);
    if !Acceptable(l, companion) {
      return Failure(InvalidCompanion);
    }
    var appended := CreateAuditEvent(db, d, Call(companion, None), timestamp, t);
    if appended.Failure? {
      return Failure(CompanionRefused);
    }
    return Success(RedactionResult(updated, fields, contentHash, appended.value));
  }
}
