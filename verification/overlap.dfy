/** Several redactions of one record at a time. Reading a record and writing it back are not one
    transaction (app/services/redaction_service.py:74-112), and nothing keeps two requests from
    both reading before either writes. The runs of `System` leave that out; here any number of
    requests that read the same version of a record write it and append their companions in any
    order, with other clients' steps in between. */
module Overlap {
  import opened Texts
  import opened Jsons
  import opened Wrappers
  import opened AuditLog
  import opened ChainVerification
  import opened Hashing
  import opened System
  import opened Invariants
  import opened Frames
  import opened Redaction

  /** One of the requests. */
  datatype Redactor = Redactor(fields: seq<Text>, actorId: Text, reason: Option<Text>, now: int)

  /** It found something to redact in row `i` when it read it in state `s`. */
  ghost predicate MayRedact(s: State, i: nat, r: Redactor) {
    && i < |s.rows| && r.fields != []
    && (forall f :: f in r.fields ==> HasKey(Payload(s.rows[i]), f) && f !in RedactedFields(s.rows[i]))
  }

  /** The row as it means to leave it. */
  function Written(d: Digests, s: State, i: nat, r: Redactor): Row
    requires i < |s.rows| && forall f :: f in r.fields ==> HasKey(Payload(s.rows[i]), f)
  {
    RedactRow(d, s.rows[i], r.fields, r.now)
  }

  function ApprovalOf(d: Digests, s: State, i: nat, r: Redactor): Approval
    requires i < |s.rows| && forall f :: f in r.fields ==> HasKey(Payload(s.rows[i]), f)
  {
    var row := Written(d, s, i, r);
    Approval(row.content.request.tenantId, r.actorId, r.reason, r.fields, d.content(row.content))
  }

  // ----- the moves -----

  /** A step of some other client, a request's write, or the append of its companion. A companion
      the unique constraint refuses is a lost id, and so some other step. */
  datatype Move = Other(step: Step) | Write(r: Redactor) | Announce(r: Redactor, timestamp: int)

  /** The four columns of a write, computed from what was read, go over what is there now. */
  function Overwrite(row: Row, written: Row): Row {
    row.(content := WithPayload(row.content, Payload(written)), redactedAt := written.redactedAt,
         redactedFields := written.redactedFields, redactedFieldHashes := written.redactedFieldHashes)
  }

  function AfterWrite(s: State, i: nat, written: Row): State
    requires i < |s.rows|
  {
    s.(rows := s.rows[i := Overwrite(s.rows[i], written)], stuck := s.stuck + {s.rows[i].id})
  }

  /** The requests read row `i` in state `s`; a companion follows its own request's write. */
  ghost predicate Legal(d: Digests, s: State, i: nat, moves: seq<Move>)
    decreases |moves|, 0
  {
    && i < |s.rows|
    && (moves == [] ||
        (var front := moves[..|moves| - 1];
         Legal(d, s, i, front) && MayMove(d, s, i, front, AfterMoves(d, s, i, front), moves[|moves| - 1])))
  }

  ghost predicate MayMove(d: Digests, s: State, i: nat, front: seq<Move>, t: State, move: Move)
    requires i < |s.rows|
  {
    match move
    case Other(step) => Enabled(d, t, step) && Leaves(step, s.rows[i].id)
    case Write(r) => MayRedact(s, i, r) && i < |t.rows|
    case Announce(r, timestamp) =>
      && MayRedact(s, i, r) && Write(r) in front
      && !HashTaken(t.rows, d.content(NewContent(t.rows, CompanionRequest(s.rows[i].id, ApprovalOf(d, s, i, r)), timestamp)))
  }

  ghost function Moved(d: Digests, s: State, i: nat, front: seq<Move>, t: State, move: Move): State
    requires i < |s.rows| && MayMove(d, s, i, front, t, move)
  {
    match move
    case Other(step) => Apply(d, t, step)
    case Write(r) => AfterWrite(t, i, Written(d, s, i, r))
    case Announce(r, timestamp) => Append(d, t, CompanionRequest(s.rows[i].id, ApprovalOf(d, s, i, r)), timestamp)
  }

  ghost function AfterMoves(d: Digests, s: State, i: nat, moves: seq<Move>): State
    requires Legal(d, s, i, moves)
    decreases |moves|, 1
  {
    if moves == [] then s
    else
      var front := moves[..|moves| - 1];
      Moved(d, s, i, front, AfterMoves(d, s, i, front), moves[|moves| - 1])
  }

  /** The request that wrote last, and the one whose companion came last. */
  function LastWriter(moves: seq<Move>): Option<Redactor> {
    if moves == [] then None
    else
      match moves[|moves| - 1]
      case Write(r) => Some(r)
      case _ => LastWriter(moves[..|moves| - 1])
  }

  function LastAnnouncer(moves: seq<Move>): Option<Redactor> {
    if moves == [] then None
    else
      match moves[|moves| - 1]
      case Announce(r, _) => Some(r)
      case _ => LastAnnouncer(moves[..|moves| - 1])
  }

  // ----- what every move keeps -----

  lemma WriteTouches(d: Digests, s: State, i: nat, written: Row, id: int)
    requires i < |s.rows| && EventType(s.rows[i]) != REDACTION_EVENT_TYPE && written.redactedAt.Some?
    ensures AllTouched(s.rows, AfterWrite(s, i, written).rows)
    ensures Commitment(d.content, AfterWrite(s, i, written).rows, id) == Commitment(d.content, s.rows, id)
  {
    TouchedKeepsCommitment(d.content, s.rows, AfterWrite(s, i, written).rows, id);
  }

  lemma WriteKeepsCommitted(d: Digests, s: State, i: nat, written: Row)
    requires Inv(d, s) && i < |s.rows| && EventType(s.rows[i]) != REDACTION_EVENT_TYPE && written.redactedAt.Some?
    ensures var t := AfterWrite(s, i, written);
            Committed(d.content, t.rows, Gap(t))
  {
    var t := AfterWrite(s, i, written);
    forall j | 0 <= j < |t.rows| && t.rows[j].redactedAt.Some? && t.rows[j].id !in Gap(t)
      ensures Commitment(d.content, t.rows, t.rows[j].id) == Some(Some(d.content(t.rows[j].content)))
    {
      assert t.rows[j] == s.rows[j];
      WriteTouches(d, s, i, written, t.rows[j].id);
    }
  }

  /** A write of payload and redaction columns puts its row in the gap and touches no other. */
  lemma WriteKeepsInv(d: Digests, s: State, i: nat, written: Row)
    requires Inv(d, s) && i < |s.rows| && s.rows[i].id !in s.live
    requires EventType(s.rows[i]) != REDACTION_EVENT_TYPE && written.redactedAt.Some?
    ensures var t := AfterWrite(s, i, written);
            Inv(d, t) && Gap(t) == Gap(s) + {s.rows[i].id}
  {
    var t := AfterWrite(s, i, written);
    WriteTouches(d, s, i, written, s.rows[i].id);
    TouchedKeepsChain(d, s.rows, t.rows, s.origin, s.nextId);
    TouchedKeepsCompanions(s.rows, t.rows);
    WriteKeepsCommitted(d, s, i, written);
    forall x | x in Gap(t)
      ensures InGap(t.rows, x)
    {
      if x == s.rows[i].id {
        assert t.rows[i].id == x;
      } else {
        TouchedKeepsGap(s.rows, t.rows, x);
      }
    }
  }

  lemma NewCompanionGood(d: Digests, s: State, id: int, a: Approval, timestamp: int)
    requires Inv(d, s) && id in Gap(s)
    ensures GoodCompanion(Append(d, s, CompanionRequest(id, a), timestamp).rows, |s.rows|)
  {
    var t := Append(d, s, CompanionRequest(id, a), timestamp);
    CompanionDeclares(id, a);
    var target := LiveRow(d, s, id);
    assert t.rows[target] == s.rows[target];
  }

  /** A companion for a row in the gap, whatever it commits to, leaves every other row alone. */
  lemma CompanionAppendKeepsInv(d: Digests, s: State, id: int, a: Approval, timestamp: int)
    requires Inv(d, s) && id in Gap(s)
    ensures var t := Append(d, s, CompanionRequest(id, a), timestamp);
            && Inv(d, t) && Gap(t) == Gap(s)
            && Commitment(d.content, t.rows, id) == Some(Some(a.contentHash))
  {
    var t := Append(d, s, CompanionRequest(id, a), timestamp);
    var r := t.rows[|s.rows|];
    assert t.rows == s.rows + [r];
    AppendKeepsChain(d, s, CompanionRequest(id, a), timestamp);
    NewCompanionGood(d, s, id, a, timestamp);
    AppendKeepsCompanions(s.rows, r);
    CompanionDeclares(id, a);
    CommitmentAppend(d.content, s.rows, r, id);
    forall j | 0 <= j < |t.rows| && t.rows[j].redactedAt.Some? && t.rows[j].id !in Gap(t)
      ensures Commitment(d.content, t.rows, t.rows[j].id) == Some(Some(d.content(t.rows[j].content)))
    {
      assert t.rows[j] == s.rows[j];
      CommitmentAppend(d.content, s.rows, r, t.rows[j].id);
    }
    forall x | x in Gap(t)
      ensures InGap(t.rows, x)
    {
      AppendKeepsGap(s.rows, r, x);
    }
    NewIdNotInGap(d, s);
  }

  /** What the last companion commits the record to. */
  function AnnouncedHash(d: Digests, s: State, i: nat, last: Option<Redactor>): Option<Option<Text>>
    requires i < |s.rows|
    requires last.Some? ==> forall f :: f in last.value.fields ==> HasKey(Payload(s.rows[i]), f)
  {
    if last.Some? then Some(Some(d.content(Written(d, s, i, last.value).content)))
    else Commitment(d.content, s.rows, s.rows[i].id)
  }

  /** What the writes so far have made of the record. */
  ghost predicate RowTracked(d: Digests, s: State, i: nat, writer: Option<Redactor>, t: State)
    requires i < |s.rows|
  {
    var id := s.rows[i].id;
    && i < |t.rows| && t.rows[i].id == id && id !in t.live
    && EventType(t.rows[i]) != REDACTION_EVENT_TYPE
    && t.rows[i].content == WithPayload(s.rows[i].content, Payload(t.rows[i]))
    && (writer.None? ==> t.rows[i] == s.rows[i].(archivedAt := t.rows[i].archivedAt))
    && (writer.Some? ==>
          && id in t.stuck
          && MayRedact(s, i, writer.value)
          && t.rows[i] == Overwrite(t.rows[i], Written(d, s, i, writer.value))
          && t.rows[i].content == Written(d, s, i, writer.value).content)
  }

  /** Who may have written and announced so far. */
  ghost predicate MovesOk(s: State, i: nat, moves: seq<Move>) {
    && (LastAnnouncer(moves).Some? ==> LastWriter(moves).Some? && MayRedact(s, i, LastAnnouncer(moves).value))
    && (forall r :: Write(r) in moves ==> LastWriter(moves).Some?)
  }

  /** What the moves so far have made of the record and its commitment. */
  ghost predicate Tracked(d: Digests, s: State, i: nat, moves: seq<Move>, t: State)
    requires i < |s.rows|
  {
    && Inv(d, t)
    && RowTracked(d, s, i, LastWriter(moves), t)
    && MovesOk(s, i, moves)
    && Commitment(d.content, t.rows, s.rows[i].id) == AnnouncedHash(d, s, i, LastAnnouncer(moves))
  }

  lemma OtherTracked(d: Digests, s: State, i: nat, front: seq<Move>, t: State, step: Step)
    requires i < |s.rows| && Tracked(d, s, i, front, t) && MayMove(d, s, i, front, t, Other(step))
    ensures Tracked(d, s, i, front + [Other(step)], Apply(d, t, step))
  {
    OtherOk(s, i, front, step);
    OtherRowTracked(d, s, i, LastWriter(front), t, step);
    StepKeepsInv(d, t, step);
    StepCommitment(d, t, step, s.rows[i].id);
  }

  lemma OtherOk(s: State, i: nat, front: seq<Move>, step: Step)
    requires MovesOk(s, i, front)
    ensures var moves := front + [Other(step)];
            && MovesOk(s, i, moves)
            && LastWriter(moves) == LastWriter(front) && LastAnnouncer(moves) == LastAnnouncer(front)
  {
    assert (front + [Other(step)])[..|front|] == front;
  }

  lemma OtherRowTracked(d: Digests, s: State, i: nat, writer: Option<Redactor>, t: State, step: Step)
    requires i < |s.rows| && Inv(d, t) && RowTracked(d, s, i, writer, t)
    requires Enabled(d, t, step) && Leaves(step, s.rows[i].id)
    ensures RowTracked(d, s, i, writer, Apply(d, t, step))
  {
    StepRow(d, t, step, i);
    StepGap(d, t, step, s.rows[i].id);
  }

  lemma WriteTracked(d: Digests, s: State, i: nat, front: seq<Move>, t: State, r: Redactor)
    requires i < |s.rows| && Tracked(d, s, i, front, t) && MayMove(d, s, i, front, t, Write(r))
    ensures Tracked(d, s, i, front + [Write(r)], AfterWrite(t, i, Written(d, s, i, r)))
  {
    var moves := front + [Write(r)];
    assert moves[..|front|] == front;
    WriteKeepsInv(d, t, i, Written(d, s, i, r));
    WriteTouches(d, t, i, Written(d, s, i, r), s.rows[i].id);
  }

  lemma RowAfterAppend(d: Digests, s: State, i: nat, writer: Option<Redactor>, t: State, request: Request, timestamp: int)
    requires i < |s.rows| && RowTracked(d, s, i, writer, t)
    ensures RowTracked(d, s, i, writer, Append(d, t, request, timestamp))
  {
    assert Append(d, t, request, timestamp).rows[i] == t.rows[i];
  }

  lemma AnnounceOk(s: State, i: nat, front: seq<Move>, r: Redactor, timestamp: int)
    requires MovesOk(s, i, front) && MayRedact(s, i, r) && Write(r) in front
    ensures var moves := front + [Announce(r, timestamp)];
            && MovesOk(s, i, moves)
            && LastWriter(moves) == LastWriter(front) && LastAnnouncer(moves) == Some(r)
  {
    assert (front + [Announce(r, timestamp)])[..|front|] == front;
  }

  lemma AnnounceTracked(d: Digests, s: State, i: nat, front: seq<Move>, t: State, r: Redactor, timestamp: int)
    requires i < |s.rows| && Tracked(d, s, i, front, t) && MayMove(d, s, i, front, t, Announce(r, timestamp))
    ensures Tracked(d, s, i, front + [Announce(r, timestamp)],
                    Append(d, t, CompanionRequest(s.rows[i].id, ApprovalOf(d, s, i, r)), timestamp))
  {
    var a := ApprovalOf(d, s, i, r);
    AnnounceOk(s, i, front, r, timestamp);
    RowAfterAppend(d, s, i, LastWriter(front), t, CompanionRequest(s.rows[i].id, a), timestamp);
    CompanionAppendKeepsInv(d, t, s.rows[i].id, a, timestamp);
  }

  lemma {:induction false} MovesTracked(d: Digests, s: State, i: nat, moves: seq<Move>)
    requires Inv(d, s) && Legal(d, s, i, moves) && s.rows[i].id !in Gap(s)
    requires EventType(s.rows[i]) != REDACTION_EVENT_TYPE
    ensures Tracked(d, s, i, moves, AfterMoves(d, s, i, moves))
  {
    if moves != [] {
      var front, move := moves[..|moves| - 1], moves[|moves| - 1];
      var t := AfterMoves(d, s, i, front);
      MovesTracked(d, s, i, front);
      assert moves == front + [move];
      match move {
        case Other(step) => OtherTracked(d, s, i, front, t, step);
        case Write(r) => WriteTracked(d, s, i, front, t, r);
        case Announce(r, timestamp) => AnnounceTracked(d, s, i, front, t, r, timestamp);
      }
    }
  }

  // ----- what verification says -----

  /** When one row alone is in the gap, the verdict hangs on its commitment. */
  lemma GapRowDecides(d: Digests, t: State, i: nat, hash: Text)
    requires Inv(d, t) && i < |t.rows| && t.rows[i].redactedAt.Some? && Gap(t) == {t.rows[i].id}
    requires Commitment(d.content, t.rows, t.rows[i].id) == Some(Some(hash))
    ensures VerdictOf(d.content, t.rows) ==
              if hash == d.content(t.rows[i].content) then Report(true, |t.rows|, None)
              else Report(false, i + 1, Some(Violation(t.rows[i].id, RedactedContentMismatch)))
  {
    NothingPoisoned(d, t);
    AuthenticMeansCommitted(d.content, t.rows, i);
    RowStatus(d.content, t.rows, i);
    forall j | 0 <= j < |t.rows|
      ensures Linked(t.rows, j) && (j != i ==> Passes(d.content, t.rows, j))
    {
      OnlyGapRowsFail(d, t, j);
    }
    OneSuspect(d.content, t.rows, i);
  }

  /** Any number of requests that read the same version of a record, any order of their writes and
      companions, any steps of others in between: once a companion is there, the record passes if
      and only if what was last announced has the hash of what was last written, as when they are
      the same request's; and if no other redaction is open, that decides the verdict. */
  lemma OverlapVerdict(d: Digests, steps: seq<Step>, i: nat, moves: seq<Move>)
    requires ValidRun(d, steps) && Legal(d, After(d, steps), i, moves)
    requires After(d, steps).rows[i].id !in Gap(After(d, steps))
    requires EventType(After(d, steps).rows[i]) != REDACTION_EVENT_TYPE
    requires LastAnnouncer(moves).Some?
    ensures var s := After(d, steps);
            var t := AfterMoves(d, s, i, moves);
            && i < |t.rows| && LastWriter(moves).Some?
            && MayRedact(s, i, LastWriter(moves).value) && MayRedact(s, i, LastAnnouncer(moves).value)
            && var same := d.content(Written(d, s, i, LastAnnouncer(moves).value).content)
                           == d.content(Written(d, s, i, LastWriter(moves).value).content);
               && (Passes(d.content, t.rows, i) <==> same)
               && (Gap(t) == {s.rows[i].id} ==>
                     VerdictOf(d.content, t.rows) ==
                       if same then Report(true, |t.rows|, None)
                       else Report(false, i + 1, Some(Violation(s.rows[i].id, RedactedContentMismatch))))
  {
    var s := After(d, steps);
    var t := AfterMoves(d, s, i, moves);
    RunKeepsInv(d, steps);
    MovesTracked(d, s, i, moves);
    OnlyGapRowsFail(d, t, i);
    AuthenticMeansCommitted(d.content, t.rows, i);
    if Gap(t) == {s.rows[i].id} {
      GapRowDecides(d, t, i, d.content(Written(d, s, i, LastAnnouncer(moves).value).content));
    }
  }

  /** Either way a field the last writer did not redact holds its original value, and the row does
      not list it, whatever other requests wrote and announced. */
  lemma EarlierRedactionLost(d: Digests, steps: seq<Step>, i: nat, moves: seq<Move>, earlier: Redactor, f: Text)
    requires ValidRun(d, steps) && Legal(d, After(d, steps), i, moves)
    requires After(d, steps).rows[i].id !in Gap(After(d, steps))
    requires EventType(After(d, steps).rows[i]) != REDACTION_EVENT_TYPE
    requires MayRedact(After(d, steps), i, earlier) && f in earlier.fields
    requires LastWriter(moves).Some? && f !in LastWriter(moves).value.fields
    ensures |After(d, steps).origin| == |After(d, steps).rows| && i < |AfterMoves(d, After(d, steps), i, moves).rows|
    ensures var s := After(d, steps);
            var row := AfterMoves(d, s, i, moves).rows[i];
            && Lookup(Payload(row), f) == Lookup(s.origin[i].request.payload, f)
            && f !in RedactedFields(row)
            && f in ApprovalOf(d, s, i, earlier).fields
  {
    var s := After(d, steps);
    RunKeepsInv(d, steps);
    RunBooks(d, steps);
    assert Books(d, s.rows[i], s.origin[i].request.payload);
    MovesTracked(d, s, i, moves);
    LookupOverwritten(Payload(s.rows[i]), LastWriter(moves).value.fields, Str(REDACTED_MARKER), f);
    SortUniqueUnion(RedactedFields(s.rows[i]), LastWriter(moves).value.fields);
  }
}
