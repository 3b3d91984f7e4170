/** Short runs that reach the cases in which a documented property fails. */
module Witnesses {
  import opened Texts
  import opened Jsons
  import opened Wrappers
  import opened AuditLog
  import opened ChainVerification
  import opened Hashing
  import opened System
  import opened Invariants
  import opened Dependence
  import opened Tampering
  import opened Redaction
  import opened Disclosure
  import opened Refinement
  import opened Companions
  import opened Overlap
  import opened Unfinished
  import opened ExportService

  const A: Text := Lit("a")

  const B: Text := Lit("b")

  /** `{"a": 1, "b": 2}`. */
  function Sample(): Dict {
    [Member(A, Num(1)), Member(B, Num(2))]
  }

  function SampleRequest(): Request {
    Request(Lit("tenant"), Lit("LOGIN"), Lit("user"), Lit("DOC"), Lit("7"), Sample())
  }

  lemma SampleShape()
    ensures DistinctKeys(Sample()) && HasKey(Sample(), A) && HasKey(Sample(), B) && A != B
    ensures SampleRequest().eventType != REDACTION_EVENT_TYPE
  {
    assert A[0] != B[0];
    assert Sample()[0].key == A && Sample()[1].key == B;
    assert |Lit("LOGIN")| == 5 && |REDACTION_EVENT_TYPE| == 20;
  }

  // ----- one event -----

  function OneEvent(): seq<Step> {
    [SubmitStep(Call(SampleRequest(), None), 0)]
  }

  /** The row an append to the empty log leaves. */
  function FirstRow(d: Digests): Row {
    NewRow(d.content, 1, Content(SampleRequest(), 0, GENESIS_HASH))
  }

  lemma FirstAppend(d: Digests, request: Request)
    ensures var content := Content(request, 0, GENESIS_HASH);
            var t := Submit(d, INIT, Call(request, None), 0);
            && t.rows == [NewRow(d.content, 1, content)] && t.origin == [content] && t.nextId == 2
            && t.live == map[] && t.stuck == {}
  {
    assert NewContent([], request, 0) == Content(request, 0, GENESIS_HASH);
    assert !HashTaken([], d.content(Content(request, 0, GENESIS_HASH)));
  }

  lemma OneEventRun(d: Digests)
    ensures ValidRun(d, OneEvent()) && Quiescent(After(d, OneEvent()))
    ensures After(d, OneEvent()).rows == [FirstRow(d)] && After(d, OneEvent()).nextId == 2
    ensures |After(d, OneEvent()).origin| == 1 && After(d, OneEvent()).origin[0] == FirstRow(d).content
    ensures After(d, OneEvent()).live == map[] && After(d, OneEvent()).stuck == {}
  {
    SampleShape();
    FirstAppend(d, SampleRequest());
    FirstStep(d, SubmitStep(Call(SampleRequest(), None), 0));
  }

  lemma FirstStep(d: Digests, step: Step)
    requires Enabled(d, INIT, step)
    ensures ValidRun(d, [step]) && After(d, [step]) == Apply(d, INIT, step)
  {
    assert [] + [step] == [step];
    ExtendRun(d, [], step);
  }

  // ----- redacted half-way -----

  function HalfRedacted(): seq<Step> {
    OneEvent() + [RedactStep(1, [A], Lit("admin"), None, 1)]
  }

  lemma FieldALeft(r: Row)
    requires Payload(r) == Sample() && r.redactedFields.None?
    ensures NewFields(r, [A]) == [A]
  {
    SampleShape();
    assert [A][1..] == [];
    assert FieldsToRedact(Payload(r), [], []) == [];
  }

  lemma HalfRedactedRun(d: Digests)
    ensures ValidRun(d, HalfRedacted())
    ensures var s, t := After(d, OneEvent()), After(d, HalfRedacted());
            && ValidRun(d, OneEvent()) && s.rows == [FirstRow(d)]
            && HasKey(Payload(s.rows[0]), A)
            && t == FirstCommit(d, s, 0, [A], Lit("admin"), None, 1)
            && t.origin == s.origin && |t.rows| == 1
  {
    OneEventRun(d);
    SampleShape();
    var s := After(d, OneEvent());
    FindAt(s.rows, 0);
    FieldALeft(s.rows[0]);
    ExtendRun(d, OneEvent(), RedactStep(1, [A], Lit("admin"), None, 1));
  }

  /** Whatever the hash, verification faults a first redaction between its two commits. */
  lemma GapShown(d: Digests)
    ensures ValidRun(d, HalfRedacted())
    ensures VerdictOf(d.content, After(d, HalfRedacted()).rows)
            == Report(false, 1, Some(Violation(1, RedactionCommitmentMissing)))
  {
    HalfRedactedRun(d);
    OneEventRun(d);
    SampleShape();
    RunKeepsInv(d, OneEvent());
    GapIsVisible(d, After(d, OneEvent()), 0, [A], Lit("admin"), None, 1);
  }

  /** A redacted record that fails the recipient's per-record check. */
  lemma ExportShown(env: Env)
    requires FaithfulClock(env)
    requires var d := ServiceDigests(env);
             CollisionFree(env.sha256, {EventPreimage(env, FirstRow(d).content),
                                        EventPreimage(env, WithPayload(FirstRow(d).content, Tombstoned(Sample(), [A])))})
    ensures var d := ServiceDigests(env);
            && ValidRun(d, HalfRedacted()) && |After(d, HalfRedacted()).rows| == 1
            && !RecordPasses(env, After(d, HalfRedacted()).rows[0])
  {
    var d := ServiceDigests(env);
    HalfRedactedRun(d);
    OneEventRun(d);
    SampleShape();
    var t := After(d, HalfRedacted());
    SampleClean(d);
    RedactedRecordPasses(env, HalfRedacted(), 0);
    ListsA(d, t.rows[0]);
    LookupAt(Sample(), 0);
    assert !AlreadyMarked(Sample(), RedactedFields(t.rows[0]));
  }

  lemma SampleClean(d: Digests)
    ensures CleanContent(FirstRow(d).content)
  {
  }

  lemma ListsA(d: Digests, r: Row)
    requires HasKey(Sample(), A) && r == RedactRow(d, FirstRow(d), [A], 1)
    ensures A in RedactedFields(r)
  {
    assert A in [A];
  }

  // ----- redacted, and its companion redacted too -----

  function Redacted(): seq<Step> {
    HalfRedacted() + [CompleteStep(1, 2)]
  }

  /** The content of the companion. */
  function CompanionContent(d: Digests): Content {
    var row := WithPayload(FirstRow(d).content, Tombstoned(Sample(), [A]));
    var a := Approval(SampleRequest().tenantId, Lit("admin"), None, [A], d.content(row));
    Content(CompanionRequest(1, a), 2, FirstRow(d).eventHash)
  }

  /** The state after the second commit, if the companion's hash is new. */
  lemma RedactedRun(d: Digests)
    requires d.content(CompanionContent(d)) != d.content(FirstRow(d).content)
    ensures ValidRun(d, Redacted()) && Quiescent(After(d, Redacted()))
    ensures var rows := After(d, Redacted()).rows;
            && HasKey(Sample(), A) && |rows| == 2 && rows[0] == RedactRow(d, FirstRow(d), [A], 1)
            && rows[1] == NewRow(d.content, 2, CompanionContent(d))
            && EventType(rows[1]) == REDACTION_EVENT_TYPE && EventType(rows[0]) != REDACTION_EVENT_TYPE
            && DeclaredBy(Payload(rows[1])) ==
               Names(1, Some(d.content(WithPayload(FirstRow(d).content, Tombstoned(Sample(), [A])))))
            && After(d, Redacted()).nextId == 3
  {
    HalfRedactedRun(d);
    OneEventRun(d);
    SampleShape();
    var t := After(d, HalfRedacted());
    assert t.live == map[][1 := t.live[1]] && t.nextId == 2;
    assert NewContent(t.rows, CompanionRequest(1, t.live[1]), 2) == CompanionContent(d);
    ExtendRun(d, HalfRedacted(), CompleteStep(1, 2));
    CompanionDeclares(1, t.live[1]);
  }

  function ListedFields(): seq<Text> {
    [Lit("redactedFields")]
  }

  /** Redacting the only companion of a record takes its commitment away. */
  lemma CompanionLossShown(d: Digests)
    requires d.content(CompanionContent(d)) != d.content(FirstRow(d).content)
    requires var c := CompanionContent(d);
             Exact(d.content, c, WithPayload(c, Tombstoned(c.request.payload, ListedFields())))
    ensures ValidRun(d, Redacted())
    ensures var s := After(d, Redacted());
            && |s.rows| == 2 && (forall f :: f in ListedFields() ==> HasKey(Payload(s.rows[1]), f))
            && var t := SecondCommit(d, FirstCommit(d, s, 1, ListedFields(), Lit("admin"), None, 3), s.rows[1].id, 4);
               VerdictOf(d.content, t.rows) == Report(false, 1, Some(Violation(1, RedactionCommitmentMissing)))
  {
    RedactedRun(d);
    RunKeepsInv(d, Redacted());
    CompanionListsFields(d);
    CompanionLoss(d, After(d, Redacted()), ListedFields());
  }

  lemma CompanionLoss(d: Digests, s: State, fields: seq<Text>)
    requires Inv(d, s) && Quiescent(s) && |s.rows| == 2 && s.rows[0].id == 1
    requires EventType(s.rows[1]) == REDACTION_EVENT_TYPE && EventType(s.rows[0]) != REDACTION_EVENT_TYPE
    requires DistinctKeys(Payload(s.rows[1])) && forall f :: f in fields ==> HasKey(Payload(s.rows[1]), f)
    requires !AlreadyMarked(Payload(s.rows[1]), fields)
    requires Exact(d.content, s.rows[1].content, WithPayload(s.rows[1].content, Tombstoned(Payload(s.rows[1]), fields)))
    ensures var t := SecondCommit(d, FirstCommit(d, s, 1, fields, Lit("admin"), None, 3), s.rows[1].id, 4);
            VerdictOf(d.content, t.rows) == Report(false, 1, Some(Violation(1, RedactionCommitmentMissing)))
  {
    var t := ReachableTarget(d, s, 1);
    QuiescentIsIntact(d, s);
    IntactMeansReported(d.content, s.rows);
    CompanionRedactionVerdict(d, s, 1, fields, Lit("admin"), None, 3, 4);
    OnlyCompanionMatters(d, s, 1, 0);
  }

  /** A companion's list of fields is there, and does not read like the marker. */
  lemma ListField(id: int, a: Approval)
    ensures var payload := CompanionPayload(id, a);
            && DistinctKeys(payload) && HasKey(payload, Lit("redactedFields"))
            && !AlreadyMarked(payload, [Lit("redactedFields")])
  {
    var payload := CompanionPayload(id, a);
    CompanionKeysDistinct(id, a);
    LookupAt(payload, 1);
    assert Lit("redactedFields") in [Lit("redactedFields")];
  }

  lemma CompanionListsFields(d: Digests)
    ensures var payload := CompanionContent(d).request.payload;
            && DistinctKeys(payload) && (forall f :: f in ListedFields() ==> HasKey(payload, f))
            && !AlreadyMarked(payload, ListedFields())
  {
    var row := WithPayload(FirstRow(d).content, Tombstoned(Sample(), [A]));
    ListField(1, Approval(SampleRequest().tenantId, Lit("admin"), None, [A], d.content(row)));
  }

  // ----- redacted twice, and the later companion edited -----

  function Twice(): seq<Step> {
    Redacted() + [RedactStep(1, [B], Lit("admin"), None, 3)] + [CompleteStep(1, 4)]
  }

  /** The record's content after the second redaction, and that of its second companion. */
  function TwiceContent(d: Digests): Content {
    WithPayload(FirstRow(d).content, Tombstoned(Tombstoned(Sample(), [A]), [B]))
  }

  function SecondCompanionContent(d: Digests): Content {
    var a := Approval(SampleRequest().tenantId, Lit("admin"), None, [B], d.content(TwiceContent(d)));
    Content(CompanionRequest(1, a), 4, d.content(CompanionContent(d)))
  }

  lemma FieldBLeft(d: Digests)
    ensures HasKey(Sample(), A)
    ensures var r := RedactRow(d, FirstRow(d), [A], 1);
            HasKey(Payload(r), B) && NewFields(r, [B]) == [B]
  {
    SampleShape();
    var r := RedactRow(d, FirstRow(d), [A], 1);
    LookupOverwritten(Sample(), [A], Str(REDACTED_MARKER), B);
    assert B !in RedactedFields(r);
    assert [B][1..] == [];
    assert FieldsToRedact(Payload(r), [], RedactedFields(r)) == [];
  }

  /** The hashes of the two companions are new when they are appended. */
  predicate NewHashes(d: Digests) {
    && d.content(CompanionContent(d)) != d.content(FirstRow(d).content)
    && d.content(SecondCompanionContent(d)) != d.content(FirstRow(d).content)
    && d.content(SecondCompanionContent(d)) != d.content(CompanionContent(d))
  }

  lemma TwiceHalf(d: Digests) returns (t: State)
    requires NewHashes(d)
    ensures var steps := Redacted() + [RedactStep(1, [B], Lit("admin"), None, 3)];
            ValidRun(d, steps) && t == After(d, steps)
    ensures |t.rows| == 2 && t.rows[0].id == 1 && t.rows[0].content == TwiceContent(d) && t.rows[0].redactedAt.Some?
    ensures t.rows[0].eventHash == d.content(FirstRow(d).content)
    ensures t.rows[1] == NewRow(d.content, 2, CompanionContent(d)) && t.nextId == 3
    ensures t.live == map[1 := Approval(SampleRequest().tenantId, Lit("admin"), None, [B], d.content(TwiceContent(d)))]
    ensures t.stuck == {}
  {
    RedactedRun(d);
    FieldBLeft(d);
    var s := After(d, Redacted());
    assert s.live.Keys == {} && s.stuck == {};
    FindAtFirst(s.rows);
    ExtendRun(d, Redacted(), RedactStep(1, [B], Lit("admin"), None, 3));
    t := After(d, Redacted() + [RedactStep(1, [B], Lit("admin"), None, 3)]);
  }

  lemma FindAtFirst(rows: seq<Row>)
    requires |rows| == 2 && rows[0].id == 1 && rows[1].id == 2
    ensures Find(rows, 1) == Some(0)
  {
    FindAt(rows, 0);
  }

  lemma TwiceRun(d: Digests)
    requires NewHashes(d)
    ensures ValidRun(d, Twice()) && Quiescent(After(d, Twice()))
    ensures var rows := After(d, Twice()).rows;
            && |rows| == 3 && rows[0].id == 1 && rows[0].content == TwiceContent(d) && rows[0].redactedAt.Some?
            && rows[1] == NewRow(d.content, 2, CompanionContent(d))
            && rows[2] == NewRow(d.content, 3, SecondCompanionContent(d))
  {
    var t := TwiceHalf(d);
    assert NewContent(t.rows, CompanionRequest(1, t.live[1]), 4) == SecondCompanionContent(d);
    ExtendRun(d, Redacted() + [RedactStep(1, [B], Lit("admin"), None, 3)], CompleteStep(1, 4));
  }

  /** The record of an edited companion need not be reported as one without a commitment: with an
      earlier companion it is reported for a mismatch. */
  lemma EarlierCompanionShown(d: Digests, content: Content)
    requires NewHashes(d)
    requires d.content(WithPayload(FirstRow(d).content, Tombstoned(Sample(), [A]))) != d.content(TwiceContent(d))
    requires Canon(content) != Canon(SecondCompanionContent(d))
    requires ValidRun(d, Twice()) ==>
               Faithful(d.content, Contents(After(d, Twice()).rows) + Origins(After(d, Twice())) + {content})
    ensures ValidRun(d, Twice()) && |After(d, Twice()).rows| == 3
    ensures VerdictOf(d.content, Edited(After(d, Twice()).rows, 2, content))
            == Report(false, 1, Some(Violation(1, RedactedContentMismatch)))
  {
    TwiceRun(d);
    var rows := After(d, Twice()).rows;
    EditAttribution(d, Twice(), 2, content);
    CompanionEntriesNamed(d);
    RunKeepsInv(d, Twice());
    EarlierCommitment(d, rows);
  }

  lemma CompanionEntriesNamed(d: Digests)
    ensures CompanionContent(d).request.eventType == REDACTION_EVENT_TYPE
    ensures SecondCompanionContent(d).request.eventType == REDACTION_EVENT_TYPE
    ensures DeclaredBy(CompanionContent(d).request.payload) ==
            Names(1, Some(d.content(WithPayload(FirstRow(d).content, Tombstoned(Sample(), [A])))))
    ensures DeclaredBy(SecondCompanionContent(d).request.payload) == Names(1, Some(d.content(TwiceContent(d))))
  {
    var row := WithPayload(FirstRow(d).content, Tombstoned(Sample(), [A]));
    CompanionDeclares(1, Approval(SampleRequest().tenantId, Lit("admin"), None, [A], d.content(row)));
    CompanionDeclares(1, Approval(SampleRequest().tenantId, Lit("admin"), None, [B], d.content(TwiceContent(d))));
  }

  lemma EarlierCommitment(d: Digests, rows: seq<Row>)
    requires |rows| == 3 && rows[0].id == 1 && AscendingIds(rows)
    requires EventType(rows[1]) == EventType(rows[2]) == REDACTION_EVENT_TYPE
    requires Trusted(d.content, rows[1]) && Trusted(d.content, rows[2])
    requires DeclaredBy(Payload(rows[1])).Names? && DeclaredBy(Payload(rows[2])).Names?
    requires DeclaredBy(Payload(rows[1])).target == 1 == DeclaredBy(Payload(rows[2])).target
    requires DeclaredBy(Payload(rows[1])).commitment != DeclaredBy(Payload(rows[2])).commitment
    ensures EditReport(d.content, rows, 2) == Report(false, 1, Some(Violation(1, RedactedContentMismatch)))
  {
    FindAt(rows, 0);
    var front := rows[..2];
    assert front[1] == rows[1];
    assert CommitmentBesides(d.content, front, 2, 1) == Some(DeclaredBy(Payload(rows[1])).commitment);
    assert CommitmentBesides(d.content, rows, 2, 1) == Some(DeclaredBy(Payload(rows[1])).commitment);
    assert Commitment(d.content, rows, 1) == Some(DeclaredBy(Payload(rows[2])).commitment);
  }

  // ----- two redactions at a time -----

  function First(): Redactor {
    Redactor([A], Lit("x"), None, 1)
  }

  function Second(): Redactor {
    Redactor([B], Lit("y"), None, 2)
  }

  lemma BothMayRedact(d: Digests, s: State)
    requires s.rows == [FirstRow(d)]
    ensures MayRedact(s, 0, First()) && MayRedact(s, 0, Second()) && EventType(s.rows[0]) != REDACTION_EVENT_TYPE
    ensures Written(d, s, 0, First()).content == OnlyRedacted(d, A)
    ensures Written(d, s, 0, Second()).content == OnlyRedacted(d, B)
  {
    SampleShape();
  }

  function OnlyRedacted(d: Digests, field: Text): Content {
    WithPayload(FirstRow(d).content, Tombstoned(Sample(), [field]))
  }

  /** The two companions, the later writer's first. */
  function FirstCompanion(d: Digests): Content {
    var a := Approval(SampleRequest().tenantId, Lit("y"), None, [B], d.content(OnlyRedacted(d, B)));
    Content(CompanionRequest(1, a), 3, FirstRow(d).eventHash)
  }

  function LaterCompanion(d: Digests): Content {
    var a := Approval(SampleRequest().tenantId, Lit("x"), None, [A], d.content(OnlyRedacted(d, A)));
    Content(CompanionRequest(1, a), 4, d.content(FirstCompanion(d)))
  }

  function CrossedMoves(): seq<Move> {
    [Write(First()), Write(Second()), Announce(Second(), 3), Announce(First(), 4)]
  }

  lemma OneMove(d: Digests, s: State, moves: seq<Move>, move: Move)
    requires Legal(d, s, 0, moves) && MayMove(d, s, 0, moves, AfterMoves(d, s, 0, moves), move)
    ensures Legal(d, s, 0, moves + [move])
    ensures AfterMoves(d, s, 0, moves + [move]) == Moved(d, s, 0, moves, AfterMoves(d, s, 0, moves), move)
    ensures move.Write? ==> LastWriter(moves + [move]) == Some(move.r)
    ensures !move.Write? ==> LastWriter(moves + [move]) == LastWriter(moves)
    ensures move.Announce? ==> LastAnnouncer(moves + [move]) == Some(move.r)
  {
    assert (moves + [move])[..|moves|] == moves;
  }

  /** Both writes done. */
  lemma BothWrites(d: Digests, s: State)
    requires s.rows == [FirstRow(d)] && Quiescent(s)
    ensures var moves := [Write(First()), Write(Second())];
            && Legal(d, s, 0, moves) && LastWriter(moves) == Some(Second())
            && var t := AfterMoves(d, s, 0, moves);
               && |t.rows| == 1 && t.rows[0].eventHash == FirstRow(d).eventHash && Gap(t) == {1}
  {
    BothMayRedact(d, s);
    assert [] + [Write(First())] == [Write(First())];
    OneMove(d, s, [], Write(First()));
    assert [Write(First())] + [Write(Second())] == [Write(First()), Write(Second())];
    OneMove(d, s, [Write(First())], Write(Second()));
  }

  lemma CrossedLegal(d: Digests, s: State)
    requires s.rows == [FirstRow(d)] && Quiescent(s)
    requires d.content(FirstCompanion(d)) != FirstRow(d).eventHash
    requires d.content(LaterCompanion(d)) != FirstRow(d).eventHash
    requires d.content(LaterCompanion(d)) != d.content(FirstCompanion(d))
    ensures Legal(d, s, 0, CrossedMoves())
    ensures LastWriter(CrossedMoves()) == Some(Second()) && LastAnnouncer(CrossedMoves()) == Some(First())
    ensures Gap(AfterMoves(d, s, 0, CrossedMoves())) == {1}
  {
    var two := [Write(First()), Write(Second())];
    var three := two + [Announce(Second(), 3)];
    BothWrites(d, s);
    BothMayRedact(d, s);
    var t := AfterMoves(d, s, 0, two);
    assert two[0] == Write(First()) && two[1] == Write(Second());
    assert NewContent(t.rows, CompanionRequest(1, ApprovalOf(d, s, 0, Second())), 3) == FirstCompanion(d);
    OneMove(d, s, two, Announce(Second(), 3));
    var u := AfterMoves(d, s, 0, three);
    assert three[0] == Write(First());
    assert NewContent(u.rows, CompanionRequest(1, ApprovalOf(d, s, 0, First())), 4) == LaterCompanion(d);
    OneMove(d, s, three, Announce(First(), 4));
    assert three + [Announce(First(), 4)] == CrossedMoves();
  }

  /** Two redactions of different fields whose companions come in the other order than their
      writes leave the record reported. */
  lemma OverlapShown(d: Digests)
    requires d.content(OnlyRedacted(d, A)) != d.content(OnlyRedacted(d, B))
    requires d.content(FirstCompanion(d)) != FirstRow(d).eventHash
    requires d.content(LaterCompanion(d)) != FirstRow(d).eventHash
    requires d.content(LaterCompanion(d)) != d.content(FirstCompanion(d))
    ensures ValidRun(d, OneEvent()) && Legal(d, After(d, OneEvent()), 0, CrossedMoves())
    ensures VerdictOf(d.content, AfterMoves(d, After(d, OneEvent()), 0, CrossedMoves()).rows)
            == Report(false, 1, Some(Violation(1, RedactedContentMismatch)))
  {
    OneEventRun(d);
    BothMayRedact(d, After(d, OneEvent()));
    CrossedLegal(d, After(d, OneEvent()));
    OverlapVerdict(d, OneEvent(), 0, CrossedMoves());
  }

  // ----- redacted to the last field, and never completed -----

  function Crashed(): seq<Step> {
    OneEvent() + [RedactStep(1, [A, B], Lit("admin"), None, 1)] + [CrashStep(1)]
  }

  lemma BothFieldsLeft(r: Row)
    requires Payload(r) == Sample() && r.redactedFields.None?
    ensures NewFields(r, [A, B]) == [A, B]
  {
    SampleShape();
    assert [A, B][1..] == [B] && [B][1..] == [];
    assert FieldsToRedact(Payload(r), [], []) == [];
    assert FieldsToRedact(Payload(r), [B], []) == [B];
  }

  /** Both fields redacted leave none. */
  lemma BothRedacted(d: Digests, r: Row)
    requires HasKey(Sample(), A) && HasKey(Sample(), B) && r == RedactRow(d, FirstRow(d), [A, B], 1)
    ensures Exhausted(r)
  {
    KeysOverwritten(Sample(), [A, B], Str(REDACTED_MARKER));
    SameKeyLists(Payload(r), Sample());
    assert [A, B][0] == A && [A, B][1] == B;
    AllListed(r);
  }

  /** The row after the only commit of the redaction. */
  lemma CrashedRun(d: Digests)
    ensures ValidRun(d, Crashed()) && HasKey(Sample(), A) && HasKey(Sample(), B)
    ensures var t := After(d, Crashed());
            && t.rows == [RedactRow(d, FirstRow(d), [A, B], 1)] && t.stuck == {1} && t.live == map[]
  {
    SampleShape();
    OneEventRun(d);
    var s := After(d, OneEvent());
    FindAt(s.rows, 0);
    BothFieldsLeft(s.rows[0]);
    ExtendRun(d, OneEvent(), RedactStep(1, [A, B], Lit("admin"), None, 1));
    ExtendRun(d, OneEvent() + [RedactStep(1, [A, B], Lit("admin"), None, 1)], CrashStep(1));
  }

  /** Whatever the hash, a crash after the first commit of a redaction of every field leaves a record
      beyond redaction that fails its content check: no continuation of the run verifies. */
  lemma CrashShown(d: Digests, more: seq<Step>)
    requires ValidRun(d, Crashed() + more)
    ensures ValidRun(d, Crashed()) && Beyond(After(d, Crashed()), 0)
    ensures !Authentic(d.content, After(d, Crashed()).rows, 0)
    ensures VerdictOf(d.content, After(d, Crashed() + more).rows) != Report(true, |After(d, Crashed() + more).rows|, None)
  {
    CrashedRun(d);
    BothRedacted(d, After(d, Crashed()).rows[0]);
    NeverCommitted(d, After(d, Crashed()).rows);
    var all := Crashed() + more;
    assert all[..|Crashed()|] == Crashed();
    NeverHealed(d, all, |Crashed()|, 0);
  }

  lemma NeverCommitted(d: Digests, rows: seq<Row>)
    requires |rows| == 1 && rows[0].redactedAt.Some? && EventType(rows[0]) != REDACTION_EVENT_TYPE
    ensures !Authentic(d.content, rows, 0)
  {
    NoCommitment(d.content, rows, rows[0].id);
    AuthenticMeansCommitted(d.content, rows, 0);
  }

  // ----- appends with the companions' event type -----

  /** A list for a target makes verification raise, even on the empty log. */
  lemma ErrorShown(d: Digests)
    ensures var payload := [Member(Lit("targetEventId"), Arr([])), Member(Lit("redactedContentHash"), Str([]))];
            var request := SampleRequest().(eventType := REDACTION_EVENT_TYPE, payload := payload);
            VerdictOf(d.content, Append(d, INIT, request, 0).rows) == TypeErrorRaised
  {
    var payload := [Member(Lit("targetEventId"), Arr([])), Member(Lit("redactedContentHash"), Str([]))];
    TwoEntries(Arr([]), Str([]));
    AppendedCompanionVerdict(d, INIT, SampleRequest().(eventType := REDACTION_EVENT_TYPE, payload := payload), 0);
  }

  lemma TwoEntries(target: Json, hash: Json)
    ensures var payload := [Member(Lit("targetEventId"), target), Member(Lit("redactedContentHash"), hash)];
            && Lookup(payload, Lit("targetEventId")) == Some(target)
            && Lookup(payload, Lit("redactedContentHash")) == Some(hash)
  {
    var payload := [Member(Lit("targetEventId"), target), Member(Lit("redactedContentHash"), hash)];
    assert |Lit("targetEventId")| == 13 && |Lit("redactedContentHash")| == 19;
    LookupAt(payload, 0);
    LookupAt(payload, 1);
  }

  /** A request that commits to the first row with an empty payload. */
  function AuthorisingRequest(d: Digests): Request {
    var hash := d.content(WithPayload(FirstRow(d).content, []));
    SampleRequest().(
      eventType := REDACTION_EVENT_TYPE,
      payload := [Member(Lit("targetEventId"), Num(1)), Member(Lit("redactedContentHash"), Str(hash))])
  }

  lemma AuthorisingRequestDeclares(d: Digests)
    ensures DeclaredBy(AuthorisingRequest(d).payload) == Names(1, Some(d.content(WithPayload(FirstRow(d).content, []))))
    ensures AuthorisingRequest(d).eventType == REDACTION_EVENT_TYPE
  {
    TwoEntries(Num(1), Str(d.content(WithPayload(FirstRow(d).content, []))));
  }

  /** Whatever the hash, an append that commits to other content for a record lets a later flag and
      that content pass. */
  lemma FlagShown(d: Digests)
    ensures ValidRun(d, OneEvent())
    ensures var rows := Append(d, After(d, OneEvent()), AuthorisingRequest(d), 1).rows;
            && |rows| == 2
            && VerdictOf(d.content, rows) == Report(true, 2, None)
            && VerdictOf(d.content, Flagged(rows, 0, [], 2)) == Report(true, 2, None)
  {
    OneEventRun(d);
    RunKeepsInv(d, OneEvent());
    FlagPasses(d, After(d, OneEvent()), AuthorisingRequest(d));
  }

  lemma FlagPasses(d: Digests, s: State, request: Request)
    requires Inv(d, s) && Quiescent(s) && s.rows == [FirstRow(d)] && request == AuthorisingRequest(d)
    ensures var rows := Append(d, s, request, 1).rows;
            && |rows| == 2
            && VerdictOf(d.content, rows) == Report(true, 2, None)
            && VerdictOf(d.content, Flagged(rows, 0, [], 2)) == Report(true, 2, None)
  {
    SampleShape();
    QuiescentIsIntact(d, s);
    AuthorisingRequestDeclares(d);
    AppendAuthorisesFlag(d, s, request, 1, 0, [], 2);
    IntactMeansReported(d.content, Append(d, s, request, 1).rows);
  }
}
