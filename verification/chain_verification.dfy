/** `verify_chain`: the first-failure walk and the newest-trusted-commitment table it consults. */
module ChainVerification {
  import opened Texts
  import opened Jsons
  import opened Wrappers
  import opened AuditLog

  // ----- what a companion row declares -----

  /** What the payload of a companion row contributes to the commitment table: nothing, a
      `TypeError` because the target cannot be a dict key, or a commitment for a target. A
      commitment that is not a string equals no hash. */
  datatype Declared = Nothing | Unhashable | Names(target: int, commitment: Option<Text>)

  function DeclaredBy(payload: Dict): Declared {
    match (Lookup(payload, Lit("targetEventId")), Lookup(payload, Lit("redactedContentHash")))
    case (Some(target), Some(hash)) =>
      if target.Null? || hash.Null? then Nothing
      else
        var commitment := if hash.Str? then Some(hash.s) else None;
        (match target
         case Num(n) => Names(n, commitment)
         case Bool(b) => Names(if b then 1 else 0, commitment)  // True == 1 as a dict key
         case Arr(_) => Unhashable
         case Obj(_) => Unhashable
         case _ => Nothing)  // a string key is stored, but no id ever equals it
    case _ => Nothing
  }

  /** The table is a Python dict: a companion counts for an id when its target equals that id in
      Python, its commitment is a hash when it equals it there, and a list or dict as target is what
      cannot be a key. */
  lemma DeclaredAsPython(payload: Dict, id: int, eventHash: Text)
    ensures var target, hash := Lookup(payload, Lit("targetEventId")), Lookup(payload, Lit("redactedContentHash"));
            var given := target.Some? && hash.Some? && target.value != Null && hash.value != Null;
            && (DeclaredBy(payload).Unhashable? <==> given && (target.value.Arr? || target.value.Obj?))
            && (DeclaredBy(payload).Names? && DeclaredBy(payload).target == id
                <==> given && PythonEqual(target.value, Num(id)))
            && (DeclaredBy(payload).Names? ==>
                  (DeclaredBy(payload).commitment == Some(eventHash) <==> PythonEqual(hash.value, Str(eventHash))))
  {
  }

  /** Rows whose declarations count: companions whose own hash still matches. */
  predicate Trusted(hash: Content -> Text, r: Row) {
    EventType(r) == REDACTION_EVENT_TYPE && hash(r.content) == r.eventHash
  }

  predicate TrustedFor(hash: Content -> Text, r: Row, id: int) {
    Trusted(hash, r) && DeclaredBy(Payload(r)).Names? && DeclaredBy(Payload(r)).target == id
  }

  /** Some trusted companion names a list or dict as its target. */
  ghost predicate Poisoned(hash: Content -> Text, rows: seq<Row>) {
    exists i :: 0 <= i < |rows| && Trusted(hash, rows[i]) && DeclaredBy(Payload(rows[i])).Unhashable?
  }

  /** The entry of the commitment table for `id`: later companions overwrite earlier ones. */
  function Commitment(hash: Content -> Text, rows: seq<Row>, id: int): Option<Option<Text>> {
    if rows == [] then None
    else
      var r := rows[|rows| - 1];
      if TrustedFor(hash, r, id) then Some(DeclaredBy(Payload(r)).commitment)
      else Commitment(hash, rows[..|rows| - 1], id)
  }

  /** Row `k` is the newest trusted companion naming `id`. */
  ghost predicate Newest(hash: Content -> Text, rows: seq<Row>, id: int, k: int) {
    && 0 <= k < |rows|
    && TrustedFor(hash, rows[k], id)
    && forall j :: k < j < |rows| ==> !TrustedFor(hash, rows[j], id)
  }

  /** The table holds exactly the declarations of the newest trusted companions. */
  lemma {:induction false} CommitmentIsNewest(hash: Content -> Text, rows: seq<Row>, id: int)
    ensures forall k :: Newest(hash, rows, id, k) ==>
              Commitment(hash, rows, id) == Some(DeclaredBy(Payload(rows[k])).commitment)
    ensures Commitment(hash, rows, id).Some? ==> exists k :: Newest(hash, rows, id, k)
  {
    if rows != [] {
      var n := |rows| - 1;
      var front := rows[..n];
      CommitmentIsNewest(hash, front, id);
      if TrustedFor(hash, rows[n], id) {
        assert Newest(hash, rows, id, n);
      } else {
        forall k
          ensures Newest(hash, rows, id, k) <==> Newest(hash, front, id, k)
        {
          NewestInFront(hash, rows, id, k);
        }
      }
    }
  }

  lemma NewestInFront(hash: Content -> Text, rows: seq<Row>, id: int, k: int)
    requires rows != [] && !TrustedFor(hash, rows[|rows| - 1], id)
    ensures Newest(hash, rows, id, k) <==> Newest(hash, rows[..|rows| - 1], id, k)
  {
    var front := rows[..|rows| - 1];
    assert forall j :: 0 <= j < |front| ==> front[j] == rows[j];
  }

  lemma {:induction false} NoCommitment(hash: Content -> Text, rows: seq<Row>, id: int)
    requires forall i :: 0 <= i < |rows| ==> !TrustedFor(hash, rows[i], id)
    ensures Commitment(hash, rows, id) == None
  {
    CommitmentIsNewest(hash, rows, id);
  }

  // ----- what the walk checks -----

  datatype ViolationType =
    | EventHashMismatch
    | PreviousHashMismatch
    | RedactedContentMismatch
    | RedactionCommitmentMissing

  datatype Violation = Violation(recordId: int, violationType: ViolationType)

  /** A report, or the `TypeError` that building the commitment table can end in. */
  datatype Verdict =
    | Report(intact: bool, recordsChecked: nat, violation: Option<Violation>)
    | TypeErrorRaised

  /** The content of row `i` is what its hash, or its newest commitment, says. */
  ghost predicate Authentic(hash: Content -> Text, rows: seq<Row>, i: nat)
    requires i < |rows|
  {
    if rows[i].redactedAt.None? then hash(rows[i].content) == rows[i].eventHash
    else exists k :: && Newest(hash, rows, rows[i].id, k)
                     && DeclaredBy(Payload(rows[k])).commitment == Some(hash(rows[i].content))
  }

  ghost predicate Linked(rows: seq<Row>, i: nat)
    requires i < |rows|
  {
    rows[i].content.previousHash == LinkBefore(rows, i)
  }

  ghost predicate Passes(hash: Content -> Text, rows: seq<Row>, i: nat)
    requires i < |rows|
  {
    Authentic(hash, rows, i) && Linked(rows, i)
  }

  /** The content of a redacted row is authentic exactly when the table holds its hash. */
  lemma AuthenticMeansCommitted(hash: Content -> Text, rows: seq<Row>, i: nat)
    requires i < |rows| && rows[i].redactedAt.Some?
    ensures Authentic(hash, rows, i)
            <==> Commitment(hash, rows, rows[i].id) == Some(Some(hash(rows[i].content)))
  {
    CommitmentIsNewest(hash, rows, rows[i].id);
  }

  /** The type a failing row is reported with: content first, then the link. */
  ghost function ViolationAt(hash: Content -> Text, rows: seq<Row>, i: nat): ViolationType
    requires i < |rows|
  {
    if Authentic(hash, rows, i) then PreviousHashMismatch
    else if rows[i].redactedAt.None? then EventHashMismatch
    else if forall j :: 0 <= j < |rows| ==> !TrustedFor(hash, rows[j], rows[i].id)
    then RedactionCommitmentMissing
    else RedactedContentMismatch
  }

  ghost predicate AllPass(hash: Content -> Text, rows: seq<Row>, n: nat)
    requires n <= |rows|
  {
    forall i :: 0 <= i < n ==> Passes(hash, rows, i)
  }

  /** What `verify_chain` has to answer. */
  ghost predicate IsVerdict(hash: Content -> Text, rows: seq<Row>, v: Verdict) {
    if Poisoned(hash, rows) then v == TypeErrorRaised
    else if AllPass(hash, rows, |rows|) then v == Report(true, |rows|, None)
    else
      exists k: nat ::
        && k < |rows|
        && AllPass(hash, rows, k)
        && !Passes(hash, rows, k)
        && v == Report(false, k + 1, Some(Violation(rows[k].id, ViolationAt(hash, rows, k))))
  }

  lemma FirstFailureUnique(hash: Content -> Text, rows: seq<Row>, k: nat, m: nat)
    requires k < |rows| && AllPass(hash, rows, k) && !Passes(hash, rows, k)
    requires m < |rows| && AllPass(hash, rows, m) && !Passes(hash, rows, m)
    ensures k == m
  {
  }

  /** When one row at most can fail, the verdict hangs on it. */
  lemma OneSuspect(hash: Content -> Text, rows: seq<Row>, f: nat)
    requires !Poisoned(hash, rows) && f < |rows|
    requires forall j :: 0 <= j < |rows| && j != f ==> Passes(hash, rows, j)
    ensures VerdictOf(hash, rows) ==
              if Passes(hash, rows, f) then Report(true, |rows|, None)
              else Report(false, f + 1, Some(Violation(rows[f].id, ViolationAt(hash, rows, f))))
  {
    if Passes(hash, rows, f) {
      assert AllPass(hash, rows, |rows|);
    } else {
      assert AllPass(hash, rows, f);
      Reported(hash, rows, f, Report(false, f + 1, Some(Violation(rows[f].id, ViolationAt(hash, rows, f)))));
    }
  }

  /** There is one verdict. */
  lemma VerdictUnique(hash: Content -> Text, rows: seq<Row>, v: Verdict, w: Verdict)
    requires IsVerdict(hash, rows, v) && IsVerdict(hash, rows, w)
    ensures v == w
  {
    if !Poisoned(hash, rows) && !AllPass(hash, rows, |rows|) {
      var k: nat :| && k < |rows| && AllPass(hash, rows, k) && !Passes(hash, rows, k)
                    && v == Report(false, k + 1, Some(Violation(rows[k].id, ViolationAt(hash, rows, k))));
      var m: nat :| && m < |rows| && AllPass(hash, rows, m) && !Passes(hash, rows, m)
                    && w == Report(false, m + 1, Some(Violation(rows[m].id, ViolationAt(hash, rows, m))));
      FirstFailureUnique(hash, rows, k, m);
    }
  }

  /** The verdict, as a function. */
  ghost function VerdictOf(hash: Content -> Text, rows: seq<Row>): (v: Verdict)
    ensures IsVerdict(hash, rows, v)
  {
    if Poisoned(hash, rows) then TypeErrorRaised
    else if AllPass(hash, rows, |rows|) then Report(true, |rows|, None)
    else
      FirstFailureExists(hash, rows, |rows|);
      var k: nat :| k < |rows| && AllPass(hash, rows, k) && !Passes(hash, rows, k);
      Report(false, k + 1, Some(Violation(rows[k].id, ViolationAt(hash, rows, k))))
  }

  lemma {:induction false} FirstFailureExists(hash: Content -> Text, rows: seq<Row>, n: nat)
    requires n <= |rows| && !AllPass(hash, rows, n)
    ensures exists k: nat :: k < n && AllPass(hash, rows, k) && !Passes(hash, rows, k)
  {
    if AllPass(hash, rows, n - 1) {
      assert !Passes(hash, rows, n - 1);
    } else {
      FirstFailureExists(hash, rows, n - 1);
    }
  }

  // ----- the two loops -----

  datatype UnhashableKey = UnhashableKey

  /** `_latest_redaction_commitments`. */
  method LatestRedactionCommitments(hash: Content -> Text, events: seq<Row>)
    returns (r: Result<map<int, Option<Text>>, UnhashableKey>)
    ensures r.Failure? <==> Poisoned(hash, events)
    ensures r.Success? ==>
              forall id :: (if id in r.value then Some(r.value[id]) else None) == Commitment(hash, events, id)
  {
    var commitments: map<int, Option<Text>> := map[];
    for i := 0 to |events|
      invariant !Poisoned(hash, events[..i])
      invariant forall id :: (if id in commitments then Some(commitments[id]) else None)
                             == Commitment(hash, events[..i], id)
    {
      var event := events[i];
      assert events[..i + 1][..i] == events[..i];
      if EventType(event) == REDACTION_EVENT_TYPE && hash(event.content) == event.eventHash {
        match DeclaredBy(Payload(event)) {
          case Unhashable =>
            assert Trusted(hash, events[i]);
            return Failure(UnhashableKey);
          case Names(target, commitment) => commitments := commitments[target := commitment];
          case Nothing =>
        }
      }
    }
    assert events[..|events|] == events;
    return Success(commitments);
  }

  /** `verify_chain`, on the rows `list_all_events` returned. */
  method VerifyChain(hash: Content -> Text, events: seq<Row>) returns (v: Verdict)
    ensures v == VerdictOf(hash, events)
  {
    var table := LatestRedactionCommitments(hash, events);
    if table.Failure? {
      return TypeErrorRaised;
    }
    var expectedPreviousHash := GENESIS_HASH;
    for index := 0 to |events|
      invariant AllPass(hash, events, index)
      invariant expectedPreviousHash == LinkBefore(events, index)
    {
      var event := events[index];
      RowStatus(hash, events, index);
      assert Linked(events, index) <==> event.content.previousHash == expectedPreviousHash;
      if event.redactedAt.None? {
        if hash(event.content) != event.eventHash {
          v := Report(false, index + 1, Some(Violation(event.id, EventHashMismatch)));
          Reported(hash, events, index, v);
          return;
        }
      } else if event.id !in table.value {
        v := Report(false, index + 1, Some(Violation(event.id, RedactionCommitmentMissing)));
        Reported(hash, events, index, v);
        return;
      } else if table.value[event.id] != Some(hash(event.content)) {
        v := Report(false, index + 1, Some(Violation(event.id, RedactedContentMismatch)));
        Reported(hash, events, index, v);
        return;
      }
      if event.content.previousHash != expectedPreviousHash {
        v := Report(false, index + 1, Some(Violation(event.id, PreviousHashMismatch)));
        Reported(hash, events, index, v);
        return;
      }
      assert Passes(hash, events, index);
      expectedPreviousHash := event.eventHash;
    }
    v := Report(true, |events|, None);
    AllReported(hash, events);
  }

  lemma AllReported(hash: Content -> Text, rows: seq<Row>)
    requires !Poisoned(hash, rows) && AllPass(hash, rows, |rows|)
    ensures VerdictOf(hash, rows) == Report(true, |rows|, None)
  {
  }

  /** What the commitment table decides about one row. */
  lemma RowStatus(hash: Content -> Text, rows: seq<Row>, i: nat)
    requires i < |rows|
    ensures rows[i].redactedAt.Some? ==>
              var c := Commitment(hash, rows, rows[i].id);
              && (Authentic(hash, rows, i) <==> c == Some(Some(hash(rows[i].content))))
              && (c == None ==> ViolationAt(hash, rows, i) == RedactionCommitmentMissing)
              && (c.Some? && c.value != Some(hash(rows[i].content)) ==>
                    ViolationAt(hash, rows, i) == RedactedContentMismatch)
  {
    if rows[i].redactedAt.Some? {
      AuthenticMeansCommitted(hash, rows, i);
      MissingMeansNone(hash, rows, rows[i].id);
    }
  }

  lemma MissingMeansNone(hash: Content -> Text, rows: seq<Row>, id: int)
    ensures Commitment(hash, rows, id) == None <==> forall j :: 0 <= j < |rows| ==> !TrustedFor(hash, rows[j], id)
  {
    CommitmentIsNewest(hash, rows, id);
    if Commitment(hash, rows, id) == None {
      NoneMeansNone(hash, rows, id);
    } else {
      var k :| Newest(hash, rows, id, k);
    }
  }

  lemma {:induction false} NoneMeansNone(hash: Content -> Text, rows: seq<Row>, id: int)
    requires Commitment(hash, rows, id) == None
    ensures forall j :: 0 <= j < |rows| ==> !TrustedFor(hash, rows[j], id)
  {
    if rows != [] {
      NoneMeansNone(hash, rows[..|rows| - 1], id);
    }
  }

  lemma Reported(hash: Content -> Text, rows: seq<Row>, k: nat, v: Verdict)
    requires !Poisoned(hash, rows)
    requires k < |rows| && AllPass(hash, rows, k) && !Passes(hash, rows, k)
    requires v == Report(false, k + 1, Some(Violation(rows[k].id, ViolationAt(hash, rows, k))))
    ensures v == VerdictOf(hash, rows)
  {
    VerdictUnique(hash, rows, v, VerdictOf(hash, rows));
  }
}
