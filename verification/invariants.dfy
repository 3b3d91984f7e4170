/** What every reachable state satisfies, and what `verify_chain` therefore says of it. */
module Invariants {
  import opened Texts
  import opened Jsons
  import opened Wrappers
  import opened AuditLog
  import opened ChainVerification
  import opened Hashing
  import opened System

  // ----- the invariant, in parts -----

  /** Every stored hash is the hash of the content the row was created with, that content
      differs from the present one in its payload at most, and it links to the row before. */
  ghost predicate Chained(hash: Content -> Text, rows: seq<Row>, origin: seq<Content>) {
    && |origin| == |rows|
    && (forall i :: 0 <= i < |rows| ==> FromOrigin(hash, rows[i], origin[i]))
    && (forall i {:trigger Linked(rows, i)} :: 0 <= i < |rows| ==> Linked(rows, i))
  }

  ghost predicate FromOrigin(hash: Content -> Text, r: Row, o: Content) {
    && r.eventHash == hash(o)
    && r.content == WithPayload(o, Payload(r))
    && (r.redactedAt.None? ==> r.content == o)
  }

  ghost predicate FreshIds(rows: seq<Row>, nextId: int) {
    && AscendingIds(rows)
    && forall i :: 0 <= i < |rows| ==> rows[i].id < nextId
  }

  /** A companion is never redacted, and commits to a hash for an earlier, redacted row. */
  ghost predicate GoodCompanion(rows: seq<Row>, k: nat)
    requires k < |rows|
  {
    var declared := DeclaredBy(Payload(rows[k]));
    && rows[k].redactedAt.None?
    && declared.Names? && declared.commitment.Some?
    && exists t :: 0 <= t < k && rows[t].id == declared.target && rows[t].redactedAt.Some?
  }

  ghost predicate GoodCompanions(rows: seq<Row>) {
    forall k :: 0 <= k < |rows| && EventType(rows[k]) == REDACTION_EVENT_TYPE ==> GoodCompanion(rows, k)
  }

  /** Outside the gap, the newest commitment is to the row's present content. */
  ghost predicate Committed(hash: Content -> Text, rows: seq<Row>, gap: set<int>) {
    forall i :: 0 <= i < |rows| && rows[i].redactedAt.Some? && rows[i].id !in gap ==>
      Commitment(hash, rows, rows[i].id) == Some(Some(hash(rows[i].content)))
  }

  ghost predicate InGap(rows: seq<Row>, id: int) {
    exists i :: 0 <= i < |rows| && rows[i].id == id && rows[i].redactedAt.Some?
                && EventType(rows[i]) != REDACTION_EVENT_TYPE
  }

  /** A live redaction carries the hash of its row's present content. */
  ghost predicate LiveApprovals(hash: Content -> Text, rows: seq<Row>, live: map<int, Approval>) {
    forall i :: 0 <= i < |rows| && rows[i].id in live ==> live[rows[i].id].contentHash == hash(rows[i].content)
  }

  ghost predicate Inv(d: Digests, s: State) {
    && Chained(d.content, s.rows, s.origin)
    && FreshIds(s.rows, s.nextId)
    && GoodCompanions(s.rows)
    && Committed(d.content, s.rows, Gap(s))
    && (forall id :: id in Gap(s) ==> InGap(s.rows, id))
    && LiveApprovals(d.content, s.rows, s.live)
  }

  // ----- the commitment table under the steps -----

  lemma CommitmentAppend(hash: Content -> Text, rows: seq<Row>, r: Row, id: int)
    ensures Commitment(hash, rows + [r], id) ==
              if TrustedFor(hash, r, id) then Some(DeclaredBy(Payload(r)).commitment)
              else Commitment(hash, rows, id)
  {
    assert (rows + [r])[..|rows|] == rows;
  }

  lemma {:induction false} CommitmentFrame(hash: Content -> Text, a: seq<Row>, b: seq<Row>, id: int)
    requires |a| == |b|
    requires forall j :: 0 <= j < |a| ==>
               && TrustedFor(hash, a[j], id) == TrustedFor(hash, b[j], id)
               && (TrustedFor(hash, a[j], id) ==> Payload(a[j]) == Payload(b[j]))
    ensures Commitment(hash, a, id) == Commitment(hash, b, id)
  {
    if a != [] {
      var n := |a| - 1;
      assert a[n] == a[n] && TrustedFor(hash, a[n], id) == TrustedFor(hash, b[n], id);
      CommitmentFrame(hash, a[..n], b[..n], id);
    }
  }

  /** A companion declares its target and the approved hash. */
  lemma CompanionDeclares(id: int, a: Approval)
    ensures DeclaredBy(CompanionPayload(id, a)) == Names(id, Some(a.contentHash))
  {
    var p := CompanionPayload(id, a);
    assert |Lit("targetEventId")| == 13 && |Lit("redactedFields")| == 14 && |Lit("redactedContentHash")| == 19;
    assert p[1..][0] == p[1] && p[1..][1..][0] == p[2];
    assert Lookup(p, Lit("targetEventId")) == Some(Num(id));
    assert Lookup(p[1..][1..], Lit("redactedContentHash")) == Some(Str(a.contentHash));
    assert Lookup(p[1..], Lit("redactedContentHash")) == Some(Str(a.contentHash));
    assert Lookup(p, Lit("redactedContentHash")) == Some(Str(a.contentHash));
  }

  // ----- each step keeps the invariant -----

  lemma AppendedRowChained(d: Digests, s: State, request: Request, timestamp: int, i: nat)
    requires Chained(d.content, s.rows, s.origin) && i <= |s.rows|
    ensures var t := Append(d, s, request, timestamp);
            FromOrigin(d.content, t.rows[i], t.origin[i]) && Linked(t.rows, i)
  {
    var t := Append(d, s, request, timestamp);
    if i < |s.rows| {
      assert t.rows[i] == s.rows[i] && t.origin[i] == s.origin[i];
      assert Linked(s.rows, i) && LinkBefore(t.rows, i) == LinkBefore(s.rows, i);
    } else {
      assert LinkBefore(t.rows, i) == LinkBefore(s.rows, i);
    }
  }

  lemma AppendKeepsChain(d: Digests, s: State, request: Request, timestamp: int)
    requires Chained(d.content, s.rows, s.origin) && FreshIds(s.rows, s.nextId)
    ensures var t := Append(d, s, request, timestamp);
            Chained(d.content, t.rows, t.origin) && FreshIds(t.rows, t.nextId)
  {
    var t := Append(d, s, request, timestamp);
    forall i | 0 <= i < |t.rows|
      ensures FromOrigin(d.content, t.rows[i], t.origin[i]) && Linked(t.rows, i)
    {
      AppendedRowChained(d, s, request, timestamp, i);
    }
  }

  lemma AppendKeepsCompanions(rows: seq<Row>, r: Row)
    requires GoodCompanions(rows)
    requires EventType(r) == REDACTION_EVENT_TYPE ==> GoodCompanion(rows + [r], |rows|)
    ensures GoodCompanions(rows + [r])
  {
    var t := rows + [r];
    forall k | 0 <= k < |t| && EventType(t[k]) == REDACTION_EVENT_TYPE
      ensures GoodCompanion(t, k)
    {
      if k < |rows| {
        assert GoodCompanion(rows, k);
        var i :| 0 <= i < k && rows[i].id == DeclaredBy(Payload(rows[k])).target && rows[i].redactedAt.Some?;
        assert t[i] == rows[i];
      }
    }
  }

  lemma AppendKeepsGap(rows: seq<Row>, r: Row, id: int)
    requires InGap(rows, id)
    ensures InGap(rows + [r], id)
  {
    var i :| 0 <= i < |rows| && rows[i].id == id && rows[i].redactedAt.Some?
             && EventType(rows[i]) != REDACTION_EVENT_TYPE;
    assert (rows + [r])[i] == rows[i];
  }

  lemma LiveRow(d: Digests, s: State, id: int) returns (i: nat)
    requires Inv(d, s) && id in Gap(s)
    ensures i < |s.rows| && s.rows[i].id == id && s.rows[i].redactedAt.Some?
  {
    i :| 0 <= i < |s.rows| && s.rows[i].id == id && s.rows[i].redactedAt.Some?
         && EventType(s.rows[i]) != REDACTION_EVENT_TYPE;
  }

  lemma NewIdNotInGap(d: Digests, s: State)
    requires Inv(d, s)
    ensures s.nextId !in Gap(s)
  {
    if s.nextId in Gap(s) {
      var _ := LiveRow(d, s, s.nextId);
    }
  }

  /** An append by a client: it is no companion, so no commitment changes. */
  lemma ClientAppendKeepsInv(d: Digests, s: State, request: Request, timestamp: int)
    requires Inv(d, s) && request.eventType != REDACTION_EVENT_TYPE
    ensures Inv(d, Append(d, s, request, timestamp))
  {
    var t := Append(d, s, request, timestamp);
    var r := t.rows[|s.rows|];
    AppendKeepsChain(d, s, request, timestamp);
    AppendKeepsCompanions(s.rows, r);
    forall i | 0 <= i < |t.rows| && t.rows[i].redactedAt.Some? && t.rows[i].id !in Gap(t)
      ensures Commitment(d.content, t.rows, t.rows[i].id) == Some(Some(d.content(t.rows[i].content)))
    {
      CommitmentAppend(d.content, s.rows, r, t.rows[i].id);
    }
    forall id | id in Gap(t)
      ensures InGap(t.rows, id)
    {
      AppendKeepsGap(s.rows, r, id);
    }
    NewIdNotInGap(d, s);
  }

  /** The invariant does not look at keys or history, and ids may be skipped. */
  lemma InvFrame(d: Digests, s: State, t: State)
    requires Inv(d, s)
    requires t.rows == s.rows && t.origin == s.origin && t.live == s.live && t.stuck == s.stuck
    requires t.nextId >= s.nextId
    ensures Inv(d, t)
  {
  }

  /** A submission either appends its row or leaves the rows alone. */
  lemma SubmitShape(d: Digests, s: State, call: Call, timestamp: int)
    ensures var t := Submit(d, s, call, timestamp);
            var u := if ResponseTo(d, s, call, timestamp).Created? then Append(d, s, call.request, timestamp) else s;
            t.rows == u.rows && t.origin == u.origin && t.live == u.live && t.stuck == u.stuck && t.nextId >= u.nextId
  {
  }

  lemma SubmitKeepsInv(d: Digests, s: State, call: Call, timestamp: int)
    requires Inv(d, s) && call.request.eventType != REDACTION_EVENT_TYPE
    ensures Inv(d, Submit(d, s, call, timestamp))
  {
    ClientAppendKeepsInv(d, s, call.request, timestamp);
    SubmitShape(d, s, call, timestamp);
    var u := if ResponseTo(d, s, call, timestamp).Created? then Append(d, s, call.request, timestamp) else s;
    InvFrame(d, u, Submit(d, s, call, timestamp));
  }

  lemma CompanionIsGood(d: Digests, s: State, id: int, timestamp: int)
    requires Inv(d, s) && id in s.live
    ensures GoodCompanion(SecondCommit(d, s, id, timestamp).rows, |s.rows|)
  {
    var t := SecondCommit(d, s, id, timestamp);
    CompanionDeclares(id, s.live[id]);
    var target := LiveRow(d, s, id);
    assert t.rows[target] == s.rows[target];
  }

  /** The second commit puts the target's approved hash at the top of the table. */
  lemma SecondCommitCommits(d: Digests, s: State, id: int, timestamp: int)
    requires Inv(d, s) && id in s.live
    ensures var t := SecondCommit(d, s, id, timestamp);
            Committed(d.content, t.rows, Gap(t))
  {
    var t := SecondCommit(d, s, id, timestamp);
    var r := t.rows[|s.rows|];
    CompanionDeclares(id, s.live[id]);
    assert t.rows == s.rows + [r];
    forall i | 0 <= i < |t.rows| && t.rows[i].redactedAt.Some? && t.rows[i].id !in Gap(t)
      ensures Commitment(d.content, t.rows, t.rows[i].id) == Some(Some(d.content(t.rows[i].content)))
    {
      assert t.rows[i] == s.rows[i];
      CommitmentAppend(d.content, s.rows, r, t.rows[i].id);
    }
  }

  lemma SecondCommitKeepsInv(d: Digests, s: State, id: int, timestamp: int)
    requires Inv(d, s) && id in s.live
    ensures Inv(d, SecondCommit(d, s, id, timestamp))
  {
    var t := SecondCommit(d, s, id, timestamp);
    var r := t.rows[|s.rows|];
    assert t.rows == s.rows + [r];
    AppendKeepsChain(d, s, CompanionRequest(id, s.live[id]), timestamp);
    CompanionIsGood(d, s, id, timestamp);
    AppendKeepsCompanions(s.rows, r);
    SecondCommitCommits(d, s, id, timestamp);
    forall x | x in Gap(t)
      ensures InGap(t.rows, x)
    {
      AppendKeepsGap(s.rows, r, x);
    }
    NewIdNotInGap(d, s);
  }

  /** What a commit that appends nothing may do to a row. */
  predicate Touched(r: Row, t: Row) {
    && t.id == r.id
    && t.eventHash == r.eventHash
    && t.content == WithPayload(r.content, Payload(t))
    && (t.redactedAt.None? ==> r.redactedAt.None? && t.content == r.content)
    && (EventType(r) == REDACTION_EVENT_TYPE ==> t.content == r.content && t.redactedAt == r.redactedAt)
    && (r.redactedAt.Some? ==> t.redactedAt.Some?)
  }

  ghost predicate AllTouched(a: seq<Row>, b: seq<Row>) {
    |a| == |b| && forall j :: 0 <= j < |a| ==> Touched(a[j], b[j])
  }

  lemma TouchedKeepsChain(d: Digests, a: seq<Row>, b: seq<Row>, origin: seq<Content>, nextId: int)
    requires AllTouched(a, b) && Chained(d.content, a, origin) && FreshIds(a, nextId)
    ensures Chained(d.content, b, origin) && FreshIds(b, nextId)
  {
    forall j | 0 <= j < |b|
      ensures Linked(b, j)
    {
      assert Linked(a, j) && Touched(a[j], b[j]);
      if j > 0 {
        assert Touched(a[j - 1], b[j - 1]);
      }
    }
  }

  lemma TouchedKeepsCompanions(a: seq<Row>, b: seq<Row>)
    requires AllTouched(a, b) && GoodCompanions(a)
    ensures GoodCompanions(b)
  {
    forall k | 0 <= k < |b| && EventType(b[k]) == REDACTION_EVENT_TYPE
      ensures GoodCompanion(b, k)
    {
      assert Touched(a[k], b[k]) && GoodCompanion(a, k);
      var t :| 0 <= t < k && a[t].id == DeclaredBy(Payload(a[k])).target && a[t].redactedAt.Some?;
      assert Touched(a[t], b[t]);
    }
  }

  lemma TouchedKeepsCommitment(hash: Content -> Text, a: seq<Row>, b: seq<Row>, id: int)
    requires AllTouched(a, b)
    ensures Commitment(hash, a, id) == Commitment(hash, b, id)
  {
    forall j | 0 <= j < |a|
      ensures TrustedFor(hash, a[j], id) == TrustedFor(hash, b[j], id)
      ensures TrustedFor(hash, a[j], id) ==> Payload(a[j]) == Payload(b[j])
    {
      assert Touched(a[j], b[j]);
    }
    CommitmentFrame(hash, a, b, id);
  }

  lemma TouchedKeepsGap(a: seq<Row>, b: seq<Row>, id: int)
    requires AllTouched(a, b) && InGap(a, id)
    ensures InGap(b, id)
  {
    var i :| 0 <= i < |a| && a[i].id == id && a[i].redactedAt.Some? && EventType(a[i]) != REDACTION_EVENT_TYPE;
    assert Touched(a[i], b[i]);
  }

  lemma FirstCommitTouches(d: Digests, s: State, i: nat, fields: seq<Text>, actorId: Text, reason: Option<Text>, now: int)
    requires i < |s.rows| && forall f :: f in fields ==> HasKey(Payload(s.rows[i]), f)
    requires EventType(s.rows[i]) != REDACTION_EVENT_TYPE
    ensures AllTouched(s.rows, FirstCommit(d, s, i, fields, actorId, reason, now).rows)
  {
  }

  lemma FirstCommitKeepsInv(d: Digests, s: State, i: nat, fields: seq<Text>, actorId: Text, reason: Option<Text>, now: int)
    requires Inv(d, s)
    requires i < |s.rows| && forall f :: f in fields ==> HasKey(Payload(s.rows[i]), f)
    requires EventType(s.rows[i]) != REDACTION_EVENT_TYPE
    ensures Inv(d, FirstCommit(d, s, i, fields, actorId, reason, now))
  {
    var t := FirstCommit(d, s, i, fields, actorId, reason, now);
    var id := s.rows[i].id;
    FirstCommitTouches(d, s, i, fields, actorId, reason, now);
    TouchedKeepsChain(d, s.rows, t.rows, s.origin, s.nextId);
    TouchedKeepsCompanions(s.rows, t.rows);
    assert Gap(t) == Gap(s) + {id};
    forall j | 0 <= j < |t.rows| && t.rows[j].redactedAt.Some? && t.rows[j].id !in Gap(t)
      ensures Commitment(d.content, t.rows, t.rows[j].id) == Some(Some(d.content(t.rows[j].content)))
    {
      assert t.rows[j] == s.rows[j];
      TouchedKeepsCommitment(d.content, s.rows, t.rows, t.rows[j].id);
    }
    forall x | x in Gap(t)
      ensures InGap(t.rows, x)
    {
      if x == id {
        assert t.rows[i].id == x;
      } else {
        TouchedKeepsGap(s.rows, t.rows, x);
      }
    }
  }

  lemma ArchiveKeepsInv(d: Digests, s: State, cutoff: int, now: int)
    requires Inv(d, s)
    ensures Inv(d, s.(rows := ArchiveRows(s.rows, cutoff, now)))
    ensures AllTouched(s.rows, ArchiveRows(s.rows, cutoff, now))
  {
    var rows := ArchiveRows(s.rows, cutoff, now);
    TouchedKeepsChain(d, s.rows, rows, s.origin, s.nextId);
    TouchedKeepsCompanions(s.rows, rows);
    forall j | 0 <= j < |rows| && rows[j].redactedAt.Some? && rows[j].id !in Gap(s)
      ensures Commitment(d.content, rows, rows[j].id) == Some(Some(d.content(rows[j].content)))
    {
      assert rows[j] == ArchiveRow(s.rows[j], cutoff, now);
      TouchedKeepsCommitment(d.content, s.rows, rows, rows[j].id);
    }
    forall x | x in Gap(s)
      ensures InGap(rows, x)
    {
      TouchedKeepsGap(s.rows, rows, x);
    }
  }

  lemma StepKeepsInv(d: Digests, s: State, step: Step)
    requires Inv(d, s) && Enabled(d, s, step)
    ensures Inv(d, Apply(d, s, step))
  {
    match step {
      case SubmitStep(call, timestamp) => SubmitKeepsInv(d, s, call, timestamp);
      case BurnStep =>
      case RedactStep(id, fields, actorId, reason, now) =>
        var i := Find(s.rows, id).value;
        FirstCommitKeepsInv(d, s, i, NewFields(s.rows[i], fields), actorId, reason, now);
      case CompleteStep(id, timestamp) => SecondCommitKeepsInv(d, s, id, timestamp);
      case CrashStep(id) =>
        assert Gap(Apply(d, s, step)) == Gap(s);
      case ArchiveStep(cutoff, now) =>
        ArchiveKeepsInv(d, s, cutoff, now);
        InvFrame(d, s.(rows := ArchiveRows(s.rows, cutoff, now)), Apply(d, s, step));
    }
  }

  lemma {:induction false} RunKeepsInv(d: Digests, steps: seq<Step>)
    requires ValidRun(d, steps)
    ensures Inv(d, After(d, steps))
  {
    if steps != [] {
      var front := steps[..|steps| - 1];
      RunKeepsInv(d, front);
      StepKeepsInv(d, After(d, front), steps[|steps| - 1]);
    }
  }

  lemma RunPrefixValid(d: Digests, steps: seq<Step>, n: nat)
    requires ValidRun(d, steps) && n <= |steps|
    ensures ValidRun(d, steps[..n])
  {
    if n == |steps| {
      assert steps[..n] == steps;
    } else {
      RunPrefixValid(d, steps[..|steps| - 1], n);
      assert steps[..|steps| - 1][..n] == steps[..n];
    }
  }

  // ----- what verify_chain says of reachable states -----

  lemma NothingPoisoned(d: Digests, s: State)
    requires Inv(d, s)
    ensures !Poisoned(d.content, s.rows)
  {
    assert forall i :: 0 <= i < |s.rows| && EventType(s.rows[i]) == REDACTION_EVENT_TYPE ==>
        GoodCompanion(s.rows, i);
  }

  /** A row outside the gap passes both checks; a row inside it can fail its content check only. */
  lemma OnlyGapRowsFail(d: Digests, s: State, i: nat)
    requires Inv(d, s) && i < |s.rows|
    ensures Linked(s.rows, i)
    ensures s.rows[i].id !in Gap(s) ==> Passes(d.content, s.rows, i)
  {
    if s.rows[i].redactedAt.Some? {
      AuthenticMeansCommitted(d.content, s.rows, i);
    }
  }

  lemma QuiescentIsIntact(d: Digests, s: State)
    requires Inv(d, s) && Quiescent(s)
    ensures VerdictOf(d.content, s.rows) == Report(true, |s.rows|, None)
  {
    NothingPoisoned(d, s);
    forall i | 0 <= i < |s.rows|
      ensures Passes(d.content, s.rows, i)
    {
      OnlyGapRowsFail(d, s, i);
    }
  }

  /** The verdict either counts every row and finds the log intact, or names a row of the gap
      and fails it for its content. */
  ghost predicate FaultsOnlyGap(s: State, v: Verdict) {
    && v.Report?
    && (v.intact ==> v == Report(true, |s.rows|, None))
    && (Quiescent(s) ==> v.intact)
    && (!v.intact ==>
          && 0 < v.recordsChecked <= |s.rows|
          && v.violation.Some?
          && v.violation.value.recordId == s.rows[v.recordsChecked - 1].id
          && v.violation.value.recordId in Gap(s)
          && v.violation.value.violationType in {RedactionCommitmentMissing, RedactedContentMismatch})
  }

  lemma InvVerdict(d: Digests, s: State)
    requires Inv(d, s)
    ensures FaultsOnlyGap(s, VerdictOf(d.content, s.rows))
  {
    var v := VerdictOf(d.content, s.rows);
    NothingPoisoned(d, s);
    if Quiescent(s) {
      QuiescentIsIntact(d, s);
    } else if !AllPass(d.content, s.rows, |s.rows|) {
      var k: nat :| && k < |s.rows| && AllPass(d.content, s.rows, k) && !Passes(d.content, s.rows, k)
                    && v == Report(false, k + 1, Some(Violation(s.rows[k].id, ViolationAt(d.content, s.rows, k))));
      FailureIsInGap(d, s, k);
    }
  }

  /** In every reachable state, `verify_chain` either finds the whole log intact or stops at the
      first row between the two commits of its redaction; outside such gaps it counts every row. */
  lemma ReachableVerdict(d: Digests, steps: seq<Step>)
    requires ValidRun(d, steps)
    ensures FaultsOnlyGap(After(d, steps), VerdictOf(d.content, After(d, steps).rows))
  {
    RunKeepsInv(d, steps);
    InvVerdict(d, After(d, steps));
  }

  lemma FailureIsInGap(d: Digests, s: State, k: nat)
    requires Inv(d, s) && k < |s.rows| && !Passes(d.content, s.rows, k)
    ensures s.rows[k].id in Gap(s)
    ensures ViolationAt(d.content, s.rows, k) in {RedactionCommitmentMissing, RedactedContentMismatch}
  {
    OnlyGapRowsFail(d, s, k);
    var j := LiveRow(d, s, s.rows[k].id);
    assert j == k;
  }

  /** A row whose redaction stopped half-way passes again once a later redaction completes. */
  lemma CompletionHeals(d: Digests, s: State, id: int, timestamp: int, i: nat)
    requires Inv(d, s) && id in s.live && i < |s.rows| && s.rows[i].id == id
    ensures var t := SecondCommit(d, s, id, timestamp);
            && t.rows[i] == s.rows[i]
            && id !in Gap(t)
            && Passes(d.content, t.rows, i)
  {
    SecondCommitKeepsInv(d, s, id, timestamp);
    OnlyGapRowsFail(d, SecondCommit(d, s, id, timestamp), i);
  }
}
