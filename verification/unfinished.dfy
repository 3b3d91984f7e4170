/** Redactions that stopped between their two commits: which can still be completed, and what
    becomes of the log when one cannot. */
module Unfinished {
  import opened Texts
  import opened Jsons
  import opened Wrappers
  import opened AuditLog
  import opened ChainVerification
  import opened Hashing
  import opened System
  import opened Invariants
  import opened Frames
  import opened Redaction

  /** No field of the row is left to redact. */
  predicate Exhausted(r: Row) {
    NewFields(r, Keys(Payload(r))) == []
  }

  lemma NothingLeft(r: Row, fields: seq<Text>)
    ensures Exhausted(r) ==> NewFields(r, fields) == []
  {
    var fs := NewFields(r, fields);
    assert fs != [] ==> fs[0] in fs;
    if fs != [] {
      KeyListed(Payload(r), fs[0]);
      assert fs[0] in NewFields(r, Keys(Payload(r)));
    }
  }

  /** A row that lists every key of its payload has nothing left. */
  lemma AllListed(r: Row)
    requires forall k :: HasKey(Payload(r), k) ==> k in RedactedFields(r)
    ensures Exhausted(r)
  {
    FirstMember(NewFields(r, Keys(Payload(r))));
  }

  lemma FirstMember(ts: seq<Text>)
    ensures ts != [] ==> exists t :: t in ts
  {
    if ts != [] {
      assert ts[0] in ts;
    }
  }

  /** A record whose redaction stopped half-way can be redacted again, and so be healed, exactly
      when it has a field left to redact. */
  lemma RedactableAgain(d: Digests, s: State, i: nat)
    requires Inv(d, s) && i < |s.rows| && s.rows[i].id in s.stuck && s.rows[i].id !in s.live
    ensures (exists fields :: Redactable(s, s.rows[i].id, fields)) <==> !Exhausted(s.rows[i])
  {
    FindAt(s.rows, i);
    assert s.rows[i].id in Gap(s) && InGap(s.rows, s.rows[i].id);
    assert EventType(s.rows[i]) != REDACTION_EVENT_TYPE;
    if !Exhausted(s.rows[i]) {
      assert Redactable(s, s.rows[i].id, Keys(Payload(s.rows[i])));
    }
    if fields :| Redactable(s, s.rows[i].id, fields) {
      NothingLeft(s.rows[i], fields);
    }
  }

  /** Row `i` was left half-redacted and has no field left. */
  ghost predicate Beyond(s: State, i: nat) {
    i < |s.rows| && s.rows[i].id in s.stuck && s.rows[i].id !in s.live && Exhausted(s.rows[i])
  }

  /** What later steps leave of such a row. */
  ghost predicate Frozen(d: Digests, s: State, t: State, i: nat)
    requires i < |s.rows|
  {
    && i < |t.rows| && t.rows[i] == s.rows[i].(archivedAt := t.rows[i].archivedAt)
    && Commitment(d.content, t.rows, t.rows[i].id) == Commitment(d.content, s.rows, s.rows[i].id)
  }

  lemma ExhaustedFrozen(d: Digests, s: State, t: State, i: nat)
    requires i < |s.rows| && Exhausted(s.rows[i]) && Frozen(d, s, t, i)
    ensures Exhausted(t.rows[i])
  {
  }

  /** No step reaches a row that is beyond redaction. */
  lemma StepKeepsBeyond(d: Digests, s: State, step: Step, i: nat)
    requires Inv(d, s) && Beyond(s, i) && Enabled(d, s, step)
    ensures Frozen(d, s, Apply(d, s, step), i) && Beyond(Apply(d, s, step), i)
  {
    StepFreezes(d, s, step, i);
    ExhaustedFrozen(d, s, Apply(d, s, step), i);
  }

  lemma StepFreezes(d: Digests, s: State, step: Step, i: nat)
    requires Inv(d, s) && Beyond(s, i) && Enabled(d, s, step)
    ensures var t := Apply(d, s, step);
            Frozen(d, s, t, i) && s.rows[i].id in t.stuck && s.rows[i].id !in t.live
  {
    FindAt(s.rows, i);
    if step.RedactStep? {
      NothingLeft(s.rows[i], step.fields);
    }
    assert step.RedactStep? ==> step.id != s.rows[i].id;
    StepRow(d, s, step, i);
    StepCommitment(d, s, step, s.rows[i].id);
    if !step.CrashStep? {
      StepGap(d, s, step, s.rows[i].id);
    }
  }

  /** A record that crashed between its commits with no field left is never healed: in every
      continuation its id stays in the gap, and if it failed its content check then, the log never
      verifies again. */
  lemma {:induction false} NeverHealed(d: Digests, steps: seq<Step>, n: nat, i: nat)
    requires ValidRun(d, steps) && n <= |steps| && ValidRun(d, steps[..n]) && Beyond(After(d, steps[..n]), i)
    ensures Beyond(After(d, steps), i) && After(d, steps).rows[i].id in Gap(After(d, steps))
    ensures Frozen(d, After(d, steps[..n]), After(d, steps), i)
    ensures !Authentic(d.content, After(d, steps[..n]).rows, i) ==>
              VerdictOf(d.content, After(d, steps).rows) != Report(true, |After(d, steps).rows|, None)
    decreases |steps|
  {
    if n == |steps| {
      assert steps[..n] == steps;
    } else {
      var front := steps[..|steps| - 1];
      assert front[..n] == steps[..n];
      NeverHealed(d, front, n, i);
      RunKeepsInv(d, front);
      StepKeepsBeyond(d, After(d, front), steps[|steps| - 1], i);
    }
    RunKeepsInv(d, steps[..n]);
    BeyondIsRedacted(d, After(d, steps[..n]), i);
    StillUnauthentic(d, After(d, steps[..n]), After(d, steps), i);
  }

  lemma BeyondIsRedacted(d: Digests, s: State, i: nat)
    requires Inv(d, s) && Beyond(s, i)
    ensures s.rows[i].redactedAt.Some?
  {
    var j := LiveRow(d, s, s.rows[i].id);
    assert i == j;
  }

  lemma StillUnauthentic(d: Digests, s: State, t: State, i: nat)
    requires i < |s.rows| && Frozen(d, s, t, i) && s.rows[i].redactedAt.Some?
    ensures Authentic(d.content, s.rows, i) <==> Authentic(d.content, t.rows, i)
    ensures !Authentic(d.content, s.rows, i) ==>
              VerdictOf(d.content, t.rows) != Report(true, |t.rows|, None)
  {
    AuthenticMeansCommitted(d.content, s.rows, i);
    AuthenticMeansCommitted(d.content, t.rows, i);
    assert AllPass(d.content, t.rows, |t.rows|) ==> Passes(d.content, t.rows, i);
  }
}
