/** Every state with redactions between their two commits: exactly when `verify_chain` shows it. */
module Gaps {
  import opened Texts
  import opened Jsons
  import opened Wrappers
  import opened AuditLog
  import opened ChainVerification
  import opened Hashing
  import opened System
  import opened Invariants
  import opened Frames
  import opened Redaction
  import opened Disclosure

  // ----- in one state -----

  /** The newest commitment to this row is to its present content. */
  predicate Stands(hash: Content -> Text, rows: seq<Row>, i: nat)
    requires i < |rows|
  {
    Commitment(hash, rows, rows[i].id) == Some(Some(hash(rows[i].content)))
  }

  lemma GapRowPasses(d: Digests, s: State, i: nat)
    requires Inv(d, s) && i < |s.rows|
    ensures Passes(d.content, s.rows, i) <==> s.rows[i].id !in Gap(s) || Stands(d.content, s.rows, i)
  {
    OnlyGapRowsFail(d, s, i);
    if s.rows[i].id in Gap(s) {
      var j := LiveRow(d, s, s.rows[i].id);
      assert j == i;
      AuthenticMeansCommitted(d.content, s.rows, i);
    }
  }

  /** Row `k` is the first row of the gap that does not stand. */
  ghost predicate FirstFallen(hash: Content -> Text, s: State, k: nat) {
    && k < |s.rows| && s.rows[k].id in Gap(s) && !Stands(hash, s.rows, k)
    && forall i :: 0 <= i < k && s.rows[i].id in Gap(s) ==> Stands(hash, s.rows, i)
  }

  /** However many redactions are open and whatever was appended meanwhile: the log verifies if and
      only if every row of the gap stands, and else the first that does not is reported, as missing
      a commitment if it has none. */
  lemma GapVerdict(d: Digests, s: State)
    requires Inv(d, s)
    ensures VerdictOf(d.content, s.rows) == Report(true, |s.rows|, None)
            <==> forall i :: 0 <= i < |s.rows| && s.rows[i].id in Gap(s) ==> Stands(d.content, s.rows, i)
    ensures forall k: nat :: FirstFallen(d.content, s, k) ==>
              VerdictOf(d.content, s.rows) ==
                Report(false, k + 1, Some(Violation(s.rows[k].id,
                                                    if Commitment(d.content, s.rows, s.rows[k].id) == None
                                                    then RedactionCommitmentMissing else RedactedContentMismatch)))
  {
    NothingPoisoned(d, s);
    forall i | 0 <= i < |s.rows|
      ensures Passes(d.content, s.rows, i) <==> s.rows[i].id !in Gap(s) || Stands(d.content, s.rows, i)
    {
      GapRowPasses(d, s, i);
    }
    AllOrNot(d.content, s.rows);
    forall k: nat | FirstFallen(d.content, s, k)
      ensures VerdictOf(d.content, s.rows) ==
                Report(false, k + 1, Some(Violation(s.rows[k].id,
                                                    if Commitment(d.content, s.rows, s.rows[k].id) == None
                                                    then RedactionCommitmentMissing else RedactedContentMismatch)))
    {
      FallenReported(d, s, k);
    }
  }

  lemma AllOrNot(hash: Content -> Text, rows: seq<Row>)
    requires !Poisoned(hash, rows)
    ensures VerdictOf(hash, rows) == Report(true, |rows|, None) <==> AllPass(hash, rows, |rows|)
  {
  }

  lemma FallenReported(d: Digests, s: State, k: nat)
    requires Inv(d, s) && FirstFallen(d.content, s, k)
    ensures VerdictOf(d.content, s.rows) ==
              Report(false, k + 1, Some(Violation(s.rows[k].id,
                                                  if Commitment(d.content, s.rows, s.rows[k].id) == None
                                                  then RedactionCommitmentMissing else RedactedContentMismatch)))
  {
    NothingPoisoned(d, s);
    forall i | 0 <= i <= k
      ensures Passes(d.content, s.rows, i) <==> i < k
    {
      GapRowPasses(d, s, i);
    }
    var j := LiveRow(d, s, s.rows[k].id);
    assert j == k;
    RowStatus(d.content, s.rows, k);
    OnlyGapRowsFail(d, s, k);
    Reported(d.content, s.rows, k, Report(false, k + 1, Some(Violation(s.rows[k].id, ViolationAt(d.content, s.rows, k)))));
  }

  // ----- over runs -----

  /** The content a record had when a redaction of it last completed, and the fields redacted since. */
  datatype Completion = Completion(content: Content, since: seq<Text>)

  ghost function LastCompletion(d: Digests, steps: seq<Step>, id: int): Option<Completion>
    requires ValidRun(d, steps)
    decreases |steps|
  {
    if steps == [] then None
    else
      var front := steps[..|steps| - 1];
      NextCompletion(After(d, front), LastCompletion(d, front, id), steps[|steps| - 1], id)
  }

  function NextCompletion(s: State, before: Option<Completion>, step: Step, id: int): Option<Completion> {
    match (step, Find(s.rows, id))
    case (CompleteStep(x, _), Some(i)) => if x == id then Some(Completion(s.rows[i].content, [])) else before
    case (RedactStep(x, fields, _, _, _), Some(i)) =>
      if x == id && before.Some?
      then Some(before.value.(since := before.value.since + NewFields(s.rows[i], fields)))
      else before
    case _ => before
  }

  /** What a completion says of the present state. */
  ghost predicate Tracks(d: Digests, s: State, id: int, completion: Option<Completion>) {
    match completion
    case None => Commitment(d.content, s.rows, id) == None
    case Some(c) =>
      var i := Find(s.rows, id);
      var was := c.content.request.payload;
      && Commitment(d.content, s.rows, id) == Some(Some(d.content(c.content)))
      && i.Some?
      && s.rows[i.value].content == WithPayload(c.content, Tombstoned(was, c.since))
      && DistinctKeys(was)
      && forall f :: f in c.since ==> HasKey(was, f)
  }

  lemma {:induction false} OverwrittenTwice(payload: Dict, a: seq<Text>, b: seq<Text>, v: Json)
    ensures Overwritten(Overwritten(payload, a, v), b, v) == Overwritten(payload, a + b, v)
  {
    if b == [] {
      assert a + b == a;
    } else {
      var n := |b| - 1;
      OverwrittenTwice(payload, a, b[..n], v);
      assert (a + b)[..|a + b| - 1] == a + b[..n];
    }
  }

  lemma StepFinds(d: Digests, s: State, step: Step, i: nat)
    requires Inv(d, s) && Enabled(d, s, step) && i < |s.rows|
    ensures Find(s.rows, s.rows[i].id) == Some(i) && Find(Apply(d, s, step).rows, s.rows[i].id) == Some(i)
  {
    StepKeepsInv(d, s, step);
    StepRow(d, s, step, i);
    FindAt(s.rows, i);
    FindAt(Apply(d, s, step).rows, i);
  }

  lemma CompletionTracked(d: Digests, s: State, id: int, timestamp: int, before: Option<Completion>)
    requires Inv(d, s) && AllBooks(d, s) && Enabled(d, s, CompleteStep(id, timestamp))
    ensures var step := CompleteStep(id, timestamp);
            Tracks(d, Apply(d, s, step), id, NextCompletion(s, before, step, id))
  {
    var step := CompleteStep(id, timestamp);
    var i := LiveRow(d, s, id);
    StepFinds(d, s, step, i);
    StepRow(d, s, step, i);
    StepCommitment(d, s, step, id);
    assert Books(d, s.rows[i], s.origin[i].request.payload);
    SameKeyLists(Payload(s.rows[i]), s.origin[i].request.payload);
  }

  lemma RedactionTracked(d: Digests, s: State, step: Step, c: Completion)
    requires Inv(d, s) && Enabled(d, s, step) && step.RedactStep? && Tracks(d, s, step.id, Some(c))
    ensures Tracks(d, Apply(d, s, step), step.id, NextCompletion(s, Some(c), step, step.id))
  {
    var i := Find(s.rows, step.id).value;
    var was := c.content.request.payload;
    var more := NewFields(s.rows[i], step.fields);
    StepFinds(d, s, step, i);
    StepRow(d, s, step, i);
    StepCommitment(d, s, step, step.id);
    OverwrittenTwice(was, c.since, more, Str(REDACTED_MARKER));
    KeysOverwritten(was, c.since, Str(REDACTED_MARKER));
    SameKeyLists(Payload(s.rows[i]), was);
  }

  lemma OthersTracked(d: Digests, s: State, step: Step, id: int, completion: Option<Completion>)
    requires Inv(d, s) && Enabled(d, s, step) && Tracks(d, s, id, completion)
    requires step.CompleteStep? ==> step.id != id
    requires step.RedactStep? && step.id == id ==> completion.None?
    ensures Tracks(d, Apply(d, s, step), id, NextCompletion(s, completion, step, id))
  {
    StepCommitment(d, s, step, id);
    if completion.Some? {
      var i := Find(s.rows, id).value;
      StepFinds(d, s, step, i);
      StepRow(d, s, step, i);
    }
  }

  lemma StepTracks(d: Digests, s: State, step: Step, id: int, before: Option<Completion>)
    requires Inv(d, s) && AllBooks(d, s) && Enabled(d, s, step) && Tracks(d, s, id, before)
    ensures Tracks(d, Apply(d, s, step), id, NextCompletion(s, before, step, id))
  {
    if step.CompleteStep? && step.id == id {
      CompletionTracked(d, s, id, step.timestamp, before);
    } else if step.RedactStep? && step.id == id && before.Some? {
      RedactionTracked(d, s, step, before.value);
    } else {
      OthersTracked(d, s, step, id, before);
    }
  }

  lemma {:induction false} RunTracks(d: Digests, steps: seq<Step>, id: int)
    requires ValidRun(d, steps)
    ensures Tracks(d, After(d, steps), id, LastCompletion(d, steps, id))
  {
    if steps != [] {
      var front := steps[..|steps| - 1];
      RunTracks(d, front, id);
      RunKeepsInv(d, front);
      RunBooks(d, front);
      StepTracks(d, After(d, front), steps[|steps| - 1], id, LastCompletion(d, front, id));
    }
  }

  /** A redaction of the record has completed before, and every field redacted since already read
      like the marker then. */
  ghost predicate Unnoticeable(completion: Option<Completion>) {
    completion.Some? && AlreadyMarked(completion.value.content.request.payload, completion.value.since)
  }

  /** When a row of the gap stands, over every run. */
  lemma GapRowStands(d: Digests, steps: seq<Step>, i: nat)
    requires ValidRun(d, steps) && i < |After(d, steps).rows|
    requires var c := LastCompletion(d, steps, After(d, steps).rows[i].id);
             c.Some? ==> Exact(d.content, c.value.content, After(d, steps).rows[i].content)
    ensures Stands(d.content, After(d, steps).rows, i)
            <==> Unnoticeable(LastCompletion(d, steps, After(d, steps).rows[i].id))
  {
    var s := After(d, steps);
    var c := LastCompletion(d, steps, s.rows[i].id);
    RunTracks(d, steps, s.rows[i].id);
    RunKeepsInv(d, steps);
    FindAt(s.rows, i);
    if c.Some? {
      TombstonedUnchanged(c.value.content, c.value.since);
    }
  }

  /** The hash tells the present content of every row of the gap from that at its last completion. */
  ghost predicate TellsGapApart(d: Digests, steps: seq<Step>)
    requires ValidRun(d, steps)
  {
    var s := After(d, steps);
    forall i :: 0 <= i < |s.rows| && s.rows[i].id in Gap(s) ==>
      var c := LastCompletion(d, steps, s.rows[i].id);
      c.Some? ==> Exact(d.content, c.value.content, s.rows[i].content)
  }

  /** At every moment of every run: the log verifies if and only if each record whose redaction is
      open has had one completed before and only fields that read like the marker redacted since.
      (docs/redaction-design.md:131 says the chain stays consistent meanwhile.) */
  lemma OpenRedactionsShow(d: Digests, steps: seq<Step>)
    requires ValidRun(d, steps) && TellsGapApart(d, steps)
    ensures var s := After(d, steps);
            VerdictOf(d.content, s.rows) == Report(true, |s.rows|, None)
            <==> forall i :: 0 <= i < |s.rows| && s.rows[i].id in Gap(s) ==>
                   Unnoticeable(LastCompletion(d, steps, s.rows[i].id))
  {
    var s := After(d, steps);
    RunKeepsInv(d, steps);
    GapVerdict(d, s);
    forall i | 0 <= i < |s.rows| && s.rows[i].id in Gap(s)
      ensures Stands(d.content, s.rows, i) <==> Unnoticeable(LastCompletion(d, steps, s.rows[i].id))
    {
      GapRowStands(d, steps, i);
    }
  }
}
