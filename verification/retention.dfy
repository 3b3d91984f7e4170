/** Retention: the cutoff, what archive runs add up to, and what they leave alone. */
module Retention {
  import opened Texts
  import opened Wrappers
  import opened AuditLog
  import opened ChainVerification
  import opened Hashing
  import opened System
  import opened Invariants
  import opened Repository

  /** Instants are counted in microseconds, the resolution of `datetime`. */
  const MICROSECONDS_PER_DAY: int := 24 * 60 * 60 * 1_000_000

  datatype RetentionResult = RetentionResult(cutoff: int, archivedCount: nat)

  /** `apply_retention`; `clock` is the reading the bulk update stamps the rows with. */
  method ApplyRetention(db: Session, retentionWindowDays: int, now: int, clock: int) returns (r: RetentionResult)
    requires db.Idle()
    modifies db`rows
    ensures r.cutoff == now - retentionWindowDays * 86_400_000_000
    ensures |db.rows| == |old(db.rows)|
    ensures forall i :: 0 <= i < |db.rows| ==>
              var was := old(db.rows)[i];
              db.rows[i] == if && was.archivedAt.None?
                               && now - was.content.timestamp > retentionWindowDays * 86_400_000_000
                            then was.(archivedAt := Some(clock)) else was
    ensures r.archivedCount == |DuePositions(old(db.rows), r.cutoff)|
  {
    var cutoff := now - retentionWindowDays * MICROSECONDS_PER_DAY;
    var archivedCount := db.ArchiveEventsOlderThan(cutoff, clock);
    return RetentionResult(cutoff, archivedCount);
  }

  // ----- conservation -----

  function ArchivedCount(rows: seq<Row>): nat {
    if rows == [] then 0
    else ArchivedCount(rows[..|rows| - 1]) + (if rows[|rows| - 1].archivedAt.Some? then 1 else 0)
  }

  lemma {:induction false} ArchiveCounts(rows: seq<Row>, cutoff: int, now: int)
    ensures ArchivedCount(ArchiveRows(rows, cutoff, now)) == ArchivedCount(rows) + DueCount(rows, cutoff)
  {
    if rows != [] {
      var n := |rows| - 1;
      ArchiveCounts(rows[..n], cutoff, now);
      assert ArchiveRows(rows, cutoff, now)[..n] == ArchiveRows(rows[..n], cutoff, now);
    }
  }

  lemma AppendCounts(rows: seq<Row>, r: Row)
    requires r.archivedAt.None?
    ensures ArchivedCount(rows + [r]) == ArchivedCount(rows)
  {
    assert (rows + [r])[..|rows|] == rows;
  }

  lemma {:induction false} SameFlagsCount(a: seq<Row>, b: seq<Row>)
    requires |a| == |b| && forall i :: 0 <= i < |a| ==> a[i].archivedAt.Some? == b[i].archivedAt.Some?
    ensures ArchivedCount(a) == ArchivedCount(b)
  {
    if a != [] {
      SameFlagsCount(a[..|a| - 1], b[..|b| - 1]);
    }
  }

  lemma SubmitCounts(d: Digests, s: State, call: Call, timestamp: int)
    ensures var t := Submit(d, s, call, timestamp);
            ArchivedCount(t.rows) == ArchivedCount(s.rows) && t.reported == s.reported
  {
    AppendCounts(s.rows, NewRow(d.content, s.nextId, NewContent(s.rows, call.request, timestamp)));
  }

  lemma StepCounts(d: Digests, s: State, step: Step)
    requires Enabled(d, s, step) && s.reported == ArchivedCount(s.rows)
    ensures var t := Apply(d, s, step);
            t.reported == ArchivedCount(t.rows)
  {
    match step {
      case SubmitStep(call, timestamp) => SubmitCounts(d, s, call, timestamp);
      case RedactStep(_, _, _, _, _) => SameFlagsCount(s.rows, Apply(d, s, step).rows);
      case CompleteStep(id, timestamp) =>
        AppendCounts(s.rows, NewRow(d.content, s.nextId, NewContent(s.rows, CompanionRequest(id, s.live[id]), timestamp)));
      case ArchiveStep(cutoff, now) => ArchiveCounts(s.rows, cutoff, now);
      case _ =>
    }
  }

  /** Over every run the counts the archive runs reported sum up to the number of archived rows. */
  lemma {:induction false} ReportedIsArchived(d: Digests, steps: seq<Step>)
    requires ValidRun(d, steps)
    ensures After(d, steps).reported == ArchivedCount(After(d, steps).rows)
  {
    if steps != [] {
      var front := steps[..|steps| - 1];
      ReportedIsArchived(d, front);
      StepCounts(d, After(d, front), steps[|steps| - 1]);
    }
  }

  // ----- archiving is never undone -----

  /** A row keeps its place, its id, its timestamp and, once archived, its archive stamp. */
  predicate Kept(r: Row, t: Row) {
    && t.id == r.id && t.content.timestamp == r.content.timestamp
    && (r.archivedAt.Some? ==> t.archivedAt == r.archivedAt)
  }

  ghost predicate AllKept(a: seq<Row>, b: seq<Row>) {
    |a| <= |b| && forall i :: 0 <= i < |a| ==> Kept(a[i], b[i])
  }

  lemma StepKeeps(d: Digests, s: State, step: Step)
    requires Enabled(d, s, step)
    ensures AllKept(s.rows, Apply(d, s, step).rows)
  {
  }

  lemma AllKeptTransitive(a: seq<Row>, b: seq<Row>, c: seq<Row>)
    requires AllKept(a, b) && AllKept(b, c)
    ensures AllKept(a, c)
  {
    forall i | 0 <= i < |a|
      ensures Kept(a[i], c[i])
    {
      assert Kept(a[i], b[i]) && Kept(b[i], c[i]);
    }
  }

  /** Archiving is never undone, over any stretch of a run. */
  lemma {:induction false} RunKeepsArchived(d: Digests, steps: seq<Step>, n: nat)
    requires ValidRun(d, steps) && n <= |steps|
    ensures ValidRun(d, steps[..n]) && AllKept(After(d, steps[..n]).rows, After(d, steps).rows)
    decreases |steps|
  {
    RunPrefixValid(d, steps, n);
    if n == |steps| {
      assert steps[..n] == steps;
    } else {
      var front := steps[..|steps| - 1];
      RunKeepsArchived(d, front, n);
      assert front[..n] == steps[..n];
      StepKeeps(d, After(d, front), steps[|steps| - 1]);
      AllKeptTransitive(After(d, steps[..n]).rows, After(d, front).rows, After(d, steps).rows);
    }
  }

  lemma NoLongerDue(rows: seq<Row>, cutoff: int, now: int, later: seq<Row>, cutoff': int)
    requires AllKept(ArchiveRows(rows, cutoff, now), later) && cutoff' <= cutoff
    ensures forall i :: 0 <= i < |rows| ==> !DueForArchive(later[i], cutoff')
  {
    forall i | 0 <= i < |rows|
      ensures !DueForArchive(later[i], cutoff')
    {
      assert Kept(ArchiveRows(rows, cutoff, now)[i], later[i]);
    }
  }

  /** Once a run with some cutoff has happened, a run with a cutoff no later archives only rows
      appended since. */
  lemma EarlierCutoffFindsOnlyNewRows(d: Digests, steps: seq<Step>, n: nat, cutoff: int, i: nat)
    requires ValidRun(d, steps) && n < |steps| && ValidRun(d, steps[..n + 1])
    requires steps[n].ArchiveStep? && cutoff <= steps[n].cutoff
    requires i < |After(d, steps).rows| && DueForArchive(After(d, steps).rows[i], cutoff)
    ensures i >= |After(d, steps[..n + 1]).rows|
  {
    RunKeepsArchived(d, steps, n + 1);
    assert steps[..n + 1][..n] == steps[..n];
    NoLongerDue(After(d, steps[..n]).rows, steps[n].cutoff, steps[n].now, After(d, steps).rows, cutoff);
  }

  // ----- what archiving does not touch -----

  /** Rows that differ in their archive stamps at most. */
  ghost predicate SameButStamps(a: seq<Row>, b: seq<Row>) {
    |a| == |b| && forall i :: 0 <= i < |a| ==> b[i] == a[i].(archivedAt := b[i].archivedAt)
  }

  lemma StampsChangeNoCommitment(hash: Content -> Text, a: seq<Row>, b: seq<Row>, id: int)
    requires SameButStamps(a, b)
    ensures Commitment(hash, a, id) == Commitment(hash, b, id)
  {
    forall j | 0 <= j < |a|
      ensures TrustedFor(hash, a[j], id) == TrustedFor(hash, b[j], id) && Payload(a[j]) == Payload(b[j])
    {
      assert b[j] == a[j].(archivedAt := b[j].archivedAt);
    }
    CommitmentFrame(hash, a, b, id);
  }

  lemma StampsChangeNoCheck(hash: Content -> Text, a: seq<Row>, b: seq<Row>, i: nat)
    requires SameButStamps(a, b) && i < |a|
    ensures Authentic(hash, a, i) == Authentic(hash, b, i) && Linked(a, i) == Linked(b, i)
    ensures ViolationAt(hash, a, i) == ViolationAt(hash, b, i)
  {
    assert b[i] == a[i].(archivedAt := b[i].archivedAt);
    if i > 0 {
      assert b[i - 1] == a[i - 1].(archivedAt := b[i - 1].archivedAt);
    }
    StampsChangeNoCommitment(hash, a, b, a[i].id);
    MissingMeansNone(hash, a, a[i].id);
    MissingMeansNone(hash, b, b[i].id);
    if a[i].redactedAt.Some? {
      AuthenticMeansCommitted(hash, a, i);
      AuthenticMeansCommitted(hash, b, i);
    }
  }

  lemma StampsChangeNoPoison(hash: Content -> Text, a: seq<Row>, b: seq<Row>)
    requires SameButStamps(a, b) && Poisoned(hash, a)
    ensures Poisoned(hash, b)
  {
    var i :| 0 <= i < |a| && Trusted(hash, a[i]) && DeclaredBy(Payload(a[i])).Unhashable?;
    assert b[i] == a[i].(archivedAt := b[i].archivedAt);
    assert Trusted(hash, b[i]);
  }

  lemma StampsChangeNoVerdict(hash: Content -> Text, a: seq<Row>, b: seq<Row>)
    requires SameButStamps(a, b)
    ensures VerdictOf(hash, a) == VerdictOf(hash, b)
  {
    if Poisoned(hash, a) {
      StampsChangeNoPoison(hash, a, b);
    } else {
      assert !Poisoned(hash, b) by {
        if Poisoned(hash, b) {
          StampsChangeNoPoison(hash, b, a);
        }
      }
      forall i | 0 <= i < |a|
        ensures Passes(hash, a, i) == Passes(hash, b, i) && ViolationAt(hash, a, i) == ViolationAt(hash, b, i)
        ensures a[i].id == b[i].id
      {
        StampsChangeNoCheck(hash, a, b, i);
      }
      var v := VerdictOf(hash, a);
      if !AllPass(hash, a, |a|) {
        var k: nat :| && k < |a| && AllPass(hash, a, k) && !Passes(hash, a, k)
                      && v == Report(false, k + 1, Some(Violation(a[k].id, ViolationAt(hash, a, k))));
        Reported(hash, b, k, v);
      } else {
        VerdictUnique(hash, b, v, VerdictOf(hash, b));
      }
    }
  }

  /** An archive run changes neither what `verify_chain` says of a log, reachable or not, nor what
      the next append chains to. */
  lemma ArchivingIsInvisible(hash: Content -> Text, rows: seq<Row>, cutoff: int, now: int)
    ensures VerdictOf(hash, ArchiveRows(rows, cutoff, now)) == VerdictOf(hash, rows)
    ensures LinkBefore(ArchiveRows(rows, cutoff, now), |rows|) == LinkBefore(rows, |rows|)
  {
    StampsChangeNoVerdict(hash, rows, ArchiveRows(rows, cutoff, now));
  }
}
