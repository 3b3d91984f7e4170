/** Which redacted rows owe their commitment to which companion. */
module Dependence {
  import opened Texts
  import opened Wrappers
  import opened AuditLog
  import opened ChainVerification
  import opened Hashing
  import opened System
  import opened Invariants

  /** The entry of the commitment table for `id` if row `k` did not count. */
  function CommitmentBesides(hash: Content -> Text, rows: seq<Row>, k: nat, id: int): Option<Option<Text>> {
    if rows == [] then None
    else
      var n := |rows| - 1;
      if n != k && TrustedFor(hash, rows[n], id) then Some(DeclaredBy(Payload(rows[n])).commitment)
      else CommitmentBesides(hash, rows[..n], k, id)
  }

  /** Row `j` would be committed to alike if row `k` did not count. */
  predicate Independent(hash: Content -> Text, rows: seq<Row>, k: nat, j: nat)
    requires j < |rows|
  {
    CommitmentBesides(hash, rows, k, rows[j].id) == Commitment(hash, rows, rows[j].id)
  }

  /** The row that companion row `k` names. */
  function Target(rows: seq<Row>, k: nat): (t: Option<nat>)
    requires k < |rows|
    ensures t.Some? ==> t.value < |rows|
  {
    var declared := DeclaredBy(Payload(rows[k]));
    if EventType(rows[k]) == REDACTION_EVENT_TYPE && declared.Names? then Find(rows, declared.target) else None
  }

  /** The row that row `k` names, if it depends on being named. */
  function Dependent(hash: Content -> Text, rows: seq<Row>, k: nat): (t: Option<nat>)
    requires k < |rows|
    ensures t.Some? ==> t.value < |rows|
  {
    var t := Target(rows, k);
    if t.Some? && !Independent(hash, rows, k, t.value) then t else None
  }

  /** How verification reports a row that has lost the commitment of row `k`. */
  function LossAt(hash: Content -> Text, rows: seq<Row>, k: nat, t: nat): Verdict
    requires t < |rows|
  {
    Report(false, t + 1, Some(Violation(rows[t].id,
                                        if CommitmentBesides(hash, rows, k, rows[t].id) == None
                                        then RedactionCommitmentMissing else RedactedContentMismatch)))
  }

  lemma {:induction false} BesidesLater(hash: Content -> Text, rows: seq<Row>, k: nat, id: int)
    requires k < |rows| ==> !TrustedFor(hash, rows[k], id)
    ensures CommitmentBesides(hash, rows, k, id) == Commitment(hash, rows, id)
  {
    if rows != [] {
      BesidesLater(hash, rows[..|rows| - 1], k, id);
    }
  }

  /** A row that is no longer trusted drops out of the table. */
  lemma {:induction false} UntrustedRowDropsOut(hash: Content -> Text, rows: seq<Row>, k: nat, r: Row, id: int)
    requires k < |rows| && !Trusted(hash, r)
    ensures Commitment(hash, rows[k := r], id) == CommitmentBesides(hash, rows, k, id)
  {
    var n := |rows| - 1;
    var front := rows[..n];
    if n > k {
      UntrustedRowDropsOut(hash, front, k, r, id);
      assert rows[k := r][..n] == front[k := r];
    } else {
      assert rows[k := r][..n] == front;
      BesidesLater(hash, front, k, id);
    }
  }

  /** Without row `k` there is no commitment exactly when no other trusted companion names the id. */
  lemma {:induction false} BesidesNone(hash: Content -> Text, rows: seq<Row>, k: nat, id: int)
    ensures CommitmentBesides(hash, rows, k, id) == None
            <==> forall j :: 0 <= j < |rows| && j != k ==> !TrustedFor(hash, rows[j], id)
  {
    if rows != [] {
      var n := |rows| - 1;
      BesidesNone(hash, rows[..n], k, id);
      assert forall j :: 0 <= j < n ==> rows[..n][j] == rows[j];
    }
  }

  /** A companion of a reachable log is trusted, unredacted, and names an earlier redacted row. */
  lemma ReachableTarget(d: Digests, s: State, k: nat) returns (t: nat)
    requires Inv(d, s) && k < |s.rows| && EventType(s.rows[k]) == REDACTION_EVENT_TYPE
    ensures Target(s.rows, k) == Some(t) && t < k && s.rows[t].redactedAt.Some?
    ensures TrustedFor(d.content, s.rows[k], s.rows[t].id) && s.rows[k].redactedAt.None?
  {
    assert GoodCompanion(s.rows, k);
    assert FromOrigin(d.content, s.rows[k], s.origin[k]);
    t :| 0 <= t < k && s.rows[t].id == DeclaredBy(Payload(s.rows[k])).target && s.rows[t].redactedAt.Some?;
    FindAt(s.rows, t);
  }

  /** Nobody but its target can depend on a row. */
  lemma OnlyTargetDepends(d: Digests, s: State, k: nat, j: nat)
    requires Inv(d, s) && k < |s.rows| && j < |s.rows| && !Independent(d.content, s.rows, k, j)
    ensures Dependent(d.content, s.rows, k) == Some(j) && j < k
  {
    assert TrustedFor(d.content, s.rows[k], s.rows[j].id) by {
      if !TrustedFor(d.content, s.rows[k], s.rows[j].id) {
        BesidesLater(d.content, s.rows, k, s.rows[j].id);
      }
    }
    var t := ReachableTarget(d, s, k);
    assert s.rows[t].id == s.rows[j].id;
    assert t == j;
  }

  /** A row's only companion is never dispensable. */
  lemma OnlyCompanionMatters(d: Digests, s: State, k: nat, i: nat)
    requires Inv(d, s) && k < |s.rows| && i < |s.rows|
    requires TrustedFor(d.content, s.rows[k], s.rows[i].id)
    requires forall j :: 0 <= j < |s.rows| && j != k ==> !TrustedFor(d.content, s.rows[j], s.rows[i].id)
    ensures Dependent(d.content, s.rows, k) == Some(i)
    ensures LossAt(d.content, s.rows, k, i) ==
            Report(false, i + 1, Some(Violation(s.rows[i].id, RedactionCommitmentMissing)))
  {
    BesidesNone(d.content, s.rows, k, s.rows[i].id);
    MissingMeansNone(d.content, s.rows, s.rows[i].id);
    OnlyTargetDepends(d, s, k, i);
  }
}
