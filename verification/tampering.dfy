/** What edits, deletions and reorderings of a stored log `verify_chain` cannot overlook. */
module Tampering {
  import opened Texts
  import opened Jsons
  import opened Wrappers
  import opened AuditLog
  import opened ChainVerification
  import opened Hashing
  import opened System
  import opened Invariants
  import opened Dependence

  // ----- what agreement up to dict order preserves -----

  /** Values that agree up to dict order are equal, or both lists, or both dicts. */
  predicate Alike(v: Option<Json>, w: Option<Json>) {
    || v == w
    || (v.Some? && w.Some? && v.value.Arr? && w.value.Arr?)
    || (v.Some? && w.Some? && v.value.Obj? && w.value.Obj?)
  }

  lemma LookupsAlike(p: Dict, q: Dict, k: Text)
    requires NormalizeDict(p) == NormalizeDict(q)
    ensures Alike(Lookup(p, k), Lookup(q, k))
  {
    LookupNormalizeDict(p, k);
    LookupNormalizeDict(q, k);
  }

  /** Contents that agree up to dict order declare the same. */
  lemma CanonDeclares(c: Content, c': Content)
    requires Canon(c) == Canon(c')
    ensures DeclaredBy(c.request.payload) == DeclaredBy(c'.request.payload)
    ensures c.request.eventType == c'.request.eventType && c.previousHash == c'.previousHash
  {
    assert CanonRequest(c.request) == CanonRequest(c'.request);
    LookupsAlike(c.request.payload, c'.request.payload, Lit("targetEventId"));
    LookupsAlike(c.request.payload, c'.request.payload, Lit("redactedContentHash"));
  }

  // ----- binding through redaction -----

  /** Commitments come after the rows they are for. */
  ghost predicate CommittedLater(hash: Content -> Text, rows: seq<Row>) {
    forall i, k :: 0 <= i < |rows| && Newest(hash, rows, rows[i].id, k) ==> i < k
  }

  lemma ReachableCommitsLater(d: Digests, s: State)
    requires Inv(d, s)
    ensures CommittedLater(d.content, s.rows)
  {
    forall i, k | 0 <= i < |s.rows| && Newest(d.content, s.rows, s.rows[i].id, k)
      ensures i < k
    {
      assert GoodCompanion(s.rows, k);
      var t :| 0 <= t < k && s.rows[t].id == DeclaredBy(Payload(s.rows[k])).target;
      assert t == i;
    }
  }

  /** Two logs an auditor would take for the same: as many rows, the same ids, the same rows
      flagged as redacted, the same hash at the end. */
  ghost predicate SameOutline(a: seq<Row>, b: seq<Row>) {
    && |a| == |b|
    && (forall i :: 0 <= i < |a| ==> a[i].id == b[i].id && a[i].redactedAt.Some? == b[i].redactedAt.Some?)
    && (a != [] ==> a[|a| - 1].eventHash == b[|a| - 1].eventHash)
  }

  /** Same stored hash, same hashed content up to dict order. */
  predicate SameRecord(hash: Content -> Text, r: Row, t: Row) {
    r.eventHash == t.eventHash && hash(r.content) == hash(t.content) && Canon(r.content) == Canon(t.content)
  }

  ghost predicate SameFrom(hash: Content -> Text, a: seq<Row>, b: seq<Row>, n: nat) {
    |a| == |b| && forall i :: n <= i < |a| ==> SameRecord(hash, a[i], b[i])
  }

  /** A commitment newer than row `n` in one log is the newest in the other too. */
  lemma NewestCarriesOver(hash: Content -> Text, a: seq<Row>, b: seq<Row>, n: nat, id: int, k: int)
    requires SameFrom(hash, a, b, n) && n <= k && Newest(hash, a, id, k)
    ensures Newest(hash, b, id, k)
    ensures DeclaredBy(Payload(a[k])) == DeclaredBy(Payload(b[k]))
  {
    forall j | n <= j < |a|
      ensures TrustedFor(hash, a[j], id) == TrustedFor(hash, b[j], id)
      ensures DeclaredBy(Payload(a[j])) == DeclaredBy(Payload(b[j]))
    {
      assert SameRecord(hash, a[j], b[j]);
      CanonDeclares(a[j].content, b[j].content);
    }
  }

  /** One step of the backward walk: the row before position `n + 1` is pinned by what follows. */
  lemma RowPinned(hash: Content -> Text, a: seq<Row>, b: seq<Row>, n: nat)
    requires SameOutline(a, b) && n < |a|
    requires AllPass(hash, a, |a|) && AllPass(hash, b, |b|)
    requires CommittedLater(hash, a)
    requires Faithful(hash, Contents(a) + Contents(b))
    requires SameFrom(hash, a, b, n + 1)
    requires a[n].eventHash == b[n].eventHash
    ensures SameRecord(hash, a[n], b[n])
  {
    assert Passes(hash, a, n) && Passes(hash, b, n);
    if a[n].redactedAt.Some? {
      var k :| && Newest(hash, a, a[n].id, k)
               && DeclaredBy(Payload(a[k])).commitment == Some(hash(a[n].content));
      assert n < k;
      NewestCarriesOver(hash, a, b, n + 1, a[n].id, k);
      CommitmentIsNewest(hash, b, b[n].id);
      AuthenticMeansCommitted(hash, b, n);
    }
    assert a[n].content in Contents(a) + Contents(b) && b[n].content in Contents(a) + Contents(b);
  }

  /** Equal records link to equal predecessors. */
  lemma PredecessorHash(hash: Content -> Text, a: seq<Row>, b: seq<Row>, n: nat)
    requires SameOutline(a, b) && n < |a| && SameFrom(hash, a, b, n + 1)
    requires AllPass(hash, a, |a|) && AllPass(hash, b, |b|)
    ensures a[n].eventHash == b[n].eventHash
  {
    if n + 1 < |a| {
      assert SameRecord(hash, a[n + 1], b[n + 1]);
      CanonDeclares(a[n + 1].content, b[n + 1].content);
      assert Passes(hash, a, n + 1) && Passes(hash, b, n + 1);
    }
  }

  lemma SameFromStep(hash: Content -> Text, a: seq<Row>, b: seq<Row>, n: nat)
    requires n < |a| && SameFrom(hash, a, b, n + 1) && SameRecord(hash, a[n], b[n])
    ensures SameFrom(hash, a, b, n)
  {
  }

  /** An intact log with the outline of an intact log whose commitments come later is that log:
      every hash and, dict order aside, every hashed field. */
  lemma {:induction false} Binding(hash: Content -> Text, a: seq<Row>, b: seq<Row>, n: nat)
    requires SameOutline(a, b) && n <= |a|
    requires AllPass(hash, a, |a|) && AllPass(hash, b, |b|)
    requires CommittedLater(hash, a)
    requires Faithful(hash, Contents(a) + Contents(b))
    ensures SameFrom(hash, a, b, n)
    decreases |a| - n
  {
    if n < |a| {
      Binding(hash, a, b, n + 1);
      PredecessorHash(hash, a, b, n);
      RowPinned(hash, a, b, n);
      SameFromStep(hash, a, b, n);
    }
  }

  /** Any log that verifies and looks from outside like a reachable quiescent one is that one. */
  lemma BindingOfReachableLogs(d: Digests, steps: seq<Step>, b: seq<Row>)
    requires ValidRun(d, steps) && Quiescent(After(d, steps))
    requires VerdictOf(d.content, b).Report? && VerdictOf(d.content, b).intact
    requires SameOutline(After(d, steps).rows, b)
    requires Faithful(d.content, Contents(After(d, steps).rows) + Contents(b))
    ensures var a := After(d, steps).rows;
            |a| == |b| && forall i :: 0 <= i < |a| ==> SameRecord(d.content, a[i], b[i])
  {
    var s := After(d, steps);
    RunKeepsInv(d, steps);
    QuiescentIsIntact(d, s);
    ReachableCommitsLater(d, s);
    Binding(d.content, s.rows, b, 0);
  }

  // ----- no fork -----

  /** The contents a log's hashes were computed from. */
  function Origins(s: State): (r: set<Content>)
    ensures forall i :: 0 <= i < |s.origin| ==> s.origin[i] in r
  {
    set c | c in s.origin
  }

  /** Rows that link to different predecessors have different hashes. */
  lemma OtherLinkOtherHash(d: Digests, s: State, i: nat, j: nat)
    requires Chained(d.content, s.rows, s.origin) && Faithful(d.content, Origins(s))
    requires i < |s.rows| && j < |s.rows|
    requires s.rows[i].content.previousHash != s.rows[j].content.previousHash
    ensures s.rows[i].eventHash != s.rows[j].eventHash
  {
    assert FromOrigin(d.content, s.rows[i], s.origin[i]) && FromOrigin(d.content, s.rows[j], s.origin[j]);
    assert s.origin[i] in Origins(s) && s.origin[j] in Origins(s);
    assert Canon(s.origin[i]) != Canon(s.origin[j]);
  }

  lemma NoGenesis(d: Digests, s: State, i: nat)
    requires Chained(d.content, s.rows, s.origin) && AvoidsGenesis(d.content, Origins(s))
    requires i < |s.rows|
    ensures s.rows[i].eventHash != GENESIS_HASH
  {
    assert FromOrigin(d.content, s.rows[i], s.origin[i]);
    assert s.origin[i] in Origins(s);
  }

  /** Descent along the chain: equal links would mean equal hashes, or the genesis value, one row
      earlier. */
  lemma {:induction false} LinksDistinct(d: Digests, s: State, i: nat, j: nat)
    requires Chained(d.content, s.rows, s.origin)
    requires Faithful(d.content, Origins(s)) && AvoidsGenesis(d.content, Origins(s))
    requires i < j < |s.rows|
    ensures s.rows[i].content.previousHash != s.rows[j].content.previousHash
    decreases i
  {
    if i > 0 {
      LinksDistinct(d, s, i - 1, j - 1);
      OtherLinkOtherHash(d, s, i - 1, j - 1);
    } else {
      NoGenesis(d, s, j - 1);
    }
    LinksAreHashes(s.rows, i, j);
  }

  lemma LinksAreHashes(rows: seq<Row>, i: nat, j: nat)
    requires i < j < |rows| && forall k {:trigger Linked(rows, k)} :: 0 <= k < |rows| ==> Linked(rows, k)
    ensures rows[i].content.previousHash == if i == 0 then GENESIS_HASH else rows[i - 1].eventHash
    ensures rows[j].content.previousHash == rows[j - 1].eventHash
  {
    assert Linked(rows, i) && Linked(rows, j);
  }

  lemma HashesDistinct(d: Digests, s: State, i: nat, j: nat)
    requires Chained(d.content, s.rows, s.origin)
    requires Faithful(d.content, Origins(s)) && AvoidsGenesis(d.content, Origins(s))
    requires i < j < |s.rows|
    ensures s.rows[i].eventHash != s.rows[j].eventHash
  {
    LinksDistinct(d, s, i, j);
    OtherLinkOtherHash(d, s, i, j);
  }

  /** No row twice in the chain, and no two rows after the same one. */
  ghost predicate Unforked(rows: seq<Row>) {
    && (forall i, j :: 0 <= i < j < |rows| ==>
          && rows[i].eventHash != rows[j].eventHash
          && rows[i].content.previousHash != rows[j].content.previousHash)
    && (forall i :: 0 <= i < |rows| ==> rows[i].eventHash != GENESIS_HASH)
  }

  lemma ChainedIsUnforked(d: Digests, s: State)
    requires Chained(d.content, s.rows, s.origin)
    requires Faithful(d.content, Origins(s)) && AvoidsGenesis(d.content, Origins(s))
    ensures Unforked(s.rows)
  {
    forall i, j | 0 <= i < j < |s.rows|
      ensures s.rows[i].eventHash != s.rows[j].eventHash
      ensures s.rows[i].content.previousHash != s.rows[j].content.previousHash
    {
      HashesDistinct(d, s, i, j);
      LinksDistinct(d, s, i, j);
    }
    forall i | 0 <= i < |s.rows|
      ensures s.rows[i].eventHash != GENESIS_HASH
    {
      NoGenesis(d, s, i);
    }
  }

  lemma UnforkedPrefix(rows: seq<Row>, r: Row)
    requires Unforked(rows + [r])
    ensures Unforked(rows)
    ensures forall i :: 0 <= i < |rows| ==> rows[i].eventHash != r.eventHash
  {
    var t := rows + [r];
    assert forall i :: 0 <= i < |rows| ==> rows[i] == t[i];
    assert t[|rows|] == r;
  }

  /** In every reachable state all hashes are distinct and none is the genesis value, no two rows
      share a predecessor, and an append computes a hash no row has: the unique constraint on
      `event_hash` stays silent. */
  lemma NoFork(d: Digests, steps: seq<Step>, request: Request, timestamp: int)
    requires ValidRun(d, steps)
    requires var next := Append(d, After(d, steps), request, timestamp);
             Faithful(d.content, Origins(next)) && AvoidsGenesis(d.content, Origins(next))
    ensures var rows := After(d, steps).rows;
            && Unforked(rows)
            && forall i :: 0 <= i < |rows| ==>
                 rows[i].eventHash != d.content(NewContent(rows, request, timestamp))
  {
    var s := After(d, steps);
    RunKeepsInv(d, steps);
    AppendKeepsChain(d, s, request, timestamp);
    ChainedIsUnforked(d, Append(d, s, request, timestamp));
    UnforkedPrefix(s.rows, NewRow(d.content, s.nextId, NewContent(s.rows, request, timestamp)));
  }

  // ----- deletion, reordering, duplication -----

  /** Only one row links to a given predecessor. */
  lemma LinkPosition(rows: seq<Row>, n: nat, m: nat)
    requires 0 < n <= |rows| && m < |rows|
    requires Unforked(rows) && Linked(rows, m)
    requires rows[m].content.previousHash == rows[n - 1].eventHash
    ensures m == n
  {
  }

  lemma {:induction false} DrawnIsPrefix(rows: seq<Row>, drawn: seq<Row>)
    requires Unforked(rows) && forall i {:trigger Linked(rows, i)} :: 0 <= i < |rows| ==> Linked(rows, i)
    requires forall i :: 0 <= i < |drawn| ==> drawn[i] in rows
    requires forall i {:trigger Linked(drawn, i)} :: 0 <= i < |drawn| ==> Linked(drawn, i)
    ensures drawn <= rows
  {
    if drawn != [] {
      var n := |drawn| - 1;
      var front := drawn[..n];
      forall i | 0 <= i < n
        ensures Linked(front, i)
      {
        assert Linked(drawn, i);
      }
      DrawnIsPrefix(rows, front);
      assert drawn[n] in rows;
      var m :| 0 <= m < |rows| && rows[m] == drawn[n];
      assert Linked(drawn, n) && Linked(rows, m);
      if n == 0 {
        assert m == 0;
      } else {
        assert front[n - 1] == rows[n - 1];
        LinkPosition(rows, n, m);
      }
    }
  }

  /** Rows drawn from a reachable log in any order, with any left out or repeated, verify only as
      a prefix of that log. */
  lemma OnlyPrefixesVerify(d: Digests, steps: seq<Step>, drawn: seq<Row>)
    requires ValidRun(d, steps)
    requires Faithful(d.content, Origins(After(d, steps))) && AvoidsGenesis(d.content, Origins(After(d, steps)))
    requires forall i :: 0 <= i < |drawn| ==> drawn[i] in After(d, steps).rows
    requires VerdictOf(d.content, drawn).Report? && VerdictOf(d.content, drawn).intact
    ensures drawn <= After(d, steps).rows
  {
    RunKeepsInv(d, steps);
    ChainedIsUnforked(d, After(d, steps));
    forall i | 0 <= i < |drawn|
      ensures Linked(drawn, i)
    {
      assert Passes(d.content, drawn, i);
    }
    DrawnIsPrefix(After(d, steps).rows, drawn);
  }

  // ----- edits -----

  /** Row `k` with other content under its stored hash. */
  function Edited(rows: seq<Row>, k: nat, content: Content): seq<Row>
    requires k < |rows|
  {
    rows[k := rows[k].(content := content)]
  }

  /** An edited row is no source of commitments. */
  lemma EditedRowUntrusted(d: Digests, s: State, k: nat, content: Content)
    requires Inv(d, s) && k < |s.rows|
    requires Canon(content) != Canon(s.rows[k].content)
    requires Faithful(d.content, Contents(s.rows) + Origins(s) + {content})
    ensures !Trusted(d.content, Edited(s.rows, k, content)[k])
    ensures d.content(content) != d.content(s.rows[k].content)
  {
    var all := Contents(s.rows) + Origins(s) + {content};
    assert s.rows[k].content in all && s.origin[k] in all && content in all;
    assert FromOrigin(d.content, s.rows[k], s.origin[k]);
    assert EventType(s.rows[k]) == REDACTION_EVENT_TYPE ==> GoodCompanion(s.rows, k);
    if d.content(content) == s.rows[k].eventHash {
      assert Canon(content) == Canon(s.origin[k]);
      CanonDeclares(content, s.origin[k]);
    }
  }

  /** A row that was not edited fails exactly when it depended on the edited one. */
  lemma RowAfterEdit(d: Digests, s: State, k: nat, content: Content, j: nat)
    requires Inv(d, s) && Quiescent(s) && k < |s.rows| && j < |s.rows| && j != k
    requires !Trusted(d.content, Edited(s.rows, k, content)[k])
    ensures Passes(d.content, Edited(s.rows, k, content), j)
            <==> Independent(d.content, s.rows, k, j) || s.rows[j].redactedAt.None?
  {
    var b := Edited(s.rows, k, content);
    OnlyGapRowsFail(d, s, j);
    assert LinkBefore(b, j) == LinkBefore(s.rows, j);
    UntrustedRowDropsOut(d.content, s.rows, k, b[k], s.rows[j].id);
    if s.rows[j].redactedAt.Some? {
      AuthenticMeansCommitted(d.content, s.rows, j);
      AuthenticMeansCommitted(d.content, b, j);
    }
  }

  /** The edited row fails its content check, with the type its redaction flag selects. */
  lemma EditedRowFails(d: Digests, s: State, k: nat, content: Content)
    requires Inv(d, s) && Quiescent(s) && k < |s.rows|
    requires !Trusted(d.content, Edited(s.rows, k, content)[k])
    requires d.content(content) != d.content(s.rows[k].content)
    ensures var b := Edited(s.rows, k, content);
            && !Authentic(d.content, b, k)
            && ViolationAt(d.content, b, k) ==
                 if s.rows[k].redactedAt.Some? then RedactedContentMismatch else EventHashMismatch
  {
    var b := Edited(s.rows, k, content);
    OnlyGapRowsFail(d, s, k);
    if s.rows[k].redactedAt.Some? {
      assert Independent(d.content, s.rows, k, k) by {
        if !Independent(d.content, s.rows, k, k) {
          OnlyTargetDepends(d, s, k, k);
        }
      }
      AuthenticMeansCommitted(d.content, s.rows, k);
      UntrustedRowDropsOut(d.content, s.rows, k, b[k], b[k].id);
      RowStatus(d.content, b, k);
    }
  }

  /** The dependent of an edited companion fails for the commitment it has lost. */
  lemma DependentFails(d: Digests, s: State, k: nat, content: Content, t: nat)
    requires Inv(d, s) && Quiescent(s) && k < |s.rows| && Dependent(d.content, s.rows, k) == Some(t)
    requires !Trusted(d.content, Edited(s.rows, k, content)[k])
    ensures t < k && s.rows[t].redactedAt.Some?
    ensures var b := Edited(s.rows, k, content);
            && !Passes(d.content, b, t)
            && LossAt(d.content, s.rows, k, t) ==
               Report(false, t + 1, Some(Violation(b[t].id, ViolationAt(d.content, b, t))))
  {
    var b := Edited(s.rows, k, content);
    var u := ReachableTarget(d, s, k);
    OnlyGapRowsFail(d, s, t);
    AuthenticMeansCommitted(d.content, s.rows, t);
    UntrustedRowDropsOut(d.content, s.rows, k, b[k], b[t].id);
    RowStatus(d.content, b, t);
  }

  lemma EditPoisonsNothing(d: Digests, s: State, k: nat, content: Content)
    requires Inv(d, s) && k < |s.rows| && !Trusted(d.content, Edited(s.rows, k, content)[k])
    ensures !Poisoned(d.content, Edited(s.rows, k, content))
  {
    var b := Edited(s.rows, k, content);
    forall i | 0 <= i < |b| && Trusted(d.content, b[i])
      ensures !DeclaredBy(Payload(b[i])).Unhashable?
    {
      assert b[i] == s.rows[i];
      assert GoodCompanion(s.rows, i);
    }
  }

  /** The report of an edit of row `k`: at the redacted row that depended on it, if there is one,
      and else at row `k` with the type its redaction flag selects. */
  function EditReport(hash: Content -> Text, rows: seq<Row>, k: nat): Verdict
    requires k < |rows|
  {
    match Dependent(hash, rows, k)
    case Some(t) => LossAt(hash, rows, k, t)
    case None =>
      Report(false, k + 1, Some(Violation(rows[k].id,
                                          if rows[k].redactedAt.Some? then RedactedContentMismatch else EventHashMismatch)))
  }

  lemma EditVerdict(d: Digests, s: State, k: nat, content: Content)
    requires Inv(d, s) && Quiescent(s) && k < |s.rows|
    requires !Trusted(d.content, Edited(s.rows, k, content)[k])
    requires d.content(content) != d.content(s.rows[k].content)
    ensures VerdictOf(d.content, Edited(s.rows, k, content)) == EditReport(d.content, s.rows, k)
  {
    var b := Edited(s.rows, k, content);
    var dependent := Dependent(d.content, s.rows, k);
    var f := if dependent.Some? then dependent.value else k;
    EditPoisonsNothing(d, s, k, content);
    EditedRowFails(d, s, k, content);
    if dependent.Some? {
      DependentFails(d, s, k, content, f);
    }
    forall j | 0 <= j < f
      ensures Passes(d.content, b, j)
    {
      RowAfterEdit(d, s, k, content, j);
      if !Independent(d.content, s.rows, k, j) {
        OnlyTargetDepends(d, s, k, j);
      }
    }
    Reported(d.content, b, f, EditReport(d.content, s.rows, k));
  }

  /** Change the content of one row of a reachable quiescent log, leaving its stored hash alone:
      this is what verification reports. */
  lemma EditAttribution(d: Digests, steps: seq<Step>, k: nat, content: Content)
    requires ValidRun(d, steps) && Quiescent(After(d, steps)) && k < |After(d, steps).rows|
    requires Canon(content) != Canon(After(d, steps).rows[k].content)
    requires Faithful(d.content, Contents(After(d, steps).rows) + Origins(After(d, steps)) + {content})
    ensures var rows := After(d, steps).rows;
            VerdictOf(d.content, Edited(rows, k, content)) == EditReport(d.content, rows, k)
  {
    RunKeepsInv(d, steps);
    EditedRowUntrusted(d, After(d, steps), k, content);
    EditVerdict(d, After(d, steps), k, content);
  }

  /** The report names the target of an edited companion as one without a commitment, as
      docs/redaction-design.md:119 has it, exactly when no other companion names that target. */
  lemma CompanionEditAsDocumented(d: Digests, steps: seq<Step>, k: nat, content: Content) returns (t: nat)
    requires ValidRun(d, steps) && Quiescent(After(d, steps)) && k < |After(d, steps).rows|
    requires EventType(After(d, steps).rows[k]) == REDACTION_EVENT_TYPE
    requires Canon(content) != Canon(After(d, steps).rows[k].content)
    requires Faithful(d.content, Contents(After(d, steps).rows) + Origins(After(d, steps)) + {content})
    ensures t < k && Target(After(d, steps).rows, k) == Some(t)
    ensures var rows := After(d, steps).rows;
            VerdictOf(d.content, Edited(rows, k, content))
            == Report(false, t + 1, Some(Violation(rows[t].id, RedactionCommitmentMissing)))
            <==> forall j :: 0 <= j < |rows| && j != k ==> !TrustedFor(d.content, rows[j], rows[t].id)
  {
    var s := After(d, steps);
    RunKeepsInv(d, steps);
    t := ReachableTarget(d, s, k);
    EditAttribution(d, steps, k, content);
    BesidesNone(d.content, s.rows, k, s.rows[t].id);
    MissingMeansNone(d.content, s.rows, s.rows[t].id);
  }

  // ----- the frozen hash of a redacted row -----

  lemma LastRowNotRedacted(d: Digests, s: State)
    requires Inv(d, s) && Quiescent(s) && s.rows != []
    ensures s.rows[|s.rows| - 1].redactedAt.None?
  {
    var n := |s.rows| - 1;
    OnlyGapRowsFail(d, s, n);
    if s.rows[n].redactedAt.Some? {
      var m :| Newest(d.content, s.rows, s.rows[n].id, m);
      ReachableCommitsLater(d, s);
    }
  }

  /** Row `k` with another stored hash. */
  function Rehashed(rows: seq<Row>, k: nat, eventHash: Text): seq<Row>
    requires k < |rows|
  {
    rows[k := rows[k].(eventHash := eventHash)]
  }

  lemma RedactedIsNoCompanion(rows: seq<Row>, k: nat)
    requires GoodCompanions(rows) && k < |rows| && rows[k].redactedAt.Some?
    ensures EventType(rows[k]) != REDACTION_EVENT_TYPE
  {
  }

  /** Re-hashing a redacted row disturbs no content check and no other link. */
  lemma RehashLeavesOthers(d: Digests, s: State, k: nat, eventHash: Text, i: nat)
    requires Inv(d, s) && Quiescent(s) && k < |s.rows| && s.rows[k].redactedAt.Some? && i < |s.rows|
    ensures var b := Rehashed(s.rows, k, eventHash);
            Authentic(d.content, b, i) && (i != k + 1 ==> Linked(b, i))
  {
    var b := Rehashed(s.rows, k, eventHash);
    OnlyGapRowsFail(d, s, i);
    RedactedIsNoCompanion(s.rows, k);
    if s.rows[i].redactedAt.Some? {
      AuthenticMeansCommitted(d.content, s.rows, i);
      CommitmentFrame(d.content, s.rows, b, b[i].id);
      AuthenticMeansCommitted(d.content, b, i);
    }
  }

  lemma RehashPoisonsNothing(d: Digests, s: State, k: nat, eventHash: Text)
    requires Inv(d, s) && k < |s.rows| && s.rows[k].redactedAt.Some?
    ensures !Poisoned(d.content, Rehashed(s.rows, k, eventHash))
  {
    var b := Rehashed(s.rows, k, eventHash);
    RedactedIsNoCompanion(s.rows, k);
    forall i | 0 <= i < |b| && Trusted(d.content, b[i])
      ensures !DeclaredBy(Payload(b[i])).Unhashable?
    {
      assert GoodCompanion(s.rows, i);
    }
  }

  lemma SuccessorFails(d: Digests, s: State, k: nat, eventHash: Text)
    requires Inv(d, s) && Quiescent(s) && k + 1 < |s.rows| && s.rows[k].redactedAt.Some?
    requires eventHash != s.rows[k].eventHash
    ensures var b := Rehashed(s.rows, k, eventHash);
            && AllPass(d.content, b, k + 1)
            && Authentic(d.content, b, k + 1) && !Linked(b, k + 1)
  {
    var b := Rehashed(s.rows, k, eventHash);
    forall i | 0 <= i <= k + 1
      ensures Authentic(d.content, b, i) && (i != k + 1 ==> Linked(b, i))
    {
      RehashLeavesOthers(d, s, k, eventHash, i);
    }
    OnlyGapRowsFail(d, s, k + 1);
  }

  /** A redacted row's stored hash is frozen: no check reads it but its successor's, which every
      redacted row of a reachable quiescent log has, and which reports any change. */
  lemma FrozenHashProtected(d: Digests, steps: seq<Step>, k: nat, eventHash: Text)
    requires ValidRun(d, steps) && Quiescent(After(d, steps)) && k < |After(d, steps).rows|
    requires After(d, steps).rows[k].redactedAt.Some?
    requires eventHash != After(d, steps).rows[k].eventHash
    ensures var rows := After(d, steps).rows;
            && k + 1 < |rows|
            && VerdictOf(d.content, Rehashed(rows, k, eventHash))
               == Report(false, k + 2, Some(Violation(rows[k + 1].id, PreviousHashMismatch)))
  {
    var s := After(d, steps);
    RunKeepsInv(d, steps);
    LastRowNotRedacted(d, s);
    SuccessorFails(d, s, k, eventHash);
    RehashPoisonsNothing(d, s, k, eventHash);
    Reported(d.content, Rehashed(s.rows, k, eventHash), k + 1,
             Report(false, k + 2, Some(Violation(s.rows[k + 1].id, PreviousHashMismatch))));
  }
}
