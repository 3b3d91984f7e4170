/** Two uses of companion rows that the runs of `System` leave out because the service takes their
    absence for granted without checking it: redacting a companion (docs/redaction-design.md:76
    says it never happens, app/services/redaction_service.py:74-81 lets it), and an ordinary append
    with the companions' event type. The verdicts here hold for every log that verifies, so they
    apply again to what such a use leaves behind. */
module Companions {
  import opened Texts
  import opened Jsons
  import opened Wrappers
  import opened AuditLog
  import opened ChainVerification
  import opened Hashing
  import opened System
  import opened Invariants
  import opened Dependence
  import opened Disclosure

  /** The log verifies. */
  ghost predicate Intact(hash: Content -> Text, rows: seq<Row>) {
    !Poisoned(hash, rows) && AllPass(hash, rows, |rows|)
  }

  lemma IntactMeansReported(hash: Content -> Text, rows: seq<Row>)
    ensures Intact(hash, rows) <==> VerdictOf(hash, rows) == Report(true, |rows|, None)
  {
  }

  // ----- redacting a companion: the row -----

  lemma {:induction false} PutSame(d: Dict, k: Text, v: Json)
    requires Lookup(d, k) == Some(v)
    ensures Put(d, k, v) == d
  {
    if d[0].key == k {
      assert d == [d[0]] + d[1..];
    } else {
      PutSame(d[1..], k, v);
      assert d == [d[0]] + d[1..];
    }
  }

  lemma {:induction false} OverwritingSame(payload: Dict, fields: seq<Text>, v: Json)
    requires forall f :: f in fields ==> Lookup(payload, f) == Some(v)
    ensures Overwritten(payload, fields, v) == payload
  {
    if fields != [] {
      var n := |fields| - 1;
      OverwritingSame(payload, fields[..n], v);
      assert fields[n] in fields;
      PutSame(payload, fields[n], v);
    }
  }

  /** A trusted companion stays trusted exactly when its fields already read like the marker, and
      then its content does not change at all. */
  lemma StandingKept(d: Digests, c: Row, fields: seq<Text>, now: int)
    requires Trusted(d.content, c)
    requires DistinctKeys(Payload(c)) && forall f :: f in fields ==> HasKey(Payload(c), f)
    requires Exact(d.content, c.content, RedactRow(d, c, fields, now).content)
    ensures AlreadyMarked(Payload(c), fields) ==> RedactRow(d, c, fields, now).content == c.content
    ensures Trusted(d.content, RedactRow(d, c, fields, now)) <==> AlreadyMarked(Payload(c), fields)
  {
    TombstonedUnchanged(c.content, fields);
    if AlreadyMarked(Payload(c), fields) {
      OverwritingSame(Payload(c), fields, Str(REDACTED_MARKER));
    }
  }

  // ----- redacting a companion: the log after both commits -----

  /** `r` is companion row `c` after a redaction. */
  ghost predicate RedactedCompanion(hash: Content -> Text, c: Row, r: Row) {
    && r.id == c.id && r.eventHash == c.eventHash && r.redactedAt.Some?
    && r.content.previousHash == c.content.previousHash
    && EventType(r) == EventType(c) == REDACTION_EVENT_TYPE
    && (Trusted(hash, r) ==> r.content == c.content)
  }

  /** `last` is the companion appended for it. */
  ghost predicate CompanionFor(hash: Content -> Text, rows: seq<Row>, r: Row, last: Row) {
    && last.redactedAt.None? && last.eventHash == hash(last.content)
    && EventType(last) == REDACTION_EVENT_TYPE
    && last.content.previousHash == LinkBefore(rows, |rows|)
    && DeclaredBy(Payload(last)) == Names(r.id, Some(hash(r.content)))
  }

  /** The log with companion row `k` redacted to `r`, and `last` after it. */
  function Afterwards(rows: seq<Row>, k: nat, r: Row, last: Row): seq<Row>
    requires k < |rows|
  {
    rows[k := r] + [last]
  }

  /** Companion row `k` of a log that verifies, redacted to `r`, and a companion `last` for it. */
  ghost predicate Redacts(hash: Content -> Text, rows: seq<Row>, k: nat, r: Row, last: Row) {
    && Intact(hash, rows) && AscendingIds(rows) && k < |rows|
    && RedactedCompanion(hash, rows[k], r) && CompanionFor(hash, rows[k := r], r, last)
  }

  /** The commitment table afterwards: the redacted companion's own entry, and for every other
      row what the other companions say, unless the redacted one kept its standing. */
  lemma TableAfterwards(hash: Content -> Text, rows: seq<Row>, k: nat, r: Row, last: Row, id: int)
    requires k < |rows| && RedactedCompanion(hash, rows[k], r) && CompanionFor(hash, rows[k := r], r, last)
    ensures Commitment(hash, Afterwards(rows, k, r, last), id) ==
              if id == r.id then Some(Some(hash(r.content)))
              else if Trusted(hash, r) then Commitment(hash, rows, id)
              else CommitmentBesides(hash, rows, k, id)
  {
    CommitmentAppend(hash, rows[k := r], last, id);
    if id != r.id {
      if Trusted(hash, r) {
        CommitmentFrame(hash, rows, rows[k := r], id);
      } else {
        UntrustedRowDropsOut(hash, rows, k, r, id);
      }
    }
  }

  lemma StillLinked(rows: seq<Row>, k: nat, r: Row, last: Row, j: nat)
    requires k < |rows| && j < |rows| && Linked(rows, j)
    requires r.eventHash == rows[k].eventHash && r.content.previousHash == rows[k].content.previousHash
    ensures Linked(Afterwards(rows, k, r, last), j)
  {
  }

  /** Row by row: only a redacted row the other companions do not vouch for fails. */
  lemma RowAfterwards(hash: Content -> Text, rows: seq<Row>, k: nat, r: Row, last: Row, j: nat)
    requires Redacts(hash, rows, k, r, last) && j < |rows|
    ensures Passes(hash, Afterwards(rows, k, r, last), j)
            <==> j == k || rows[j].redactedAt.None? || Trusted(hash, r) || Independent(hash, rows, k, j)
  {
    var after := Afterwards(rows, k, r, last);
    assert Passes(hash, rows, j);
    StillLinked(rows, k, r, last, j);
    TableAfterwards(hash, rows, k, r, last, rows[j].id);
    if j == k {
      AuthenticMeansCommitted(hash, after, j);
    } else if rows[j].redactedAt.Some? {
      AuthenticMeansCommitted(hash, after, j);
      AuthenticMeansCommitted(hash, rows, j);
    }
  }

  lemma LastRowPasses(hash: Content -> Text, rows: seq<Row>, k: nat, r: Row, last: Row)
    requires Redacts(hash, rows, k, r, last)
    ensures Passes(hash, Afterwards(rows, k, r, last), |rows|)
  {
    var after := Afterwards(rows, k, r, last);
    assert after[|rows|] == last;
    assert LinkBefore(after, |rows|) == LinkBefore(rows[k := r], |rows|);
  }

  lemma StillUnpoisoned(hash: Content -> Text, rows: seq<Row>, k: nat, r: Row, last: Row)
    requires Redacts(hash, rows, k, r, last)
    ensures !Poisoned(hash, Afterwards(rows, k, r, last))
  {
    var after := Afterwards(rows, k, r, last);
    forall j | 0 <= j < |after| && Trusted(hash, after[j])
      ensures !DeclaredBy(Payload(after[j])).Unhashable?
    {
      if j < |rows| {
        assert after[j].content == rows[j].content && after[j].eventHash == rows[j].eventHash;
        assert Trusted(hash, rows[j]);
      }
    }
  }

  /** Who depends on row `k` is the one row it names. */
  lemma DependentIsTarget(hash: Content -> Text, rows: seq<Row>, k: nat, j: nat)
    requires AscendingIds(rows) && k < |rows| && j < |rows| && !Independent(hash, rows, k, j)
    ensures Dependent(hash, rows, k) == Some(j)
  {
    assert TrustedFor(hash, rows[k], rows[j].id) by {
      if !TrustedFor(hash, rows[k], rows[j].id) {
        BesidesLater(hash, rows, k, rows[j].id);
      }
    }
    FindAt(rows, j);
  }

  /** The row that loses its commitment with companion row `k`, unless that keeps its standing. */
  function Loser(hash: Content -> Text, rows: seq<Row>, k: nat, stands: bool): (t: Option<nat>)
    requires k < |rows|
    ensures t.Some? ==> t.value < |rows|
  {
    var t := Dependent(hash, rows, k);
    if stands || t.None? || t.value == k || rows[t.value].redactedAt.None? then None else t
  }

  /** What verification says after companion row `k` was redacted. */
  function RedactionReport(hash: Content -> Text, rows: seq<Row>, k: nat, stands: bool): Verdict
    requires k < |rows|
  {
    match Loser(hash, rows, k, stands)
    case Some(t) => LossAt(hash, rows, k, t)
    case None => Report(true, |rows| + 1, None)
  }

  lemma DependentAfterwards(hash: Content -> Text, rows: seq<Row>, k: nat, r: Row, last: Row, t: nat)
    requires Redacts(hash, rows, k, r, last) && Loser(hash, rows, k, Trusted(hash, r)) == Some(t)
    ensures var after := Afterwards(rows, k, r, last);
            LossAt(hash, rows, k, t) == Report(false, t + 1, Some(Violation(after[t].id, ViolationAt(hash, after, t))))
  {
    var after := Afterwards(rows, k, r, last);
    assert Passes(hash, rows, t);
    assert rows[t].id != r.id;
    AuthenticMeansCommitted(hash, rows, t);
    TableAfterwards(hash, rows, k, r, last, rows[t].id);
    RowStatus(hash, after, t);
  }

  /** The one row that loses its commitment is the one row that fails. */
  lemma LoserFails(hash: Content -> Text, rows: seq<Row>, k: nat, r: Row, last: Row, j: nat)
    requires Redacts(hash, rows, k, r, last) && j <= |rows|
    ensures Passes(hash, Afterwards(rows, k, r, last), j) <==> Loser(hash, rows, k, Trusted(hash, r)) != Some(j)
  {
    if j == |rows| {
      LastRowPasses(hash, rows, k, r, last);
    } else {
      RowAfterwards(hash, rows, k, r, last, j);
      if !Independent(hash, rows, k, j) {
        DependentIsTarget(hash, rows, k, j);
      }
    }
  }

  lemma VerdictAfterwards(hash: Content -> Text, rows: seq<Row>, k: nat, r: Row, last: Row)
    requires Redacts(hash, rows, k, r, last)
    ensures VerdictOf(hash, Afterwards(rows, k, r, last)) == RedactionReport(hash, rows, k, Trusted(hash, r))
  {
    var loser := Loser(hash, rows, k, Trusted(hash, r));
    var suspect := if loser.Some? then loser.value else |rows|;
    StillUnpoisoned(hash, rows, k, r, last);
    forall j | 0 <= j <= |rows|
      ensures Passes(hash, Afterwards(rows, k, r, last), j) <==> loser != Some(j)
    {
      LoserFails(hash, rows, k, r, last, j);
    }
    OneSuspect(hash, Afterwards(rows, k, r, last), suspect);
    if loser.Some? {
      DependentAfterwards(hash, rows, k, r, last, suspect);
    }
  }

  lemma BothCommitsShape(d: Digests, s: State, k: nat, fields: seq<Text>, actorId: Text, reason: Option<Text>,
                         now: int, timestamp: int)
    requires k < |s.rows| && Trusted(d.content, s.rows[k])
    requires DistinctKeys(Payload(s.rows[k])) && forall f :: f in fields ==> HasKey(Payload(s.rows[k]), f)
    requires Exact(d.content, s.rows[k].content, RedactRow(d, s.rows[k], fields, now).content)
    ensures var r := RedactRow(d, s.rows[k], fields, now);
            var t := FirstCommit(d, s, k, fields, actorId, reason, now);
            var last := NewRow(d.content, s.nextId, NewContent(t.rows, CompanionRequest(r.id, t.live[r.id]), timestamp));
            && SecondCommit(d, t, s.rows[k].id, timestamp).rows == Afterwards(s.rows, k, r, last)
            && RedactedCompanion(d.content, s.rows[k], r)
            && CompanionFor(d.content, s.rows[k := r], r, last)
  {
    var t := FirstCommit(d, s, k, fields, actorId, reason, now);
    StandingKept(d, s.rows[k], fields, now);
    CompanionDeclares(s.rows[k].id, t.live[s.rows[k].id]);
  }

  /** Redact a trusted companion row of any log that verifies: this is what verification says
      afterwards. */
  lemma CompanionRedactionVerdict(d: Digests, s: State, k: nat, fields: seq<Text>, actorId: Text, reason: Option<Text>,
                                  now: int, timestamp: int)
    requires Intact(d.content, s.rows) && AscendingIds(s.rows) && k < |s.rows| && Trusted(d.content, s.rows[k])
    requires DistinctKeys(Payload(s.rows[k])) && forall f :: f in fields ==> HasKey(Payload(s.rows[k]), f)
    requires Exact(d.content, s.rows[k].content, RedactRow(d, s.rows[k], fields, now).content)
    ensures var t := SecondCommit(d, FirstCommit(d, s, k, fields, actorId, reason, now), s.rows[k].id, timestamp);
            VerdictOf(d.content, t.rows)
            == RedactionReport(d.content, s.rows, k, AlreadyMarked(Payload(s.rows[k]), fields))
  {
    var r := RedactRow(d, s.rows[k], fields, now);
    var first := FirstCommit(d, s, k, fields, actorId, reason, now);
    var last := NewRow(d.content, s.nextId, NewContent(first.rows, CompanionRequest(r.id, first.live[r.id]), timestamp));
    BothCommitsShape(d, s, k, fields, actorId, reason, now, timestamp);
    StandingKept(d, s.rows[k], fields, now);
    VerdictAfterwards(d.content, s.rows, k, r, last);
  }

  // ----- an ordinary append with the companions' event type -----

  /** The row such a payload names. */
  function Named(rows: seq<Row>, declared: Declared): (j: Option<nat>)
    ensures j.Some? ==> j.value < |rows| && declared.Names? && rows[j.value].id == declared.target
  {
    if declared.Names? then Find(rows, declared.target) else None
  }

  /** What verification says after it: an error, if the target is a list or dict; a mismatch at the
      row it names, if that row is redacted and holds other content; and else nothing. */
  function AppendReport(hash: Content -> Text, rows: seq<Row>, declared: Declared): Verdict {
    if declared.Unhashable? then TypeErrorRaised
    else
      match Named(rows, declared)
      case Some(j) =>
        if rows[j].redactedAt.Some? && declared.commitment != Some(hash(rows[j].content))
        then Report(false, j + 1, Some(Violation(rows[j].id, RedactedContentMismatch)))
        else Report(true, |rows| + 1, None)
      case None => Report(true, |rows| + 1, None)
  }

  /** An append with the companions' event type on a log that verifies. */
  ghost predicate AppendsCompanion(hash: Content -> Text, rows: seq<Row>, last: Row) {
    && Intact(hash, rows) && AscendingIds(rows)
    && Trusted(hash, last) && last.redactedAt.None? && last.content.previousHash == LinkBefore(rows, |rows|)
  }

  lemma RowAfterAppend(hash: Content -> Text, rows: seq<Row>, last: Row, j: nat)
    requires AppendsCompanion(hash, rows, last) && j < |rows|
    ensures var declared := DeclaredBy(Payload(last));
            Passes(hash, rows + [last], j)
            <==> || Named(rows, declared) != Some(j) || rows[j].redactedAt.None?
                 || declared.commitment == Some(hash(rows[j].content))
    ensures !Passes(hash, rows + [last], j) ==> ViolationAt(hash, rows + [last], j) == RedactedContentMismatch
  {
    var after := rows + [last];
    assert Passes(hash, rows, j) && after[j] == rows[j];
    assert LinkBefore(after, j) == LinkBefore(rows, j);
    FindAt(rows, j);
    CommitmentAppend(hash, rows, last, rows[j].id);
    if rows[j].redactedAt.Some? {
      AuthenticMeansCommitted(hash, rows, j);
      RowStatus(hash, after, j);
    }
  }

  lemma AppendPoisons(hash: Content -> Text, rows: seq<Row>, last: Row)
    requires AppendsCompanion(hash, rows, last)
    ensures Poisoned(hash, rows + [last]) <==> DeclaredBy(Payload(last)).Unhashable?
  {
    var after := rows + [last];
    assert after[|rows|] == last;
    assert forall i :: 0 <= i < |rows| ==> after[i] == rows[i];
  }

  lemma AppendVerdict(hash: Content -> Text, rows: seq<Row>, last: Row)
    requires AppendsCompanion(hash, rows, last)
    ensures VerdictOf(hash, rows + [last]) == AppendReport(hash, rows, DeclaredBy(Payload(last)))
  {
    var named := Named(rows, DeclaredBy(Payload(last)));
    var suspect := if named.Some? then named.value else |rows|;
    AppendPoisons(hash, rows, last);
    if !DeclaredBy(Payload(last)).Unhashable? {
      forall j | 0 <= j < |rows| + 1 && j != suspect
        ensures Passes(hash, rows + [last], j)
      {
        PassesAfterAppend(hash, rows, last, j);
      }
      PassesAfterAppend(hash, rows, last, suspect);
      OneSuspect(hash, rows + [last], suspect);
    }
  }

  lemma PassesAfterAppend(hash: Content -> Text, rows: seq<Row>, last: Row, j: nat)
    requires AppendsCompanion(hash, rows, last) && j <= |rows|
    ensures var declared := DeclaredBy(Payload(last));
            Passes(hash, rows + [last], j)
            <==> || j == |rows| || Named(rows, declared) != Some(j) || rows[j].redactedAt.None?
                 || declared.commitment == Some(hash(rows[j].content))
    ensures !Passes(hash, rows + [last], j) ==> ViolationAt(hash, rows + [last], j) == RedactedContentMismatch
  {
    if j < |rows| {
      RowAfterAppend(hash, rows, last, j);
    }
  }

  /** Append with the companions' event type to any log that verifies: this is what verification
      says afterwards. */
  lemma AppendedCompanionVerdict(d: Digests, s: State, request: Request, timestamp: int)
    requires Intact(d.content, s.rows) && AscendingIds(s.rows) && request.eventType == REDACTION_EVENT_TYPE
    ensures VerdictOf(d.content, Append(d, s, request, timestamp).rows)
            == AppendReport(d.content, s.rows, DeclaredBy(request.payload))
  {
    AppendVerdict(d.content, s.rows, NewRow(d.content, s.nextId, NewContent(s.rows, request, timestamp)));
  }

  // ----- a redaction flag set in storage -----

  /** Row `t` with another payload and a redaction flag, and no hash recomputed. */
  function Flagged(rows: seq<Row>, t: nat, payload: Dict, at: int): seq<Row>
    requires t < |rows|
  {
    rows[t := rows[t].(content := WithPayload(rows[t].content, payload), redactedAt := Some(at))]
  }

  /** What verification says of it. */
  function FlagReport(hash: Content -> Text, rows: seq<Row>, t: nat, payload: Dict): Verdict
    requires t < |rows|
  {
    match Commitment(hash, rows, rows[t].id)
    case None => Report(false, t + 1, Some(Violation(rows[t].id, RedactionCommitmentMissing)))
    case Some(c) =>
      if c == Some(hash(WithPayload(rows[t].content, payload))) then Report(true, |rows|, None)
      else Report(false, t + 1, Some(Violation(rows[t].id, RedactedContentMismatch)))
  }

  lemma FlagChangesNoCommitment(hash: Content -> Text, rows: seq<Row>, t: nat, payload: Dict, at: int, id: int)
    requires t < |rows| && EventType(rows[t]) != REDACTION_EVENT_TYPE
    ensures Commitment(hash, Flagged(rows, t, payload, at), id) == Commitment(hash, rows, id)
  {
    CommitmentFrame(hash, rows, Flagged(rows, t, payload, at), id);
  }

  lemma OthersUnderFlag(hash: Content -> Text, rows: seq<Row>, t: nat, payload: Dict, at: int, j: nat)
    requires Intact(hash, rows) && t < |rows| && EventType(rows[t]) != REDACTION_EVENT_TYPE && j < |rows|
    ensures Linked(Flagged(rows, t, payload, at), j)
    ensures j != t ==> Passes(hash, Flagged(rows, t, payload, at), j)
  {
    var after := Flagged(rows, t, payload, at);
    assert Passes(hash, rows, j);
    assert LinkBefore(after, j) == LinkBefore(rows, j);
    if j != t && rows[j].redactedAt.Some? {
      FlagChangesNoCommitment(hash, rows, t, payload, at, rows[j].id);
      AuthenticMeansCommitted(hash, rows, j);
      AuthenticMeansCommitted(hash, after, j);
    }
  }

  lemma FlagPoisonsNothing(hash: Content -> Text, rows: seq<Row>, t: nat, payload: Dict, at: int)
    requires Intact(hash, rows) && t < |rows| && EventType(rows[t]) != REDACTION_EVENT_TYPE
    ensures !Poisoned(hash, Flagged(rows, t, payload, at))
  {
    var after := Flagged(rows, t, payload, at);
    forall j | 0 <= j < |after| && Trusted(hash, after[j])
      ensures !DeclaredBy(Payload(after[j])).Unhashable?
    {
      assert after[j] == rows[j];
    }
  }

  /** Give a row that is no companion another payload and a redaction flag, in any log that
      verifies: it passes if and only if the newest trusted companion naming it commits to exactly
      the new content. */
  lemma ForgedFlagVerdict(hash: Content -> Text, rows: seq<Row>, t: nat, payload: Dict, at: int)
    requires Intact(hash, rows) && t < |rows| && EventType(rows[t]) != REDACTION_EVENT_TYPE
    ensures VerdictOf(hash, Flagged(rows, t, payload, at)) == FlagReport(hash, rows, t, payload)
  {
    var after := Flagged(rows, t, payload, at);
    var v := FlagReport(hash, rows, t, payload);
    FlagPoisonsNothing(hash, rows, t, payload, at);
    FlagChangesNoCommitment(hash, rows, t, payload, at, rows[t].id);
    RowStatus(hash, after, t);
    forall j | 0 <= j < |rows|
      ensures Linked(after, j) && (j != t ==> Passes(hash, after, j))
    {
      OthersUnderFlag(hash, rows, t, payload, at, j);
    }
    OneSuspect(hash, after, t);
  }

  /** On a reachable quiescent log a forged flag is always caught, as docs/redaction-design.md:120
      says. */
  lemma ForgedFlagCaught(d: Digests, steps: seq<Step>, t: nat, payload: Dict, at: int)
    requires ValidRun(d, steps) && Quiescent(After(d, steps)) && t < |After(d, steps).rows|
    requires After(d, steps).rows[t].redactedAt.None? && EventType(After(d, steps).rows[t]) != REDACTION_EVENT_TYPE
    ensures var rows := After(d, steps).rows;
            VerdictOf(d.content, Flagged(rows, t, payload, at))
            == Report(false, t + 1, Some(Violation(rows[t].id, RedactionCommitmentMissing)))
  {
    var s := After(d, steps);
    RunKeepsInv(d, steps);
    QuiescentIsIntact(d, s);
    UnredactedUncommitted(d, s, t);
    ForgedFlagVerdict(d.content, s.rows, t, payload, at);
  }

  /** After an append with the companions' event type it is not: the log verifies, and it still
      does once the row the append names has a flag and another payload, exactly when the append
      committed to that payload. */
  lemma AppendAuthorisesFlag(d: Digests, s: State, request: Request, timestamp: int, t: nat, payload: Dict, at: int)
    requires Intact(d.content, s.rows) && AscendingIds(s.rows) && request.eventType == REDACTION_EVENT_TYPE
    requires t < |s.rows| && s.rows[t].redactedAt.None? && EventType(s.rows[t]) != REDACTION_EVENT_TYPE
    requires DeclaredBy(request.payload).Names? && DeclaredBy(request.payload).target == s.rows[t].id
    ensures var rows := Append(d, s, request, timestamp).rows;
            && Intact(d.content, rows)
            && VerdictOf(d.content, Flagged(rows, t, payload, at)) ==
                 if DeclaredBy(request.payload).commitment == Some(d.content(WithPayload(s.rows[t].content, payload)))
                 then Report(true, |rows|, None)
                 else Report(false, t + 1, Some(Violation(s.rows[t].id, RedactedContentMismatch)))
  {
    var last := NewRow(d.content, s.nextId, NewContent(s.rows, request, timestamp));
    FindAt(s.rows, t);
    AppendedCompanionVerdict(d, s, request, timestamp);
    CommitmentAppend(d.content, s.rows, last, s.rows[t].id);
    ForgedFlagVerdict(d.content, s.rows + [last], t, payload, at);
  }
}
