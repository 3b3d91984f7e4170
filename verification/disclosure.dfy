/** What the hashes kept for redacted fields prove about values disclosed later, and when
    verification shows a redaction between its two commits. */
module Disclosure {
  import opened Texts
  import opened Jsons
  import opened Wrappers
  import opened JsonReader
  import opened AuditLog
  import opened ChainVerification
  import opened Hashing
  import opened System
  import opened Invariants
  import opened Redaction

  // ----- putting disclosed values back -----

  /** The payload with each redacted field set to the value offered for it. */
  function Restored(payload: Dict, fields: seq<Text>, offered: map<Text, Json>): Dict
    requires forall f :: f in fields ==> f in offered
  {
    if fields == [] then payload
    else
      var n := |fields| - 1;
      Put(Restored(payload, fields[..n], offered), fields[n], offered[fields[n]])
  }

  lemma {:induction false} LookupRestored(payload: Dict, fields: seq<Text>, offered: map<Text, Json>, k: Text)
    requires forall f :: f in fields ==> f in offered
    ensures Lookup(Restored(payload, fields, offered), k)
            == if k in fields then Some(offered[k]) else Lookup(payload, k)
  {
    if fields != [] {
      var n := |fields| - 1;
      LookupRestored(payload, fields[..n], offered, k);
      LookupPut(Restored(payload, fields[..n], offered), fields[n], offered[fields[n]], k);
      InFrontOrLast(fields, k);
    }
  }

  lemma {:induction false} KeysRestored(payload: Dict, fields: seq<Text>, offered: map<Text, Json>)
    requires forall f :: f in fields ==> f in offered && HasKey(payload, f)
    ensures Keys(Restored(payload, fields, offered)) == Keys(payload)
  {
    if fields != [] {
      var n := |fields| - 1;
      KeysRestored(payload, fields[..n], offered);
      SameKeyLists(Restored(payload, fields[..n], offered), payload);
      assert fields[n] in fields;
      KeysPut(Restored(payload, fields[..n], offered), fields[n], offered[fields[n]]);
    }
  }

  /** A dict with distinct keys is clean when its keys and everything looked up in it are. */
  lemma CleanByLookup(d: Dict, e: Dict)
    requires DistinctKeys(d) && CleanDict(e) && Keys(d) == Keys(e)
    requires forall k :: HasKey(d, k) ==> Clean(Lookup(d, k).value)
    ensures CleanDict(d)
  {
    forall i | 0 <= i < |d|
      ensures PairFree(d[i].key) && Clean(d[i].value)
    {
      LookupAt(d, i);
      assert HasKey(d, d[i].key);
      assert Keys(d)[i] == Keys(e)[i];
      assert e[i].key == d[i].key;
    }
  }

  lemma CleanLookup(d: Dict, k: Text)
    requires CleanDict(d) && HasKey(d, k)
    ensures Clean(Lookup(d, k).value)
  {
    var i :| 0 <= i < |d| && d[i] == Member(k, Lookup(d, k).value);
  }

  /** The values offered for a row's redacted fields: one for each, free of split pairs. */
  ghost predicate Offers(r: Row, offered: map<Text, Json>) {
    forall f :: f in RedactedFields(r) ==> f in offered && Clean(offered[f])
  }

  /** Every offered value has the hash stored for its field. */
  ghost predicate HashesMatch(d: Digests, r: Row, offered: map<Text, Json>)
    requires Offers(r, offered)
  {
    forall f :: f in RedactedFields(r) && f in StoredHashes(r) ==> d.field(offered[f]) == StoredHashes(r)[f]
  }

  function RestoredContent(r: Row, offered: map<Text, Json>): Content
    requires Offers(r, offered)
  {
    WithPayload(r.content, Restored(Payload(r), RedactedFields(r), offered))
  }

  /** The inputs of SHA-256 that checking a disclosure involves. */
  ghost function DisclosureInputs(env: Env, r: Row, original: Content, offered: map<Text, Json>): set<string>
    requires Offers(r, offered)
  {
    (set f | f in RedactedFields(r) :: FieldPreimage(offered[f]))
    + (set f | f in RedactedFields(r) && HasKey(original.request.payload, f)
         :: FieldPreimage(Lookup(original.request.payload, f).value))
    + {EventPreimage(env, original), EventPreimage(env, RestoredContent(r, offered))}
  }

  /** A row as redactions leave it, with the content it was created with. */
  ghost predicate RedactedFrom(env: Env, r: Row, original: Content) {
    var d := ServiceDigests(env);
    && Books(d, r, original.request.payload)
    && FromOrigin(d.content, r, original)
    && CleanContent(original)
  }

  lemma RestoredIsDict(env: Env, r: Row, original: Content, offered: map<Text, Json>)
    requires RedactedFrom(env, r, original) && Offers(r, offered)
    ensures var p := Restored(Payload(r), RedactedFields(r), offered);
            DistinctKeys(p) && CleanDict(p)
  {
    var d := ServiceDigests(env);
    var wasPayload, p := original.request.payload, Restored(Payload(r), RedactedFields(r), offered);
    SameKeyLists(Payload(r), wasPayload);
    KeysRestored(Payload(r), RedactedFields(r), offered);
    SameKeyLists(p, wasPayload);
    forall k | HasKey(p, k)
      ensures Clean(Lookup(p, k).value)
    {
      LookupRestored(Payload(r), RedactedFields(r), offered, k);
      if k !in RedactedFields(r) {
        CleanLookup(wasPayload, k);
      }
    }
    CleanByLookup(p, wasPayload);
  }

  /** The restored content agrees with the original exactly when each offered value does. */
  lemma RestoredAgrees(env: Env, r: Row, original: Content, offered: map<Text, Json>)
    requires RedactedFrom(env, r, original) && Offers(r, offered)
    ensures Canon(RestoredContent(r, offered)) == Canon(original)
            <==> forall f :: f in RedactedFields(r) ==>
                   Normalize(offered[f]) == NormalizeOption(Lookup(original.request.payload, f)).value
  {
    var p, q := Restored(Payload(r), RedactedFields(r), offered), original.request.payload;
    RestoredIsDict(env, r, original, offered);
    if Canon(RestoredContent(r, offered)) == Canon(original) {
      assert CanonRequest(RestoredContent(r, offered).request) == CanonRequest(original.request);
      forall f | f in RedactedFields(r)
        ensures Normalize(offered[f]) == NormalizeOption(Lookup(q, f)).value
      {
        LookupRestored(Payload(r), RedactedFields(r), offered, f);
        LookupNormalizeDict(p, f);
        LookupNormalizeDict(q, f);
      }
    } else if forall f :: f in RedactedFields(r) ==> Normalize(offered[f]) == NormalizeOption(Lookup(q, f)).value {
      forall k
        ensures NormalizeOption(Lookup(p, k)) == NormalizeOption(Lookup(q, k))
      {
        LookupRestored(Payload(r), RedactedFields(r), offered, k);
      }
      SameLookupsSameDict(p, q);
    }
  }

  /** A field hash matches exactly when the offered value is the original one. */
  lemma FieldHashMatches(env: Env, r: Row, original: Content, offered: map<Text, Json>, f: Text)
    requires FaithfulClock(env) && RedactedFrom(env, r, original) && Offers(r, offered)
    requires CollisionFree(env.sha256, DisclosureInputs(env, r, original, offered))
    requires f in RedactedFields(r)
    ensures HashFieldValue(env, offered[f]) == StoredHashes(r)[f]
            <==> Normalize(offered[f]) == NormalizeOption(Lookup(original.request.payload, f)).value
  {
    var was := Lookup(original.request.payload, f).value;
    CleanLookup(original.request.payload, f);
    FieldPreimageInjective(offered[f], was);
    assert FieldPreimage(offered[f]) in DisclosureInputs(env, r, original, offered);
    assert FieldPreimage(was) in DisclosureInputs(env, r, original, offered);
    assert StoredHashes(r)[f] == HashFieldValue(env, was);
  }

  /** Values offered for the redacted fields hash to the stored field hashes exactly when putting
      them back gives content with the frozen `event_hash`. */
  lemma DisclosureSound(env: Env, r: Row, original: Content, offered: map<Text, Json>)
    requires FaithfulClock(env) && RedactedFrom(env, r, original) && Offers(r, offered)
    requires CollisionFree(env.sha256, DisclosureInputs(env, r, original, offered))
    ensures HashesMatch(ServiceDigests(env), r, offered)
            <==> ComputeEventHash(env, RestoredContent(r, offered)) == r.eventHash
  {
    var content := RestoredContent(r, offered);
    RestoredIsDict(env, r, original, offered);
    RestoredAgrees(env, r, original, offered);
    assert CleanContent(content);
    EventPreimageInjective(env, content, original);
    assert EventPreimage(env, content) in DisclosureInputs(env, r, original, offered);
    assert EventPreimage(env, original) in DisclosureInputs(env, r, original, offered);
    assert ComputeEventHash(env, content) == r.eventHash <==> Canon(content) == Canon(original);
    forall f | f in RedactedFields(r)
      ensures HashFieldValue(env, offered[f]) == StoredHashes(r)[f]
              <==> Normalize(offered[f]) == NormalizeOption(Lookup(original.request.payload, f)).value
    {
      FieldHashMatches(env, r, original, offered, f);
    }
  }

  /** The same for every row of every run. */
  lemma DisclosureOverRuns(env: Env, steps: seq<Step>, i: nat, offered: map<Text, Json>)
    requires FaithfulClock(env)
    requires ValidRun(ServiceDigests(env), steps)
    requires var s := After(ServiceDigests(env), steps);
             && i < |s.rows| && i < |s.origin| && CleanContent(s.origin[i])
             && Offers(s.rows[i], offered)
             && CollisionFree(env.sha256, DisclosureInputs(env, s.rows[i], s.origin[i], offered))
    ensures var r := After(ServiceDigests(env), steps).rows[i];
            HashesMatch(ServiceDigests(env), r, offered)
            <==> ComputeEventHash(env, RestoredContent(r, offered)) == r.eventHash
  {
    var d := ServiceDigests(env);
    var s := After(d, steps);
    RunBooks(d, steps);
    RunKeepsInv(d, steps);
    assert Books(d, s.rows[i], s.origin[i].request.payload);
    assert FromOrigin(d.content, s.rows[i], s.origin[i]);
    DisclosureSound(env, s.rows[i], s.origin[i], offered);
  }

  // ----- between the two commits -----

  /** Every field about to be redacted already holds the marker's text. */
  ghost predicate AlreadyMarked(payload: Dict, fields: seq<Text>) {
    forall f :: f in fields ==> Lookup(payload, f) == Some(Str(REDACTED_MARKER))
  }

  lemma TombstonesOfMarked(p: Dict, fields: seq<Text>)
    requires DistinctKeys(p) && AlreadyMarked(p, fields) && forall f :: f in fields ==> HasKey(p, f)
    ensures NormalizeDict(Tombstoned(p, fields)) == NormalizeDict(p)
  {
    var q := Tombstoned(p, fields);
    KeysOverwritten(p, fields, Str(REDACTED_MARKER));
    SameKeyLists(q, p);
    forall k
      ensures Lookup(q, k) == Lookup(p, k)
    {
      LookupOverwritten(p, fields, Str(REDACTED_MARKER), k);
    }
    SameLookupsSameDict(q, p);
  }

  lemma UnchangedMeansMarked(p: Dict, fields: seq<Text>, f: Text)
    requires NormalizeDict(Tombstoned(p, fields)) == NormalizeDict(p) && f in fields
    ensures Lookup(p, f) == Some(Str(REDACTED_MARKER))
  {
    LookupOverwritten(p, fields, Str(REDACTED_MARKER), f);
    StringSurvives(Tombstoned(p, fields), p, f, REDACTED_MARKER);
  }

  /** A redaction leaves the content alone exactly when its fields already read like the marker. */
  lemma TombstonedUnchanged(c: Content, fields: seq<Text>)
    requires DistinctKeys(c.request.payload)
    requires forall f :: f in fields ==> HasKey(c.request.payload, f)
    ensures Canon(WithPayload(c, Tombstoned(c.request.payload, fields))) == Canon(c)
            <==> AlreadyMarked(c.request.payload, fields)
  {
    var p := c.request.payload;
    CanonWithPayload(c, Tombstoned(p, fields));
    if AlreadyMarked(p, fields) {
      TombstonesOfMarked(p, fields);
    }
    if NormalizeDict(Tombstoned(p, fields)) == NormalizeDict(p) {
      forall f | f in fields
        ensures Lookup(p, f) == Some(Str(REDACTED_MARKER))
      {
        UnchangedMeansMarked(p, fields, f);
      }
    }
  }

  /** Contents that differ in their payloads at most agree exactly when those do. */
  lemma CanonWithPayload(c: Content, payload: Dict)
    ensures Canon(WithPayload(c, payload)) == Canon(c) <==> NormalizeDict(payload) == NormalizeDict(c.request.payload)
  {
    assert CanonRequest(WithPayload(c, payload).request).payload == NormalizeDict(payload);
    assert Canon(WithPayload(c, payload)).request == CanonRequest(WithPayload(c, payload).request);
    assert Canon(c).request == CanonRequest(c.request);
  }

  /** The row's own commitment after the first commit: none, or the one to its previous content. */
  lemma FirstCommitStatus(d: Digests, s: State, i: nat, fields: seq<Text>, actorId: Text, reason: Option<Text>, now: int)
    requires Inv(d, s) && Quiescent(s)
    requires i < |s.rows| && forall f :: f in fields ==> HasKey(Payload(s.rows[i]), f)
    requires EventType(s.rows[i]) != REDACTION_EVENT_TYPE
    ensures var t := FirstCommit(d, s, i, fields, actorId, reason, now);
            && Gap(t) == {s.rows[i].id}
            && (s.rows[i].redactedAt.Some? ==>
                  Commitment(d.content, t.rows, t.rows[i].id) == Some(Some(d.content(s.rows[i].content))))
            && (s.rows[i].redactedAt.None? ==> Commitment(d.content, t.rows, t.rows[i].id) == None)
  {
    var t := FirstCommit(d, s, i, fields, actorId, reason, now);
    FirstCommitTouches(d, s, i, fields, actorId, reason, now);
    TouchedKeepsCommitment(d.content, s.rows, t.rows, s.rows[i].id);
    if s.rows[i].redactedAt.None? {
      UnredactedUncommitted(d, s, i);
    }
  }

  lemma NotTrustedFor(rows: seq<Row>, i: nat, j: nat)
    requires GoodCompanions(rows) && AscendingIds(rows)
    requires i < |rows| && j < |rows| && rows[i].redactedAt.None?
    ensures EventType(rows[j]) == REDACTION_EVENT_TYPE && DeclaredBy(Payload(rows[j])).Names? ==>
              DeclaredBy(Payload(rows[j])).target != rows[i].id
  {
    if EventType(rows[j]) == REDACTION_EVENT_TYPE && DeclaredBy(Payload(rows[j])).Names? {
      assert GoodCompanion(rows, j);
      var t :| 0 <= t < j && rows[t].id == DeclaredBy(Payload(rows[j])).target && rows[t].redactedAt.Some?;
    }
  }

  lemma UnredactedUncommitted(d: Digests, s: State, i: nat)
    requires Inv(d, s) && i < |s.rows| && s.rows[i].redactedAt.None?
    ensures Commitment(d.content, s.rows, s.rows[i].id) == None
  {
    forall j | 0 <= j < |s.rows|
      ensures !TrustedFor(d.content, s.rows[j], s.rows[i].id)
    {
      NotTrustedFor(s.rows, i, j);
    }
    NoCommitment(d.content, s.rows, s.rows[i].id);
  }

  /** The hash tells these two contents apart exactly when they differ in more than dict order. */
  ghost predicate Exact(hash: Content -> Text, c: Content, c': Content) {
    hash(c) == hash(c') <==> Canon(c) == Canon(c')
  }

  /** After the first commit, the redacted row alone can fail, and it fails its content check. */
  lemma FirstCommitVerdict(d: Digests, s: State, i: nat, fields: seq<Text>, actorId: Text, reason: Option<Text>, now: int)
    requires Inv(d, s) && Quiescent(s)
    requires i < |s.rows| && forall f :: f in fields ==> HasKey(Payload(s.rows[i]), f)
    requires EventType(s.rows[i]) != REDACTION_EVENT_TYPE
    ensures var rows := FirstCommit(d, s, i, fields, actorId, reason, now).rows;
            VerdictOf(d.content, rows) ==
              if Authentic(d.content, rows, i) then Report(true, |s.rows|, None)
              else Report(false, i + 1, Some(Violation(s.rows[i].id, ViolationAt(d.content, rows, i))))
  {
    var t := FirstCommit(d, s, i, fields, actorId, reason, now);
    FirstCommitKeepsInv(d, s, i, fields, actorId, reason, now);
    FirstCommitStatus(d, s, i, fields, actorId, reason, now);
    NothingPoisoned(d, t);
    forall j | 0 <= j < |t.rows|
      ensures Linked(t.rows, j) && (j != i ==> Passes(d.content, t.rows, j))
    {
      OnlyGapRowsFail(d, t, j);
    }
    OneSuspect(d.content, t.rows, i);
  }

  /** The report between the two commits of a redaction of row `i`. */
  ghost function GapReport(rows: seq<Row>, i: nat, fields: seq<Text>): Verdict
    requires i < |rows|
  {
    var r := rows[i];
    if r.redactedAt.None? then Report(false, i + 1, Some(Violation(r.id, RedactionCommitmentMissing)))
    else if AlreadyMarked(Payload(r), fields) then Report(true, |rows|, None)
    else Report(false, i + 1, Some(Violation(r.id, RedactedContentMismatch)))
  }

  /** Between the two commits of a redaction of a quiescent log, `verify_chain` reports the row,
      unless the row was redacted before and every field now redacted already read like the
      marker. (docs/redaction-design.md:131 says the chain stays consistent meanwhile.) */
  lemma GapIsVisible(d: Digests, s: State, i: nat, fields: seq<Text>, actorId: Text, reason: Option<Text>, now: int)
    requires Inv(d, s) && Quiescent(s) && i < |s.rows| && DistinctKeys(Payload(s.rows[i]))
    requires forall f :: f in fields ==> HasKey(Payload(s.rows[i]), f)
    requires EventType(s.rows[i]) != REDACTION_EVENT_TYPE
    requires s.rows[i].redactedAt.Some? ==>
               Exact(d.content, s.rows[i].content, FirstCommit(d, s, i, fields, actorId, reason, now).rows[i].content)
    ensures VerdictOf(d.content, FirstCommit(d, s, i, fields, actorId, reason, now).rows) == GapReport(s.rows, i, fields)
  {
    var t := FirstCommit(d, s, i, fields, actorId, reason, now);
    FirstCommitVerdict(d, s, i, fields, actorId, reason, now);
    FirstCommitStatus(d, s, i, fields, actorId, reason, now);
    TombstonedUnchanged(s.rows[i].content, fields);
    RowStatus(d.content, t.rows, i);
  }
}
