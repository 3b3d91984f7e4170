/** Export bundles: what they hold, and what a recipient can check. */
module ExportService {
  import opened Texts
  import opened Jsons
  import opened Wrappers
  import opened JsonReader
  import opened AuditLog
  import opened Hashing
  import opened System
  import opened Invariants
  import opened Redaction
  import opened Disclosure
  import opened Queries

  datatype ExportBundle = ExportBundle(
    exportedAt: int,
    actorId: Option<Text>,
    resourceId: Option<Text>,
    records: seq<Row>,
    manifestHash: Text
  )

  function ManifestEntries(records: seq<Row>): (r: seq<ManifestEntry>)
    ensures |r| == |records|
    ensures forall i :: 0 <= i < |records| ==> r[i] == ManifestEntry(records[i].id, records[i].eventHash)
  {
    seq(|records|, i requires 0 <= i < |records| => ManifestEntry(records[i].id, records[i].eventHash))
  }

  function ExportFilter(actorId: Option<Text>, resourceId: Option<Text>): Filter {
    Filter(None, actorId, None, None, resourceId, None, None, false)
  }

  /** `export_events`. */
  function ExportEvents(env: Env, rows: seq<Row>, actorId: Option<Text>, resourceId: Option<Text>, now: int): ExportBundle {
    var records := ListEventsIncludingArchived(rows, ExportFilter(actorId, resourceId));
    ExportBundle(now, actorId, resourceId, records, ComputeManifestHash(env, ManifestEntries(records)))
  }

  /** A bundle of a reachable log names the actor, the resource and the instant it was made for, and
      holds, in id order, every record of the actor and resource and no other, archived ones
      included, under a manifest hash that passes. */
  lemma BundleIsComplete(env: Env, steps: seq<Step>, actorId: Option<Text>, resourceId: Option<Text>, now: int, r: Row)
    requires ValidRun(ServiceDigests(env), steps)
    ensures var rows := After(ServiceDigests(env), steps).rows;
            var b := ExportEvents(env, rows, actorId, resourceId, now);
            && b.actorId == actorId && b.resourceId == resourceId && b.exportedAt == now
            && BundlePasses(env, b)
            && AscendingIds(b.records)
            && (r in b.records <==>
                  && r in rows
                  && (actorId.Some? ==> r.content.request.actorId == actorId.value)
                  && (resourceId.Some? ==> r.content.request.resourceId == resourceId.value))
  {
    var rows := After(ServiceDigests(env), steps).rows;
    RunKeepsInv(ServiceDigests(env), steps);
    ExportReads(rows, actorId, resourceId);
    SelectAscending(rows, ExportFilter(actorId, resourceId));
    ExportMembers(rows, actorId, resourceId, r);
  }

  lemma ExportMembers(rows: seq<Row>, actorId: Option<Text>, resourceId: Option<Text>, r: Row)
    ensures r in Select(rows, ExportFilter(actorId, resourceId))
            <==> (&& r in rows
                  && (actorId.Some? ==> r.content.request.actorId == actorId.value)
                  && (resourceId.Some? ==> r.content.request.resourceId == resourceId.value))
  {
    SelectMembers(rows, ExportFilter(actorId, resourceId), r);
    MatchMeans(ExportFilter(actorId, resourceId), r);
  }

  lemma ExportReads(rows: seq<Row>, actorId: Option<Text>, resourceId: Option<Text>)
    ensures var f := ExportFilter(actorId, resourceId);
            ListEventsIncludingArchived(rows, f) == Select(rows, f)
  {
    var f := ExportFilter(actorId, resourceId);
    assert f.(tenantId := None, eventType := None, activeOnly := false) == f;
  }

  // ----- the recipient's checks -----

  /** The per-record check of docs/export-design.md section 4. (The code hashes the tenant too,
      which that section leaves out.) */
  predicate RecordPasses(env: Env, r: Row) {
    ComputeEventHash(env, r.content) == r.eventHash
  }

  predicate BundlePasses(env: Env, b: ExportBundle) {
    ComputeManifestHash(env, ManifestEntries(b.records)) == b.manifestHash
  }

  /** SHA-256 hex digests are plain ASCII, so they hold no surrogates. */
  ghost predicate HexDigests(env: Env) {
    forall s :: PairFree(env.sha256(s))
  }

  lemma OriginOf(d: Digests, s: State, r: Row) returns (i: nat)
    requires Inv(d, s) && AllBooks(d, s) && r in s.rows
    ensures i < |s.rows| && i < |s.origin| && s.rows[i] == r
    ensures FromOrigin(d.content, r, s.origin[i]) && Books(d, r, s.origin[i].request.payload)
  {
    i :| 0 <= i < |s.rows| && s.rows[i] == r;
  }

  /** Every record of a reachable log that was never redacted passes the per-record check. */
  lemma UnredactedRecordsPass(env: Env, steps: seq<Step>, r: Row)
    requires ValidRun(ServiceDigests(env), steps)
    requires r in After(ServiceDigests(env), steps).rows && r.redactedAt.None?
    ensures RecordPasses(env, r)
  {
    var d := ServiceDigests(env);
    RunKeepsInv(d, steps);
    RunBooks(d, steps);
    var _ := OriginOf(d, After(d, steps), r);
  }

  /** A redacted record passes it exactly when its redacted fields read like the marker from the
      start. (docs/export-design.md section 4 asks for the check on every record.) */
  lemma RedactedRecordPasses(env: Env, steps: seq<Step>, i: nat)
    requires FaithfulClock(env) && ValidRun(ServiceDigests(env), steps)
    requires var s := After(ServiceDigests(env), steps);
             && i < |s.rows| && i < |s.origin| && s.rows[i].redactedAt.Some?
             && CleanContent(s.origin[i])
             && CollisionFree(env.sha256, {EventPreimage(env, s.origin[i]), EventPreimage(env, s.rows[i].content)})
    ensures var s := After(ServiceDigests(env), steps);
            RecordPasses(env, s.rows[i])
            <==> AlreadyMarked(s.origin[i].request.payload, RedactedFields(s.rows[i]))
  {
    var d := ServiceDigests(env);
    var s := After(d, steps);
    RunKeepsInv(d, steps);
    RunBooks(d, steps);
    MarkedOrChanged(env, s.rows[i], s.origin[i]);
  }

  lemma MarkedOrChanged(env: Env, r: Row, original: Content)
    requires FaithfulClock(env) && RedactedFrom(env, r, original)
    requires CollisionFree(env.sha256, {EventPreimage(env, original), EventPreimage(env, r.content)})
    ensures RecordPasses(env, r) <==> AlreadyMarked(original.request.payload, RedactedFields(r))
  {
    PayloadStaysClean(env, r, original);
    EventPreimageInjective(env, r.content, original);
    SameButMarked(env, r, original);
  }

  lemma PayloadStaysClean(env: Env, r: Row, original: Content)
    requires RedactedFrom(env, r, original)
    ensures CleanContent(r.content) && DistinctKeys(Payload(r))
  {
    var p := original.request.payload;
    SameKeyLists(Payload(r), p);
    LitPairFree("[REDACTED]");
    forall k | HasKey(Payload(r), k)
      ensures Clean(Lookup(Payload(r), k).value)
    {
      if k !in RedactedFields(r) {
        CleanLookup(p, k);
      }
    }
    CleanByLookup(Payload(r), p);
  }

  lemma SameWhenMarked(env: Env, r: Row, original: Content)
    requires RedactedFrom(env, r, original) && AlreadyMarked(original.request.payload, RedactedFields(r))
    ensures Canon(r.content) == Canon(original)
  {
    var p, q := Payload(r), original.request.payload;
    SameKeyLists(p, q);
    forall k
      ensures Lookup(p, k) == Lookup(q, k)
    {
      if k in RedactedFields(r) {
        assert Lookup(p, k) == Some(Str(REDACTED_MARKER));
      }
    }
    SameLookupsSameDict(p, q);
  }

  lemma MarkedWhenSame(env: Env, r: Row, original: Content, f: Text)
    requires RedactedFrom(env, r, original) && Canon(r.content) == Canon(original) && f in RedactedFields(r)
    ensures Lookup(original.request.payload, f) == Some(Str(REDACTED_MARKER))
  {
    assert CanonRequest(r.content.request) == CanonRequest(original.request);
    StringSurvives(Payload(r), original.request.payload, f, REDACTED_MARKER);
  }

  /** A redacted row's content is its original content, dict order aside, exactly when every
      redacted field held the marker's text already. */
  lemma SameButMarked(env: Env, r: Row, original: Content)
    requires RedactedFrom(env, r, original)
    ensures Canon(r.content) == Canon(original) <==> AlreadyMarked(original.request.payload, RedactedFields(r))
  {
    if AlreadyMarked(original.request.payload, RedactedFields(r)) {
      SameWhenMarked(env, r, original);
    }
    if Canon(r.content) == Canon(original) {
      forall f | f in RedactedFields(r)
        ensures Lookup(original.request.payload, f) == Some(Str(REDACTED_MARKER))
      {
        MarkedWhenSame(env, r, original, f);
      }
    }
  }

  /** Bundles with the same manifest hash list the same records, by id and hash, in the same order:
      none added, removed, swapped or moved. */
  lemma ManifestPinsRecords(env: Env, a: seq<Row>, b: seq<Row>)
    requires forall i :: 0 <= i < |a| ==> PairFree(a[i].eventHash)
    requires forall i :: 0 <= i < |b| ==> PairFree(b[i].eventHash)
    requires CollisionFree(env.sha256, {ManifestPreimage(ManifestEntries(a)), ManifestPreimage(ManifestEntries(b))})
    ensures ComputeManifestHash(env, ManifestEntries(a)) == ComputeManifestHash(env, ManifestEntries(b))
            <==> (&& |a| == |b|
                  && forall i :: 0 <= i < |a| ==> a[i].id == b[i].id && a[i].eventHash == b[i].eventHash)
  {
    var es, fs := ManifestEntries(a), ManifestEntries(b);
    ManifestPreimageInjective(es, fs);
    assert es == fs ==> forall i :: 0 <= i < |a| ==> es[i] == fs[i];
  }

  /** The SHA-256 inputs of checking one bundle against another. */
  function CheckedInputs(env: Env, a: seq<Row>, b: seq<Row>): set<string> {
    {ManifestPreimage(ManifestEntries(a)), ManifestPreimage(ManifestEntries(b))}
    + (set r | r in a + b :: EventPreimage(env, r.content))
  }

  lemma ExportedRecord(env: Env, steps: seq<Step>, actorId: Option<Text>, resourceId: Option<Text>, now: int, r: Row)
    requires HexDigests(env) && ValidRun(ServiceDigests(env), steps)
    requires r in ExportEvents(env, After(ServiceDigests(env), steps).rows, actorId, resourceId, now).records
    ensures PairFree(r.eventHash) && (r.redactedAt.None? ==> RecordPasses(env, r))
  {
    var d := ServiceDigests(env);
    var s := After(d, steps);
    RunKeepsInv(d, steps);
    RunBooks(d, steps);
    BundleIsComplete(env, steps, actorId, resourceId, now, r);
    var i := OriginOf(d, s, r);
    assert r.eventHash == env.sha256(EventPreimage(env, s.origin[i]));
  }

  lemma SameHashSameContent(env: Env, inputs: set<string>, r: Row, t: Row)
    requires FaithfulClock(env) && CleanContent(r.content) && CleanContent(t.content)
    requires CollisionFree(env.sha256, inputs)
    requires EventPreimage(env, r.content) in inputs && EventPreimage(env, t.content) in inputs
    requires RecordPasses(env, r) && RecordPasses(env, t) && r.eventHash == t.eventHash
    ensures Canon(r.content) == Canon(t.content)
  {
    EventPreimageInjective(env, r.content, t.content);
  }

  lemma PassingRecordsAgree(env: Env, a: seq<Row>, b: seq<Row>)
    requires FaithfulClock(env) && CollisionFree(env.sha256, CheckedInputs(env, a, b))
    requires forall r :: r in a + b ==> CleanContent(r.content)
    requires forall r :: r in a || r in b ==> PairFree(r.eventHash) && (r.redactedAt.None? ==> RecordPasses(env, r))
    requires ComputeManifestHash(env, ManifestEntries(a)) == ComputeManifestHash(env, ManifestEntries(b))
    ensures |a| == |b|
    ensures forall i :: 0 <= i < |a| ==>
              && a[i].id == b[i].id && a[i].eventHash == b[i].eventHash
              && (a[i].redactedAt.None? && b[i].redactedAt.None? ==> Canon(a[i].content) == Canon(b[i].content))
  {
    ManifestPinsRecords(env, a, b);
    forall i | 0 <= i < |a| && a[i].redactedAt.None? && b[i].redactedAt.None?
      ensures Canon(a[i].content) == Canon(b[i].content)
    {
      assert a[i] in a + b && b[i] in a + b;
      SameHashSameContent(env, CheckedInputs(env, a, b), a[i], b[i]);
    }
  }

  /** A bundle that passes both checks under the manifest hash of an exported one has the same
      records, and every one of them that neither side shows as redacted has the same content. */
  lemma BundleBinding(env: Env, steps: seq<Step>, actorId: Option<Text>, resourceId: Option<Text>, now: int, b: ExportBundle)
    requires FaithfulClock(env) && HexDigests(env) && ValidRun(ServiceDigests(env), steps)
    requires var a := ExportEvents(env, After(ServiceDigests(env), steps).rows, actorId, resourceId, now);
             && b.manifestHash == a.manifestHash
             && CollisionFree(env.sha256, CheckedInputs(env, a.records, b.records))
             && (forall r :: r in a.records + b.records ==> CleanContent(r.content))
    requires BundlePasses(env, b) && forall r :: r in b.records ==> PairFree(r.eventHash)
    requires forall r :: r in b.records && r.redactedAt.None? ==> RecordPasses(env, r)
    ensures var a := ExportEvents(env, After(ServiceDigests(env), steps).rows, actorId, resourceId, now);
            && |a.records| == |b.records|
            && forall i :: 0 <= i < |a.records| ==>
                 && a.records[i].id == b.records[i].id && a.records[i].eventHash == b.records[i].eventHash
                 && (a.records[i].redactedAt.None? && b.records[i].redactedAt.None? ==>
                       Canon(a.records[i].content) == Canon(b.records[i].content))
  {
    var a := ExportEvents(env, After(ServiceDigests(env), steps).rows, actorId, resourceId, now);
    forall r | r in a.records
      ensures PairFree(r.eventHash) && (r.redactedAt.None? ==> RecordPasses(env, r))
    {
      ExportedRecord(env, steps, actorId, resourceId, now, r);
    }
    PassingRecordsAgree(env, a.records, b.records);
  }
}
