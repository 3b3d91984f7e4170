/** The guarantees of the chain for SHA-256 over canonical JSON, from what goes into a run. */
module ServiceGuarantees {
  import opened Texts
  import opened Jsons
  import opened Wrappers
  import opened JsonPrinter
  import opened JsonReader
  import opened AuditLog
  import opened ChainVerification
  import opened Hashing
  import opened System
  import opened Invariants
  import opened Tampering
  import opened Concurrency
  import opened ExactlyOnce
  import opened ExportService

  // ----- clean inputs keep the log clean -----

  ghost predicate CleanApproval(a: Approval) {
    && PairFree(a.tenantId) && PairFree(a.actorId) && PairFree(a.contentHash)
    && (a.reason.Some? ==> PairFree(a.reason.value))
    && forall f :: f in a.fields ==> PairFree(f)
  }

  /** No text of the log contains a surrogate pair split in two. Values read from JSON never do:
      the reader joins such pairs. */
  ghost predicate CleanState(s: State) {
    && (forall i :: 0 <= i < |s.rows| ==> CleanContent(s.rows[i].content) && PairFree(s.rows[i].eventHash))
    && (forall i :: 0 <= i < |s.origin| ==> CleanContent(s.origin[i]))
    && (forall id :: id in s.live ==> CleanApproval(s.live[id]))
  }

  ghost predicate CleanStep(step: Step) {
    match step
    case SubmitStep(call, _) => CleanRequest(call.request)
    case RedactStep(_, _, actorId, reason, _) => PairFree(actorId) && (reason.Some? ==> PairFree(reason.value))
    case _ => true
  }

  ghost predicate CleanRun(steps: seq<Step>) {
    forall i :: 0 <= i < |steps| ==> CleanStep(steps[i])
  }

  lemma {:induction false} CleanPut(d: Dict, k: Text, v: Json)
    requires CleanDict(d) && PairFree(k) && Clean(v)
    ensures CleanDict(Put(d, k, v))
  {
    if d != [] && d[0].key != k {
      CleanPut(d[1..], k, v);
    }
  }

  lemma {:induction false} CleanOverwritten(payload: Dict, fields: seq<Text>, v: Json)
    requires CleanDict(payload) && Clean(v) && forall f :: f in fields ==> PairFree(f)
    ensures CleanDict(Overwritten(payload, fields, v))
  {
    if fields != [] {
      var n := |fields| - 1;
      CleanOverwritten(payload, fields[..n], v);
      assert fields[n] in fields;
      CleanPut(Overwritten(payload, fields[..n], v), fields[n], v);
    }
  }

  lemma KeysClean(d: Dict, fields: seq<Text>)
    requires CleanDict(d) && forall f :: f in fields ==> HasKey(d, f)
    ensures forall f :: f in fields ==> PairFree(f)
  {
    forall f | f in fields
      ensures PairFree(f)
    {
      var i :| 0 <= i < |d| && d[i].key == f;
    }
  }

  lemma LinkClean(s: State)
    requires CleanState(s)
    ensures PairFree(LinkBefore(s.rows, |s.rows|))
  {
    if s.rows != [] {
      assert PairFree(s.rows[|s.rows| - 1].eventHash);
    }
  }

  lemma AppendClean(env: Env, s: State, request: Request, timestamp: int)
    requires HexDigests(env) && CleanState(s) && CleanRequest(request)
    ensures CleanState(Append(ServiceDigests(env), s, request, timestamp))
  {
    var d := ServiceDigests(env);
    var t := Append(d, s, request, timestamp);
    var content := NewContent(s.rows, request, timestamp);
    LinkClean(s);
    assert CleanContent(content);
    assert d.content(content) == env.sha256(EventPreimage(env, content));
    forall i | 0 <= i < |t.rows|
      ensures CleanContent(t.rows[i].content) && PairFree(t.rows[i].eventHash)
    {
      if i < |s.rows| {
        assert t.rows[i] == s.rows[i];
      }
    }
    forall i | 0 <= i < |t.origin|
      ensures CleanContent(t.origin[i])
    {
      if i < |s.origin| {
        assert t.origin[i] == s.origin[i];
      }
    }
  }

  lemma CleanFrame(s: State, t: State)
    requires CleanState(s) && t.rows == s.rows && t.origin == s.origin
    requires forall id :: id in t.live ==> id in s.live && t.live[id] == s.live[id]
    ensures CleanState(t)
  {
  }

  lemma TextArrayClean(ts: seq<Text>)
    requires forall t :: t in ts ==> PairFree(t)
    ensures Clean(TextArray(ts))
  {
    forall i | 0 <= i < |ts|
      ensures PairFree(ts[i])
    {
      assert ts[i] in ts;
    }
  }

  lemma CompanionClean(id: int, a: Approval)
    requires CleanApproval(a)
    ensures CleanRequest(CompanionRequest(id, a))
  {
    TextArrayClean(a.fields);
    LitPairFree("targetEventId");
    LitPairFree("redactedFields");
    LitPairFree("redactedContentHash");
    LitPairFree("reason");
    LitPairFree("AUDIT_EVENT_REDACTED");
    LitPairFree("AUDIT_EVENT");
    LitPairFree(Decimal(id));
  }

  lemma FirstCommitClean(env: Env, s: State, i: nat, fields: seq<Text>, actorId: Text, reason: Option<Text>, now: int)
    requires HexDigests(env) && CleanState(s) && PairFree(actorId) && (reason.Some? ==> PairFree(reason.value))
    requires i < |s.rows| && forall f :: f in fields ==> HasKey(Payload(s.rows[i]), f)
    ensures CleanState(FirstCommit(ServiceDigests(env), s, i, fields, actorId, reason, now))
  {
    var d := ServiceDigests(env);
    var r := s.rows[i];
    LitPairFree("[REDACTED]");
    KeysClean(Payload(r), fields);
    CleanOverwritten(Payload(r), fields, Str(REDACTED_MARKER));
    var content := RedactRow(d, r, fields, now).content;
    assert d.content(content) == env.sha256(EventPreimage(env, content));
  }

  lemma SubmitClean(env: Env, s: State, call: Call, timestamp: int)
    requires HexDigests(env) && CleanState(s) && CleanRequest(call.request)
    ensures CleanState(Submit(ServiceDigests(env), s, call, timestamp))
  {
    var d := ServiceDigests(env);
    AppendClean(env, s, call.request, timestamp);
    SubmitShape(d, s, call, timestamp);
    var u := if ResponseTo(d, s, call, timestamp).Created? then Append(d, s, call.request, timestamp) else s;
    CleanFrame(u, Submit(d, s, call, timestamp));
  }

  lemma StepClean(env: Env, s: State, step: Step)
    requires HexDigests(env) && CleanState(s) && CleanStep(step) && Enabled(ServiceDigests(env), s, step)
    ensures CleanState(Apply(ServiceDigests(env), s, step))
  {
    var d := ServiceDigests(env);
    match step {
      case SubmitStep(call, timestamp) => SubmitClean(env, s, call, timestamp);
      case BurnStep =>
      case RedactStep(id, fields, actorId, reason, now) =>
        var i := Find(s.rows, id).value;
        FirstCommitClean(env, s, i, NewFields(s.rows[i], fields), actorId, reason, now);
      case CompleteStep(id, timestamp) =>
        CompanionClean(id, s.live[id]);
        AppendClean(env, s, CompanionRequest(id, s.live[id]), timestamp);
        CleanFrame(Append(d, s, CompanionRequest(id, s.live[id]), timestamp), Apply(d, s, step));
      case CrashStep(_) =>
      case ArchiveStep(_, _) =>
    }
  }

  /** Clean requests, actors and reasons are all it takes for the whole log to stay clean. */
  lemma {:induction false} RunStaysClean(env: Env, steps: seq<Step>)
    requires HexDigests(env) && ValidRun(ServiceDigests(env), steps) && CleanRun(steps)
    ensures CleanState(After(ServiceDigests(env), steps))
  {
    if steps != [] {
      var front := steps[..|steps| - 1];
      RunStaysClean(env, front);
      StepClean(env, After(ServiceDigests(env), front), steps[|steps| - 1]);
    }
  }

  // ----- the guarantees -----

  function EventPreimages(env: Env, contents: set<Content>): set<string> {
    set c | c in contents :: EventPreimage(env, c)
  }

  lemma LogContentsClean(env: Env, steps: seq<Step>)
    requires HexDigests(env) && ValidRun(ServiceDigests(env), steps) && CleanRun(steps)
    ensures var s := After(ServiceDigests(env), steps);
            forall c :: c in Contents(s.rows) + Origins(s) ==> CleanContent(c)
  {
    RunStaysClean(env, steps);
  }

  /** A log that verifies and has the length, ids, redaction flags and last hash of a reachable
      quiescent log is that log, unless SHA-256 collides on the records of the two. */
  lemma LogBinding(env: Env, steps: seq<Step>, b: seq<Row>)
    requires FaithfulClock(env) && HexDigests(env) && ValidRun(ServiceDigests(env), steps) && CleanRun(steps)
    requires Quiescent(After(ServiceDigests(env), steps))
    requires var v := VerdictOf(ServiceDigests(env).content, b);
             v.Report? && v.intact
    requires SameOutline(After(ServiceDigests(env), steps).rows, b)
    requires forall c :: c in Contents(b) ==> CleanContent(c)
    requires CollisionFree(env.sha256, EventPreimages(env, Contents(After(ServiceDigests(env), steps).rows) + Contents(b)))
    ensures var a := After(ServiceDigests(env), steps).rows;
            |a| == |b| && forall i :: 0 <= i < |a| ==>
              && a[i].eventHash == b[i].eventHash
              && Canon(a[i].content) == Canon(b[i].content)
  {
    var d := ServiceDigests(env);
    var a := After(d, steps).rows;
    LogContentsClean(env, steps);
    EventHashFaithful(env, Contents(a) + Contents(b));
    BindingOfReachableLogs(d, steps, b);
    assert forall i :: 0 <= i < |a| ==> SameRecord(d.content, a[i], b[i]);
  }

  /** A changed record is reported at the redacted record that depended on it, or else at its
      place. */
  lemma EditIsReported(env: Env, steps: seq<Step>, k: nat, content: Content)
    requires FaithfulClock(env) && HexDigests(env) && ValidRun(ServiceDigests(env), steps) && CleanRun(steps)
    requires Quiescent(After(ServiceDigests(env), steps)) && k < |After(ServiceDigests(env), steps).rows|
    requires CleanContent(content)
    requires Canon(content) != Canon(After(ServiceDigests(env), steps).rows[k].content)
    requires var s := After(ServiceDigests(env), steps);
             CollisionFree(env.sha256, EventPreimages(env, Contents(s.rows) + Origins(s) + {content}))
    ensures var rows := After(ServiceDigests(env), steps).rows;
            VerdictOf(ServiceDigests(env).content, Edited(rows, k, content))
            == EditReport(ServiceDigests(env).content, rows, k)
  {
    var d := ServiceDigests(env);
    var s := After(d, steps);
    LogContentsClean(env, steps);
    EventHashFaithful(env, Contents(s.rows) + Origins(s) + {content});
    EditAttribution(d, steps, k, content);
  }

  /** Rows of a reachable log, drawn in any way, verify only as a prefix of it. */
  lemma PrefixesOnly(env: Env, steps: seq<Step>, drawn: seq<Row>)
    requires FaithfulClock(env) && HexDigests(env) && ValidRun(ServiceDigests(env), steps) && CleanRun(steps)
    requires forall i :: 0 <= i < |drawn| ==> drawn[i] in After(ServiceDigests(env), steps).rows
    requires var v := VerdictOf(ServiceDigests(env).content, drawn);
             v.Report? && v.intact
    requires CollisionFree(env.sha256, EventPreimages(env, Origins(After(ServiceDigests(env), steps))))
    requires AvoidsGenesis(ServiceDigests(env).content, Origins(After(ServiceDigests(env), steps)))
    ensures drawn <= After(ServiceDigests(env), steps).rows
  {
    LogContentsClean(env, steps);
    EventHashFaithful(env, Origins(After(ServiceDigests(env), steps)));
    OnlyPrefixesVerify(ServiceDigests(env), steps, drawn);
  }

  /** Hashes and links of a reachable log are distinct, and the next append's hash is new. */
  lemma ChainNeverForks(env: Env, steps: seq<Step>, request: Request, timestamp: int)
    requires FaithfulClock(env) && HexDigests(env) && ValidRun(ServiceDigests(env), steps) && CleanRun(steps)
    requires CleanRequest(request)
    requires var next := Append(ServiceDigests(env), After(ServiceDigests(env), steps), request, timestamp);
             && CollisionFree(env.sha256, EventPreimages(env, Origins(next)))
             && AvoidsGenesis(ServiceDigests(env).content, Origins(next))
    ensures var s := After(ServiceDigests(env), steps);
            && Unforked(s.rows)
            && !HashTaken(s.rows, ComputeEventHash(env, NewContent(s.rows, request, timestamp)))
  {
    var d := ServiceDigests(env);
    var s := After(d, steps);
    var next := Append(d, s, request, timestamp);
    RunStaysClean(env, steps);
    AppendClean(env, s, request, timestamp);
    EventHashFaithful(env, Origins(next));
    NoFork(d, steps, request, timestamp);
  }

  /** No append ends in an integrity error: the hash is new, and a claimed key leads to its event. */
  lemma AppendsNeverFail(env: Env, steps: seq<Step>, call: Call, timestamp: int)
    requires FaithfulClock(env) && HexDigests(env) && ValidRun(ServiceDigests(env), steps) && CleanRun(steps)
    requires CleanRequest(call.request)
    requires var next := Append(ServiceDigests(env), After(ServiceDigests(env), steps), call.request, timestamp);
             && CollisionFree(env.sha256, EventPreimages(env, Origins(next)))
             && AvoidsGenesis(ServiceDigests(env).content, Origins(next))
    ensures !ResponseTo(ServiceDigests(env), After(ServiceDigests(env), steps), call, timestamp).Failed?
  {
    ChainNeverForks(env, steps, call.request, timestamp);
    RunKeepsOnce(ServiceDigests(env), steps);
  }

  /** Once a call for a key got an event, a call with that key and the same content, dict order aside,
      gets it again, and one with any other content is refused. */
  lemma RetryByContent(env: Env, steps: seq<Step>, a: Answer, call: Call, timestamp: int)
    requires ValidRun(ServiceDigests(env), steps)
    requires a in After(ServiceDigests(env), steps).answers && Successful(a.response)
    requires a.call.key.Some? && call.key == a.call.key
    requires CleanRequest(a.call.request) && CleanRequest(call.request)
    requires CollisionFree(env.sha256, {RequestPreimage(a.call.request), RequestPreimage(call.request)})
    ensures ResponseTo(ServiceDigests(env), After(ServiceDigests(env), steps), call, timestamp)
            == if CanonRequest(call.request) == CanonRequest(a.call.request)
               then Replayed(a.response.id, a.response.eventHash) else Conflict
  {
    RetryIsReplayed(ServiceDigests(env), steps, a, call, timestamp);
    RequestPreimageInjective(call.request, a.call.request);
  }

  /** Clients answered with an event for one key sent requests with the same content and got the
      same event. */
  lemma OneEventPerKey(env: Env, labels: seq<Label>, i: nat, j: nat)
    requires ValidHistory(ServiceDigests(env), labels)
    requires var w := Reached(ServiceDigests(env), labels);
             && i < |w.clients| && j < |w.clients| && Served(w, i) && Served(w, j)
             && w.clients[i].job.call.key.Some?
             && w.clients[i].job.call.key == w.clients[j].job.call.key
             && CleanRequest(w.clients[i].job.call.request) && CleanRequest(w.clients[j].job.call.request)
             && CollisionFree(env.sha256, {RequestPreimage(w.clients[i].job.call.request),
                                           RequestPreimage(w.clients[j].job.call.request)})
    ensures var w := Reached(ServiceDigests(env), labels);
            var a, b := w.clients[i], w.clients[j];
            && a.response.id == b.response.id && a.response.eventHash == b.response.eventHash
            && CanonRequest(a.job.call.request) == CanonRequest(b.job.call.request)
  {
    ExactlyOnceKeys(ServiceDigests(env), labels, i, j);
    var w := Reached(ServiceDigests(env), labels);
    SameFingerprintSameRequest(env, w.clients[i].job.call.request, w.clients[j].job.call.request);
  }
}
