/** Each idempotency key yields at most one event, over every concurrent run. */
module ExactlyOnce {
  import opened Texts
  import opened Wrappers
  import opened AuditLog
  import opened Hashing
  import opened System
  import opened Invariants
  import opened Concurrency
  import opened Refinement

  // ----- what one call does to the tables -----

  /** Only a created event changes a table; a replay, a conflict and a failure change neither. */
  lemma OnlyCreationWrites(d: Digests, s: State, call: Call, timestamp: int)
    ensures var t := Submit(d, s, call, timestamp);
            match ResponseTo(d, s, call, timestamp)
            case Created(id, eventHash) =>
              && |t.rows| == |s.rows| + 1 && s.rows <= t.rows
              && t.rows[|s.rows|].id == id && t.rows[|s.rows|].eventHash == eventHash
              && t.rows[|s.rows|].content.request == call.request
              && t.rows[|s.rows|].content.timestamp == timestamp
              && t.keys.Keys == s.keys.Keys + (if call.key.Some? then {call.key.value} else {})
              && (call.key.Some? ==>
                    && call.key.value !in s.keys
                    && t.keys[call.key.value] == KeyRow(d.request(call.request), id, timestamp))
            case _ => t.rows == s.rows && t.keys == s.keys
  {
  }

  // ----- the invariant -----

  predicate Successful(r: Response) {
    r.Created? || r.Replayed?
  }

  /** Some row is the event a response speaks of. */
  ghost predicate Exists(rows: seq<Row>, id: int, eventHash: Text) {
    exists i :: 0 <= i < |rows| && rows[i].id == id && rows[i].eventHash == eventHash
  }

  /** Every claimed key leads to a row. */
  ghost predicate KeysLead(s: State) {
    forall k :: k in s.keys ==> Find(s.rows, s.keys[k].eventId).Some?
  }

  /** A successful answer given for a key agrees with the key's row and with the log, and a
      conflict was answered for a key claimed for other content. */
  ghost predicate Backed(d: Digests, s: State, a: Answer) {
    && (Successful(a.response) ==>
          && Exists(s.rows, a.response.id, a.response.eventHash)
          && (a.call.key.Some? ==>
                && a.call.key.value in s.keys
                && s.keys[a.call.key.value].eventId == a.response.id
                && s.keys[a.call.key.value].fingerprint == d.request(a.call.request)))
    && (a.response.Conflict? ==>
          && a.call.key.Some? && a.call.key.value in s.keys
          && s.keys[a.call.key.value].fingerprint != d.request(a.call.request))
  }

  /** An event is created for a key only before anything else succeeds for it. */
  ghost predicate CreatedFirst(answers: seq<Answer>) {
    forall p, q :: 0 <= p < q < |answers| && answers[p].call.key.Some?
                   && answers[p].call.key == answers[q].call.key && Successful(answers[p].response)
      ==> !answers[q].response.Created?
  }

  ghost predicate Once(d: Digests, s: State) {
    && KeysLead(s)
    && (forall i :: 0 <= i < |s.answers| ==> Backed(d, s, s.answers[i]))
    && CreatedFirst(s.answers)
  }

  /** Everything an answer rests on that later steps leave alone. */
  ghost predicate Persists(s: State, t: State) {
    && |s.rows| <= |t.rows|
    && (forall i :: 0 <= i < |s.rows| ==>
          t.rows[i].id == s.rows[i].id && t.rows[i].eventHash == s.rows[i].eventHash)
    && (forall k :: k in s.keys ==> k in t.keys && t.keys[k] == s.keys[k])
  }

  lemma BackedPersists(d: Digests, s: State, t: State, a: Answer)
    requires Persists(s, t) && Backed(d, s, a)
    ensures Backed(d, t, a)
  {
    if Successful(a.response) {
      var i :| 0 <= i < |s.rows| && s.rows[i].id == a.response.id && s.rows[i].eventHash == a.response.eventHash;
      assert t.rows[i].id == a.response.id;
    }
  }

  lemma FindPersists(s: State, t: State, id: int)
    requires Persists(s, t) && AscendingIds(t.rows) && Find(s.rows, id).Some?
    ensures Find(t.rows, id) == Find(s.rows, id)
  {
    FindAt(t.rows, Find(s.rows, id).value);
  }

  /** A step that answers nothing and claims nothing keeps the invariant. */
  lemma SilentKeepsOnce(d: Digests, s: State, t: State)
    requires Once(d, s) && Persists(s, t) && AscendingIds(t.rows)
    requires t.keys == s.keys && t.answers == s.answers
    ensures Once(d, t)
  {
    forall k | k in t.keys
      ensures Find(t.rows, t.keys[k].eventId).Some?
    {
      FindPersists(s, t, s.keys[k].eventId);
    }
    forall i | 0 <= i < |t.answers|
      ensures Backed(d, t, t.answers[i])
    {
      BackedPersists(d, s, t, s.answers[i]);
    }
  }

  lemma NewAnswerBacked(d: Digests, s: State, call: Call, timestamp: int)
    requires Once(d, s)
    ensures var t := Submit(d, s, call, timestamp);
            Backed(d, t, Answer(call, ResponseTo(d, s, call, timestamp)))
  {
    var t := Submit(d, s, call, timestamp);
    match ResponseTo(d, s, call, timestamp) {
      case Created(id, eventHash) => assert t.rows[|s.rows|].id == id && t.rows[|s.rows|].eventHash == eventHash;
      case Replayed(id, eventHash) => assert t.rows == s.rows;
      case _ =>
    }
  }

  /** A key for which something already succeeded is claimed, so nothing new is created for it. */
  lemma NewAnswerFirst(d: Digests, s: State, call: Call, timestamp: int)
    requires Once(d, s)
    ensures CreatedFirst(s.answers + [Answer(call, ResponseTo(d, s, call, timestamp))])
  {
    var a := Answer(call, ResponseTo(d, s, call, timestamp));
    var answers := s.answers + [a];
    forall p, q | 0 <= p < q < |answers| && answers[p].call.key.Some?
                  && answers[p].call.key == answers[q].call.key && Successful(answers[p].response)
      ensures !answers[q].response.Created?
    {
      assert answers[p] == s.answers[p];
      assert Backed(d, s, s.answers[p]);
      if q < |s.answers| {
        assert answers[q] == s.answers[q];
      }
    }
  }

  lemma SubmitPersists(d: Digests, s: State, call: Call, timestamp: int)
    requires Once(d, s)
    ensures Persists(s, Submit(d, s, call, timestamp))
  {
    OnlyCreationWrites(d, s, call, timestamp);
  }

  lemma SubmitKeysLead(d: Digests, s: State, call: Call, timestamp: int)
    requires KeysLead(s) && AscendingIds(Submit(d, s, call, timestamp).rows)
    requires Persists(s, Submit(d, s, call, timestamp))
    ensures KeysLead(Submit(d, s, call, timestamp))
  {
    var t := Submit(d, s, call, timestamp);
    OnlyCreationWrites(d, s, call, timestamp);
    forall k | k in t.keys
      ensures Find(t.rows, t.keys[k].eventId).Some?
    {
      if k in s.keys {
        FindPersists(s, t, s.keys[k].eventId);
      } else {
        FindAt(t.rows, |s.rows|);
      }
    }
  }

  lemma SubmitKeepsOnce(d: Digests, s: State, call: Call, timestamp: int)
    requires Once(d, s) && AscendingIds(Submit(d, s, call, timestamp).rows)
    ensures Once(d, Submit(d, s, call, timestamp))
  {
    var t := Submit(d, s, call, timestamp);
    SubmitPersists(d, s, call, timestamp);
    SubmitKeysLead(d, s, call, timestamp);
    NewAnswerBacked(d, s, call, timestamp);
    NewAnswerFirst(d, s, call, timestamp);
    assert t.answers == s.answers + [Answer(call, ResponseTo(d, s, call, timestamp))];
    forall i | 0 <= i < |t.answers|
      ensures Backed(d, t, t.answers[i])
    {
      if i < |s.answers| {
        BackedPersists(d, s, t, s.answers[i]);
      }
    }
  }

  lemma AppendPersists(d: Digests, s: State, request: Request, timestamp: int)
    ensures Persists(s, Append(d, s, request, timestamp))
  {
  }

  lemma StepPersists(d: Digests, s: State, step: Step)
    requires Enabled(d, s, step) && !step.SubmitStep?
    ensures var t := Apply(d, s, step);
            Persists(s, t) && t.keys == s.keys && t.answers == s.answers
  {
    match step {
      case CompleteStep(id, timestamp) => AppendPersists(d, s, CompanionRequest(id, s.live[id]), timestamp);
      case _ =>
    }
  }

  lemma StepKeepsOnce(d: Digests, s: State, step: Step)
    requires Once(d, s) && Inv(d, s) && Enabled(d, s, step)
    ensures Once(d, Apply(d, s, step))
  {
    StepKeepsInv(d, s, step);
    if step.SubmitStep? {
      SubmitKeepsOnce(d, s, step.call, step.timestamp);
    } else {
      StepPersists(d, s, step);
      SilentKeepsOnce(d, s, Apply(d, s, step));
    }
  }

  lemma {:induction false} RunKeepsOnce(d: Digests, steps: seq<Step>)
    requires ValidRun(d, steps)
    ensures Once(d, After(d, steps))
  {
    if steps != [] {
      var front := steps[..|steps| - 1];
      RunKeepsOnce(d, front);
      RunKeepsInv(d, front);
      StepKeepsOnce(d, After(d, front), steps[|steps| - 1]);
    }
  }

  /** The branch of `_replay_or_conflict` for a key whose event is gone is never taken. */
  lemma ReplayFindsItsEvent(d: Digests, steps: seq<Step>, k: CallerKey)
    requires ValidRun(d, steps) && k in After(d, steps).keys
    ensures KeyedRow(After(d, steps), k).Some?
  {
    RunKeepsOnce(d, steps);
  }

  // ----- what a call is answered -----

  /** The answer to any call on any reachable log: for a claimed key the event it was claimed for,
      if the content is the same, and otherwise a conflict; for any other call a new event with the
      next id, linked to the last one, unless the database already has its hash. */
  lemma AnswerExact(d: Digests, steps: seq<Step>, call: Call, timestamp: int)
    requires ValidRun(d, steps)
    ensures var s := After(d, steps);
            var r := ResponseTo(d, s, call, timestamp);
            var tail := if s.rows == [] then Repeat('0' as int, 64) else s.rows[|s.rows| - 1].eventHash;
            var eventHash := d.content(Content(call.request, timestamp, tail));
            if call.key.Some? && call.key.value in s.keys then
              var claim := s.keys[call.key.value];
              if claim.fingerprint != d.request(call.request) then r == Conflict
              else r.Replayed? && r.id == claim.eventId && Exists(s.rows, r.id, r.eventHash)
            else if exists i :: 0 <= i < |s.rows| && s.rows[i].eventHash == eventHash then r == Failed
            else r == Created(s.nextId, eventHash)
  {
    var s := After(d, steps);
    RunKeepsOnce(d, steps);
    var tail := if s.rows == [] then Repeat('0' as int, 64) else s.rows[|s.rows| - 1].eventHash;
    assert NewContent(s.rows, call.request, timestamp) == Content(call.request, timestamp, tail);
  }

  /** Once a call for a key got an event, every later one gets that event too if it has the same
      content, and is refused if it has not. */
  lemma RetryIsReplayed(d: Digests, steps: seq<Step>, a: Answer, call: Call, timestamp: int)
    requires ValidRun(d, steps) && a in After(d, steps).answers && Successful(a.response)
    requires a.call.key.Some? && call.key == a.call.key
    ensures ResponseTo(d, After(d, steps), call, timestamp)
            == if d.request(call.request) == d.request(a.call.request)
               then Replayed(a.response.id, a.response.eventHash) else Conflict
  {
    var s := After(d, steps);
    RunKeepsOnce(d, steps);
    RunKeepsInv(d, steps);
    AnswerExact(d, steps, call, timestamp);
    assert Backed(d, s, a);
    var r := ResponseTo(d, s, call, timestamp);
    if r.Replayed? {
      SameEvent(s.rows, r.id, r.eventHash, a.response.eventHash);
    }
  }

  // ----- what clients see -----

  /** What the lookup of a client in the critical section leads to, at any moment of any history:
      the claimed event, a conflict, or going on to append; the tables stay as they are. */
  lemma LookUpExact(d: Digests, labels: seq<Label>, i: nat)
    requires ValidHistory(d, labels) && CanDo(d, Reached(d, labels), LookUp(i))
    ensures var w := Reached(d, labels);
            var t := Do(d, w, LookUp(i));
            var call := w.clients[i].job.AsCall();
            && t.db.rows == w.db.rows && t.db.keys == w.db.keys
            && if call.key.None? || call.key.value !in w.db.keys then t.clients[i].Unclaimed?
               else
                 var claim := w.db.keys[call.key.value];
                 && t.clients[i].Answered?
                 && var r := t.clients[i].response;
                    if claim.fingerprint != d.request(call.request) then r == Conflict
                    else r.Replayed? && r.id == claim.eventId && Exists(w.db.rows, r.id, r.eventHash)
  {
    var steps := ConcurrentRefinesSequential(d, labels);
    RunKeepsOnce(d, steps);
  }

  /** The unique constraint on claimed keys, a backstop, never fires. */
  lemma KeyConstraintSilent(d: Digests, labels: seq<Label>, i: nat)
    requires ValidHistory(d, labels) && CanDo(d, Reached(d, labels), RecordKey(i))
    requires Reached(d, labels).clients[i].job.AsCall().key.Some?
    ensures Reached(d, labels).clients[i].job.AsCall().key.value !in Reached(d, labels).db.keys
  {
    var steps := ConcurrentRefinesSequential(d, labels);
    RunKeepsOnce(d, steps);
    var w := Reached(d, labels);
    assert ClientOk(d, w.db, w.clients[i]);
  }

  /** Client `i` has been answered with an event. */
  predicate Served(w: World, i: nat)
    requires i < |w.clients|
  {
    w.clients[i].Done? && Successful(w.clients[i].response) && w.clients[i].job.ApiJob?
  }

  // ----- who created what -----

  /** The client's call ended in a new event. */
  predicate Creator(c: Client) {
    c.Done? && c.response.Created?
  }

  /** Each creator has an id of its own, below every id still to come. */
  ghost predicate CreatorsApart(w: World) {
    && (forall i :: 0 <= i < |w.clients| && Creator(w.clients[i]) ==> w.clients[i].response.id < w.db.nextId)
    && (forall i, j :: 0 <= i < j < |w.clients| && Creator(w.clients[i]) && Creator(w.clients[j]) ==>
          w.clients[i].response.id != w.clients[j].response.id)
    && (forall i :: 0 <= i < |w.clients| && w.clients[i].Answered? ==> !w.clients[i].response.Created?)
  }

  /** A move after which client `i` is no creator, or the one of the id that was next. */
  lemma ApartAfterMove(w: World, t: World, i: nat)
    requires CreatorsApart(w) && i < |w.clients| == |t.clients| && t.clients == w.clients[i := t.clients[i]]
    requires t.db.nextId >= w.db.nextId
    requires Creator(t.clients[i]) ==> t.clients[i].response.id == w.db.nextId < t.db.nextId
    requires t.clients[i].Answered? ==> !t.clients[i].response.Created?
    ensures CreatorsApart(t)
  {
    forall j | 0 <= j < |t.clients|
      ensures j != i ==> t.clients[j] == w.clients[j]
    {
    }
  }

  lemma CommitKeepsApart(d: Digests, w: World, i: nat)
    requires WorldInv(d, w) && CreatorsApart(w) && CanDo(d, w, Commit(i))
    ensures CreatorsApart(Do(d, w, Commit(i)))
  {
    assert ClientOk(d, w.db, w.clients[i]);
    ApartAfterMove(w, Do(d, w, Commit(i)), i);
  }

  /** Statements that end nothing, or end in a failure. */
  lemma RollbackKeepsApart(d: Digests, w: World, l: Label)
    requires WorldInv(d, w) && CreatorsApart(w) && CanDo(d, w, l) && (l.Insert? || l.RecordKey? || l.Abort?)
    ensures CreatorsApart(Do(d, w, l))
  {
    assert w.clients[l.i].Inside() <==> w.holder == Some(l.i);
    ApartAfterMove(w, Do(d, w, l), l.i);
  }

  lemma StatementKeepsApart(d: Digests, w: World, l: Label)
    requires WorldInv(d, w) && CreatorsApart(w) && CanDo(d, w, l)
    requires l.TakeLock? || l.LookUp? || l.ReadTail? || l.ComputeHash? || l.Close?
    ensures CreatorsApart(Do(d, w, l))
  {
    ApartAfterMove(w, Do(d, w, l), l.i);
  }

  lemma OutsideKeepsApart(d: Digests, w: World, l: Label)
    requires CreatorsApart(w) && CanDo(d, w, l) && (l.Arrive? || l.Outside?)
    ensures CreatorsApart(Do(d, w, l))
  {
    var t := Do(d, w, l);
    assert forall j :: 0 <= j < |w.clients| ==> t.clients[j] == w.clients[j];
  }

  lemma MoveKeepsApart(d: Digests, w: World, l: Label)
    requires WorldInv(d, w) && CreatorsApart(w) && CanDo(d, w, l)
    ensures CreatorsApart(Do(d, w, l))
  {
    match l {
      case Arrive(_) => OutsideKeepsApart(d, w, l);
      case Outside(_) => OutsideKeepsApart(d, w, l);
      case Commit(i) => CommitKeepsApart(d, w, i);
      case Insert(_) => RollbackKeepsApart(d, w, l);
      case RecordKey(_) => RollbackKeepsApart(d, w, l);
      case Abort(_) => RollbackKeepsApart(d, w, l);
      case _ => StatementKeepsApart(d, w, l);
    }
  }

  lemma {:induction false} HistoryKeepsApart(d: Digests, labels: seq<Label>)
    requires ValidHistory(d, labels)
    ensures CreatorsApart(Reached(d, labels))
  {
    if labels != [] {
      var front := labels[..|labels| - 1];
      HistoryKeepsApart(d, front);
      var _ := ConcurrentRefinesSequential(d, front);
      MoveKeepsApart(d, Reached(d, front), labels[|labels| - 1]);
    }
  }

  /** Over every interleaving: clients answered with an event for the same key were answered with
      the same one, sent requests with the same fingerprint, and at most one of them created the
      event; and every event a client was given is in the log under the hash it was given. */
  lemma ExactlyOnceKeys(d: Digests, labels: seq<Label>, i: nat, j: nat)
    requires ValidHistory(d, labels)
    requires var w := Reached(d, labels);
             && i < |w.clients| && j < |w.clients| && Served(w, i) && Served(w, j)
             && w.clients[i].job.call.key.Some?
             && w.clients[i].job.call.key == w.clients[j].job.call.key
    ensures var w := Reached(d, labels);
            var a, b := w.clients[i], w.clients[j];
            && a.response.id == b.response.id && a.response.eventHash == b.response.eventHash
            && Exists(w.db.rows, a.response.id, a.response.eventHash)
            && d.request(a.job.call.request) == d.request(b.job.call.request)
            && (a.response.Created? && b.response.Created? ==> i == j)
  {
    var steps := ConcurrentRefinesSequential(d, labels);
    RunKeepsOnce(d, steps);
    RunKeepsInv(d, steps);
    var w := Reached(d, labels);
    var a, b := Answer(w.clients[i].job.call, w.clients[i].response), Answer(w.clients[j].job.call, w.clients[j].response);
    assert ClientOk(d, w.db, w.clients[i]) && ClientOk(d, w.db, w.clients[j]);
    assert a in w.db.answers && b in w.db.answers;
    assert Backed(d, w.db, a) && Backed(d, w.db, b);
    SameEvent(w.db.rows, a.response.id, a.response.eventHash, b.response.eventHash);
    HistoryKeepsApart(d, labels);
  }

  /** Over every interleaving: beside a client answered with an event for a key, every client that is
      done with the same key got the same event if it sent the same content, and a conflict if it
      did not, unless the database refused its insert. */
  lemma ServedAlike(d: Digests, labels: seq<Label>, i: nat, j: nat)
    requires ValidHistory(d, labels)
    requires var w := Reached(d, labels);
             && i < |w.clients| && j < |w.clients| && Served(w, i)
             && w.clients[j].Done? && w.clients[j].job.ApiJob? && !w.clients[j].response.Failed?
             && w.clients[i].job.call.key.Some?
             && w.clients[i].job.call.key == w.clients[j].job.call.key
    ensures var w := Reached(d, labels);
            var a, b := w.clients[i], w.clients[j];
            if d.request(a.job.call.request) == d.request(b.job.call.request)
            then Successful(b.response) && b.response.id == a.response.id && b.response.eventHash == a.response.eventHash
            else b.response == Conflict
  {
    var steps := ConcurrentRefinesSequential(d, labels);
    RunKeepsOnce(d, steps);
    var w := Reached(d, labels);
    var a, b := Answer(w.clients[i].job.call, w.clients[i].response), Answer(w.clients[j].job.call, w.clients[j].response);
    assert ClientOk(d, w.db, w.clients[i]) && ClientOk(d, w.db, w.clients[j]);
    assert a in w.db.answers && b in w.db.answers;
    assert Backed(d, w.db, a) && Backed(d, w.db, b);
    if !b.response.Conflict? {
      ExactlyOnceKeys(d, labels, i, j);
    }
  }

  lemma SameEvent(rows: seq<Row>, id: int, h: Text, h': Text)
    requires AscendingIds(rows) && Exists(rows, id, h) && Exists(rows, id, h')
    ensures h == h'
  {
    var i :| 0 <= i < |rows| && rows[i].id == id && rows[i].eventHash == h;
    var j :| 0 <= j < |rows| && rows[j].id == id && rows[j].eventHash == h';
    assert i == j;
  }

  /** Equal fingerprints mean equal caller-controlled content, dict order aside. */
  lemma SameFingerprintSameRequest(env: Env, r: Request, r': Request)
    requires CleanRequest(r) && CleanRequest(r')
    requires CollisionFree(env.sha256, {RequestPreimage(r), RequestPreimage(r')})
    requires ComputeRequestFingerprint(env, r) == ComputeRequestFingerprint(env, r')
    ensures CanonRequest(r) == CanonRequest(r')
  {
    RequestPreimageInjective(r, r');
  }
}
