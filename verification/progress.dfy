/** The other half of the refinement: a client left alone carries its call out whole, so whatever the
    sequential service can do, concurrent clients can. */
module Progress {
  import opened Texts
  import opened Jsons
  import opened Wrappers
  import opened AuditLog
  import opened Hashing
  import opened System
  import opened Invariants
  import opened Concurrency
  import opened Refinement
  import opened Tampering

  /** Statements leading from one world to another. */
  ghost predicate Leads(d: Digests, w: World, more: seq<Label>, t: World)
    decreases |more|
  {
    if more == [] then w == t
    else CanDo(d, w, more[0]) && Leads(d, Do(d, w, more[0]), more[1..], t)
  }

  lemma LeadsOn(d: Digests, w: World, l: Label, more: seq<Label>, t: World)
    requires CanDo(d, w, l) && Leads(d, Do(d, w, l), more, t)
    ensures Leads(d, w, [l] + more, t)
  {
    assert ([l] + more)[1..] == more;
  }

  lemma ExtendHistory(d: Digests, labels: seq<Label>, l: Label)
    requires ValidHistory(d, labels) && CanDo(d, Reached(d, labels), l)
    ensures ValidHistory(d, labels + [l]) && Reached(d, labels + [l]) == Do(d, Reached(d, labels), l)
  {
    assert (labels + [l])[..|labels|] == labels;
  }

  lemma SplitFirst(labels: seq<Label>, more: seq<Label>)
    requires more != []
    ensures more[..1] == [more[0]] && labels + more[..1] + more[1..] == labels + more
  {
  }

  lemma {:induction false} LeadsExtendsHistory(d: Digests, labels: seq<Label>, more: seq<Label>, t: World)
    requires ValidHistory(d, labels) && Leads(d, Reached(d, labels), more, t)
    ensures ValidHistory(d, labels + more) && Reached(d, labels + more) == t
    decreases |more|
  {
    if more == [] {
      assert labels + more == labels;
    } else {
      ExtendHistory(d, labels, more[0]);
      SplitFirst(labels, more);
      LeadsExtendsHistory(d, labels + more[..1], more[1..], t);
    }
  }

  /** What remains of a call whose lookup found nothing to replay, as one list of statements: it stops
      at the first one the database refuses. */
  function AppendLabels(d: Digests, db: State, i: nat, call: Call, timestamp: int): seq<Label> {
    var eventHash := d.content(NewContent(db.rows, call.request, timestamp));
    [ReadTail(i), ComputeHash(i, timestamp), Insert(i)]
    + (if HashTaken(db.rows, eventHash) then []
       else [RecordKey(i)] + if Claimable(db, call) then [Commit(i)] else [])
  }

  predicate Claimable(db: State, call: Call) {
    call.key.None? || call.key.value !in db.keys
  }

  function SoloLabels(d: Digests, db: State, i: nat, call: Call, timestamp: int): seq<Label> {
    [TakeLock(i), LookUp(i)]
    + if NoReplay(d, db, call) then AppendLabels(d, db, i, call, timestamp) else [Close(i)]
  }

  /** Where a companion's append leaves the log. */
  function CompanionAppended(d: Digests, s: State, target: int, timestamp: int): State
    requires target in s.live
  {
    if HashTaken(s.rows, d.content(NewContent(s.rows, CompanionRequest(target, s.live[target]), timestamp)))
    then s.(nextId := s.nextId + 1, live := s.live - {target}, stuck := s.stuck + {target})
    else SecondCommit(d, s, target, timestamp)
  }

  /** Where a client's whole call leaves the log, and what it is answered. */
  function JobState(d: Digests, s: State, job: Job, timestamp: int): State {
    match job
    case ApiJob(call) => Submit(d, s, call, timestamp)
    case CompanionJob(target, _) => if target in s.live then CompanionAppended(d, s, target, timestamp) else s
  }

  /** The world when client `i` is done and nobody else has moved. */
  function SoloEnd(d: Digests, w: World, i: nat, timestamp: int): World
    requires i < |w.clients|
  {
    var job := w.clients[i].job;
    var db := JobState(d, w.db, job, timestamp);
    World(db, db.nextId, None, w.clients[i := Done(job, ResponseTo(d, w.db, job.AsCall(), timestamp))])
  }

  lemma MoveTwice(clients: seq<Client>, i: nat, a: Client, b: Client)
    requires i < |clients|
    ensures clients[i := a][i := b] == clients[i := b]
  {
  }

  /** The client holds the lock and found nothing to replay; nothing was committed since it came. */
  ghost predicate AtUnclaimed(d: Digests, w: World, i: nat) {
    && i < |w.clients| && w.clients[i].Unclaimed? && w.holder == Some(i) && w.sequence == w.db.nextId
    && NoReplay(d, w.db, w.clients[i].job.AsCall()) && JobOk(w.db, w.clients[i])
  }

  lemma InsertEnds(d: Digests, w: World, i: nat, timestamp: int)
    requires AtUnclaimed(d, w, i)
    requires HashTaken(w.db.rows, d.content(NewContent(w.db.rows, w.clients[i].job.AsCall().request, timestamp)))
    ensures Leads(d, w, [ReadTail(i), ComputeHash(i, timestamp), Insert(i)], SoloEnd(d, w, i, timestamp))
  {
    var job := w.clients[i].job;
    var content := NewContent(w.db.rows, job.AsCall().request, timestamp);
    var a := Do(d, w, ReadTail(i));
    var b := Do(d, a, ComputeHash(i, timestamp));
    assert b.clients[i] == Hashed(job, content, d.content(content)) && b.db == w.db;
    var c := Do(d, b, Insert(i));
    MoveTwice(w.clients, i, a.clients[i], b.clients[i]);
    MoveTwice(w.clients, i, b.clients[i], c.clients[i]);
    assert c == SoloEnd(d, w, i, timestamp);
    assert Leads(d, c, [], c);
    LeadsOn(d, b, Insert(i), [], c);
    LeadsOn(d, a, ComputeHash(i, timestamp), [Insert(i)], c);
    LeadsOn(d, w, ReadTail(i), [ComputeHash(i, timestamp), Insert(i)], c);
  }

  /** The world after the insert went through. */
  function AtInserted(d: Digests, w: World, i: nat, timestamp: int): World
    requires i < |w.clients|
  {
    var job := w.clients[i].job;
    var row := NewRow(d.content, w.sequence, NewContent(w.db.rows, job.AsCall().request, timestamp));
    World(w.db, w.sequence + 1, w.holder, w.clients[i := Inserted(job, row)])
  }

  lemma InsertGoesThrough(d: Digests, w: World, i: nat, timestamp: int, more: seq<Label>, t: World)
    requires AtUnclaimed(d, w, i)
    requires !HashTaken(w.db.rows, d.content(NewContent(w.db.rows, w.clients[i].job.AsCall().request, timestamp)))
    requires Leads(d, AtInserted(d, w, i, timestamp), more, t)
    ensures Leads(d, w, [ReadTail(i), ComputeHash(i, timestamp), Insert(i)] + more, t)
  {
    var job := w.clients[i].job;
    var content := NewContent(w.db.rows, job.AsCall().request, timestamp);
    var a := Do(d, w, ReadTail(i));
    var b := Do(d, a, ComputeHash(i, timestamp));
    assert b.clients[i] == Hashed(job, content, d.content(content)) && b.db == w.db;
    var c := Do(d, b, Insert(i));
    MoveTwice(w.clients, i, a.clients[i], b.clients[i]);
    MoveTwice(w.clients, i, b.clients[i], c.clients[i]);
    assert c == AtInserted(d, w, i, timestamp);
    LeadsOn(d, b, Insert(i), more, t);
    LeadsOn(d, a, ComputeHash(i, timestamp), [Insert(i)] + more, t);
    LeadsOn(d, w, ReadTail(i), [ComputeHash(i, timestamp)] + ([Insert(i)] + more), t);
    assert [ReadTail(i)] + ([ComputeHash(i, timestamp)] + ([Insert(i)] + more))
           == [ReadTail(i), ComputeHash(i, timestamp), Insert(i)] + more;
  }

  lemma RecordEnds(d: Digests, w: World, i: nat, timestamp: int)
    requires AtUnclaimed(d, w, i) && !Claimable(w.db, w.clients[i].job.AsCall())
    requires !HashTaken(w.db.rows, d.content(NewContent(w.db.rows, w.clients[i].job.AsCall().request, timestamp)))
    ensures Leads(d, AtInserted(d, w, i, timestamp), [RecordKey(i)], SoloEnd(d, w, i, timestamp))
  {
    var v := AtInserted(d, w, i, timestamp);
    var t := Do(d, v, RecordKey(i));
    MoveTwice(w.clients, i, v.clients[i], t.clients[i]);
    assert t == SoloEnd(d, w, i, timestamp);
    assert Leads(d, t, [], t);
    LeadsOn(d, v, RecordKey(i), [], t);
  }

  lemma CommitEnds(d: Digests, w: World, i: nat, timestamp: int)
    requires AtUnclaimed(d, w, i) && Claimable(w.db, w.clients[i].job.AsCall())
    requires !HashTaken(w.db.rows, d.content(NewContent(w.db.rows, w.clients[i].job.AsCall().request, timestamp)))
    ensures Leads(d, AtInserted(d, w, i, timestamp), [RecordKey(i), Commit(i)], SoloEnd(d, w, i, timestamp))
  {
    var v := AtInserted(d, w, i, timestamp);
    var u := Do(d, v, RecordKey(i));
    var t := Do(d, u, Commit(i));
    MoveTwice(w.clients, i, v.clients[i], u.clients[i]);
    MoveTwice(w.clients, i, u.clients[i], t.clients[i]);
    assert t == SoloEnd(d, w, i, timestamp);
    assert Leads(d, t, [], t);
    LeadsOn(d, u, Commit(i), [], t);
    LeadsOn(d, v, RecordKey(i), [Commit(i)], t);
  }

  lemma AppendEnds(d: Digests, w: World, i: nat, timestamp: int)
    requires AtUnclaimed(d, w, i)
    ensures Leads(d, w, AppendLabels(d, w.db, i, w.clients[i].job.AsCall(), timestamp), SoloEnd(d, w, i, timestamp))
  {
    var call := w.clients[i].job.AsCall();
    var start := [ReadTail(i), ComputeHash(i, timestamp), Insert(i)];
    if HashTaken(w.db.rows, d.content(NewContent(w.db.rows, call.request, timestamp))) {
      InsertEnds(d, w, i, timestamp);
      assert start + [] == start;
    } else if Claimable(w.db, call) {
      CommitEnds(d, w, i, timestamp);
      InsertGoesThrough(d, w, i, timestamp, [RecordKey(i), Commit(i)], SoloEnd(d, w, i, timestamp));
      assert [RecordKey(i)] + [Commit(i)] == [RecordKey(i), Commit(i)];
    } else {
      RecordEnds(d, w, i, timestamp);
      InsertGoesThrough(d, w, i, timestamp, [RecordKey(i)], SoloEnd(d, w, i, timestamp));
      assert [RecordKey(i)] + [] == [RecordKey(i)];
    }
  }

  lemma SoloLeads(d: Digests, w: World, i: nat, timestamp: int)
    requires WorldInv(d, w) && i < |w.clients| && w.clients[i].Ready? && w.holder.None?
    ensures Leads(d, w, SoloLabels(d, w.db, i, w.clients[i].job.AsCall(), timestamp), SoloEnd(d, w, i, timestamp))
  {
    var job := w.clients[i].job;
    var call := job.AsCall();
    var a := Do(d, w, TakeLock(i));
    var b := Do(d, a, LookUp(i));
    MoveTwice(w.clients, i, a.clients[i], b.clients[i]);
    assert JobOk(w.db, w.clients[i]);
    var rest: seq<Label>;
    if NoReplay(d, w.db, call) {
      rest := AppendLabels(d, w.db, i, call, timestamp);
      AppendEnds(d, b, i, timestamp);
      MoveTwice(w.clients, i, b.clients[i], SoloEnd(d, w, i, timestamp).clients[i]);
      assert SoloEnd(d, b, i, timestamp) == SoloEnd(d, w, i, timestamp);
    } else {
      rest := [Close(i)];
      var t := Do(d, b, Close(i));
      MoveTwice(w.clients, i, b.clients[i], t.clients[i]);
      assert t == SoloEnd(d, w, i, timestamp);
      assert Leads(d, t, [], t);
      LeadsOn(d, b, Close(i), [], t);
    }
    LeadsOn(d, a, LookUp(i), rest, SoloEnd(d, w, i, timestamp));
    LeadsOn(d, w, TakeLock(i), [LookUp(i)] + rest, SoloEnd(d, w, i, timestamp));
    assert [TakeLock(i)] + ([LookUp(i)] + rest) == [TakeLock(i), LookUp(i)] + rest;
  }

  /** Whenever the lock is free, a waiting client that is left alone gets through all its statements,
      and is then answered what the atomic call answers, on tables as the atomic call leaves them. */
  lemma SoloIsAtomic(d: Digests, labels: seq<Label>, i: nat, timestamp: int) returns (more: seq<Label>)
    requires ValidHistory(d, labels)
    requires var w := Reached(d, labels);
             i < |w.clients| && w.clients[i].Ready? && w.clients[i].job.ApiJob? && w.holder.None?
    ensures ValidHistory(d, labels + more)
    ensures var w, t := Reached(d, labels), Reached(d, labels + more);
            var call := w.clients[i].job.call;
            && t.db == Submit(d, w.db, call, timestamp)
            && t.clients == w.clients[i := Done(ApiJob(call), ResponseTo(d, w.db, call, timestamp))]
            && t.holder.None?
  {
    var _ := ConcurrentRefinesSequential(d, labels);
    var w := Reached(d, labels);
    more := SoloLabels(d, w.db, i, w.clients[i].job.AsCall(), timestamp);
    SoloLeads(d, w, i, timestamp);
    LeadsExtendsHistory(d, labels, more, SoloEnd(d, w, i, timestamp));
  }

  /** The unique constraint on `event_hash`, a backstop, never fires for any client of any history, as
      long as the hash tells apart what the log was created from and the content being inserted. */
  lemma HashConstraintSilent(d: Digests, labels: seq<Label>, i: nat)
    requires ValidHistory(d, labels) && CanDo(d, Reached(d, labels), Insert(i))
    requires var w := Reached(d, labels);
             var next := Append(d, w.db, w.clients[i].job.AsCall().request, w.clients[i].content.timestamp);
             Faithful(d.content, Origins(next)) && AvoidsGenesis(d.content, Origins(next))
    ensures Do(d, Reached(d, labels), Insert(i)).clients[i].Inserted?
  {
    var steps := ConcurrentRefinesSequential(d, labels);
    var w := Reached(d, labels);
    assert ClientOk(d, w.db, w.clients[i]);
    NoFork(d, steps, w.clients[i].job.AsCall().request, w.clients[i].content.timestamp);
  }

  /** A client can give up at any moment before it is done. That leaves no row and no key, frees the
      lock if the client held it, and gives no id back: one it took is lost. */
  lemma AbortLeavesNothing(d: Digests, labels: seq<Label>, i: nat)
    requires ValidHistory(d, labels)
    requires i < |Reached(d, labels).clients| && !Reached(d, labels).clients[i].Finished()
    ensures ValidHistory(d, labels + [Abort(i)])
    ensures var w, t := Reached(d, labels), Reached(d, labels + [Abort(i)]);
            && t.db.rows == w.db.rows && t.db.keys == w.db.keys && t.db.answers == w.db.answers
            && t.sequence == w.sequence && (w.clients[i].HoldsId() ==> t.db.nextId == w.db.nextId + 1)
            && t.clients == w.clients[i := Aborted(w.clients[i].job)]
            && t.holder == if w.holder == Some(i) then None else w.holder
  {
    var _ := ConcurrentRefinesSequential(d, labels);
    ExtendHistory(d, labels, Abort(i));
  }

  // ----- every sequential run is a history -----

  /** Nobody is waiting or working. */
  ghost predicate AtRest(w: World) {
    w.holder.None? && forall i :: 0 <= i < |w.clients| ==> w.clients[i].Done?
  }

  lemma JobDone(d: Digests, labels: seq<Label>, job: Job, timestamp: int) returns (more: seq<Label>)
    requires ValidHistory(d, labels) && AtRest(Reached(d, labels)) && MayArrive(Reached(d, labels), job)
    ensures ValidHistory(d, labels + more) && AtRest(Reached(d, labels + more))
    ensures Reached(d, labels + more).db == JobState(d, Reached(d, labels).db, job, timestamp)
  {
    var w := Reached(d, labels);
    var i := |w.clients|;
    var a := Do(d, w, Arrive(job));
    var _ := ConcurrentRefinesSequential(d, labels);
    ArriveMove(d, w, job);
    var rest := SoloLabels(d, a.db, i, job.AsCall(), timestamp);
    SoloLeads(d, a, i, timestamp);
    LeadsOn(d, w, Arrive(job), rest, SoloEnd(d, a, i, timestamp));
    more := [Arrive(job)] + rest;
    LeadsExtendsHistory(d, labels, more, SoloEnd(d, a, i, timestamp));
  }

  lemma OutsideDone(d: Digests, labels: seq<Label>, step: Step)
    requires ValidHistory(d, labels) && AtRest(Reached(d, labels)) && CanDo(d, Reached(d, labels), Outside(step))
    ensures ValidHistory(d, labels + [Outside(step)]) && AtRest(Reached(d, labels + [Outside(step)]))
    ensures Reached(d, labels + [Outside(step)]).db == Do(d, Reached(d, labels), Outside(step)).db
  {
    ExtendHistory(d, labels, Outside(step));
  }

  lemma NonePending(w: World, target: int)
    requires AtRest(w)
    ensures !CompanionPending(w.clients, target)
  {
  }

  lemma StepDone(d: Digests, labels: seq<Label>, step: Step) returns (more: seq<Label>)
    requires ValidHistory(d, labels) && AtRest(Reached(d, labels))
    requires Enabled(d, Reached(d, labels).db, step) && !step.BurnStep?
    ensures ValidHistory(d, labels + more) && AtRest(Reached(d, labels + more))
    ensures Reached(d, labels + more).db == Apply(d, Reached(d, labels).db, step)
  {
    var w := Reached(d, labels);
    match step {
      case SubmitStep(call, timestamp) => more := JobDone(d, labels, ApiJob(call), timestamp);
      case CompleteStep(id, timestamp) =>
        NonePending(w, id);
        more := JobDone(d, labels, CompanionJob(id, CompanionRequest(id, w.db.live[id])), timestamp);
      case RedactStep(_, _, _, _, _) => OutsideDone(d, labels, step); more := [Outside(step)];
      case ArchiveStep(_, _) => OutsideDone(d, labels, step); more := [Outside(step)];
      case CrashStep(id) => NonePending(w, id); OutsideDone(d, labels, step); more := [Outside(step)];
    }
  }

  /** Every run of the sequential service in which no id is lost on its own is what some history of
      concurrent clients commits, so the two are the same service. */
  lemma {:induction false} SequentialIsConcurrent(d: Digests, steps: seq<Step>) returns (labels: seq<Label>)
    requires ValidRun(d, steps) && forall k :: 0 <= k < |steps| ==> !steps[k].BurnStep?
    ensures ValidHistory(d, labels) && AtRest(Reached(d, labels))
    ensures Reached(d, labels).db == After(d, steps)
  {
    if steps == [] {
      labels := [];
    } else {
      var n := |steps| - 1;
      var before := SequentialIsConcurrent(d, steps[..n]);
      var more := StepDone(d, before, steps[n]);
      labels := before + more;
    }
  }
}
