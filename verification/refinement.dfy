/** Concurrent clients give what some sequential order of atomic calls gives. */
module Refinement {
  import opened Texts
  import opened Wrappers
  import opened AuditLog
  import opened ChainVerification
  import opened Hashing
  import opened System
  import opened Invariants
  import opened Concurrency

  // ----- moves of the client in the critical section -----

  /** What a move of client `i`, inside the critical section, may do to the rest of the world. */
  ghost predicate InsideMove(d: Digests, w: World, t: World, i: nat)
    requires i < |w.clients|
  {
    && |t.clients| == |w.clients| && t.clients == w.clients[i := t.clients[i]]
    && t.clients[i].job == w.clients[i].job
    && (w.clients[i].Finished() ==> t.clients[i].Finished())
    && w.db.answers <= t.db.answers
    && t.holder == (if t.clients[i].Inside() then Some(i) else None)
    && t.sequence == t.db.nextId + (if t.clients[i].HoldsId() then 1 else 0)
    && ClientOk(d, t.db, t.clients[i]) && JobOk(t.db, t.clients[i])
    && forall y :: y in w.db.live ==>
         || (y in t.db.live && t.db.live[y] == w.db.live[y])
         || (PendingFor(w.clients[i], y) && t.clients[i].Finished())
  }

  lemma OutsiderKept(d: Digests, db: State, db': State, c: Client)
    requires ClientOk(d, db, c) && !c.Inside() && db.answers <= db'.answers
    ensures ClientOk(d, db', c)
  {
  }

  lemma JobKept(db: State, db': State, c: Client)
    requires JobOk(db, c)
    requires forall y :: PendingFor(c, y) && y in db.live ==> y in db'.live && db'.live[y] == db.live[y]
    ensures JobOk(db', c)
  {
    if c.job.CompanionJob? && !c.Finished() {
      assert PendingFor(c, c.job.target);
    }
  }

  lemma OnePending(clients: seq<Client>, i: nat, j: nat, target: int)
    requires OneCompanionEach(clients) && i < |clients| && j < |clients| && i != j
    ensures !(PendingFor(clients[i], target) && PendingFor(clients[j], target))
  {
    var low, high := if i < j then i else j, if i < j then j else i;
    assert PendingFor(clients[low], target) ==> !PendingFor(clients[high], target);
  }

  lemma OneCompanionKept(w: World, t: World, i: nat)
    requires OneCompanionEach(w.clients) && i < |w.clients| == |t.clients|
    requires t.clients == w.clients[i := t.clients[i]] && t.clients[i].job == w.clients[i].job
    requires w.clients[i].Finished() ==> t.clients[i].Finished()
    ensures OneCompanionEach(t.clients)
  {
    forall j, k, x | 0 <= j < k < |t.clients| && PendingFor(t.clients[j], x)
      ensures !PendingFor(t.clients[k], x)
    {
      assert PendingFor(w.clients[j], x);
      assert PendingFor(t.clients[k], x) ==> PendingFor(w.clients[k], x);
    }
  }

  lemma InsideMoveKeepsInv(d: Digests, w: World, t: World, i: nat)
    requires WorldInv(d, w) && i < |w.clients| && w.clients[i].Inside() && InsideMove(d, w, t, i)
    ensures WorldInv(d, t)
  {
    forall j | 0 <= j < |t.clients|
      ensures ClientOk(d, t.db, t.clients[j]) && JobOk(t.db, t.clients[j])
      ensures t.clients[j].Inside() <==> t.holder == Some(j)
    {
      if j != i {
        assert t.clients[j] == w.clients[j];
        assert w.clients[j].Inside() <==> w.holder == Some(j);
        assert w.holder == Some(i);
        OutsiderKept(d, w.db, t.db, w.clients[j]);
        forall y | PendingFor(w.clients[j], y) && y in w.db.live
          ensures y in t.db.live && t.db.live[y] == w.db.live[y]
        {
          OnePending(w.clients, i, j, y);
        }
        JobKept(w.db, t.db, w.clients[j]);
      }
    }
    OneCompanionKept(w, t, i);
  }

  // ----- each move: invariant kept, sequential steps matched -----

  /** Sequential steps leading from one committed state to another. */
  ghost predicate Follows(d: Digests, s: State, steps: seq<Step>, t: State)
    decreases |steps|
  {
    if steps == [] then s == t
    else Enabled(d, s, steps[0]) && Follows(d, Apply(d, s, steps[0]), steps[1..], t)
  }

  lemma OneStep(d: Digests, s: State, step: Step, t: State)
    requires Enabled(d, s, step) && Apply(d, s, step) == t
    ensures Follows(d, s, [step], t)
  {
    assert [step][1..] == [];
    assert Follows(d, t, [], t);
  }

  lemma TwoSteps(d: Digests, s: State, a: Step, b: Step, t: State)
    requires Enabled(d, s, a) && Enabled(d, Apply(d, s, a), b) && Apply(d, Apply(d, s, a), b) == t
    ensures Follows(d, s, [a, b], t)
  {
    assert [a, b][1..] == [b];
    OneStep(d, Apply(d, s, a), b, t);
  }

  lemma LookUpMove(d: Digests, w: World, i: nat) returns (steps: seq<Step>)
    requires WorldInv(d, w) && CanDo(d, w, LookUp(i))
    ensures WorldInv(d, Do(d, w, LookUp(i)))
    ensures Follows(d, w.db, steps, Do(d, w, LookUp(i)).db)
  {
    var t := Do(d, w, LookUp(i));
    var job := w.clients[i].job;
    assert ClientOk(d, w.db, w.clients[i]) && JobOk(w.db, w.clients[i]);
    assert InsideMove(d, w, t, i);
    InsideMoveKeepsInv(d, w, t, i);
    if t.clients[i].Answered? {
      OneStep(d, w.db, SubmitStep(job.AsCall(), 0), t.db);
      steps := [SubmitStep(job.AsCall(), 0)];
    } else {
      steps := [];
    }
  }

  lemma PrivateMove(d: Digests, w: World, l: Label)
    requires WorldInv(d, w) && CanDo(d, w, l) && (l.ReadTail? || l.ComputeHash? || l.Close?)
    ensures WorldInv(d, Do(d, w, l)) && Do(d, w, l).db == w.db
  {
    var t := Do(d, w, l);
    assert ClientOk(d, w.db, w.clients[l.i]) && JobOk(w.db, w.clients[l.i]);
    assert InsideMove(d, w, t, l.i);
    InsideMoveKeepsInv(d, w, t, l.i);
  }

  /** What a rollback amounts to: an id lost, if one was taken, and a redaction left half-way,
      if this was its companion. */
  function LostSteps(w: World, i: nat, sequence: int): seq<Step>
    requires i < |w.clients|
  {
    (if w.clients[i].Inside() && sequence > w.db.nextId then [BurnStep] else [])
    + (if w.clients[i].job.CompanionJob? then [CrashStep(w.clients[i].job.target)] else [])
  }

  lemma LostStepsFollow(d: Digests, w: World, i: nat, client: Client, sequence: int)
    requires WorldInv(d, w) && i < |w.clients| && !w.clients[i].Finished()
    requires w.clients[i].Inside() ==> w.db.nextId <= sequence <= w.db.nextId + 1
    ensures Follows(d, w.db, LostSteps(w, i, sequence), RolledBack(w, i, client, sequence).db)
  {
    var t := RolledBack(w, i, client, sequence).db;
    var job := w.clients[i].job;
    assert JobOk(w.db, w.clients[i]);
    if w.clients[i].Inside() && sequence > w.db.nextId {
      if job.CompanionJob? {
        TwoSteps(d, w.db, BurnStep, CrashStep(job.target), t);
      } else {
        OneStep(d, w.db, BurnStep, t);
      }
    } else if job.CompanionJob? {
      OneStep(d, w.db, CrashStep(job.target), t);
    }
  }

  lemma InsertMove(d: Digests, w: World, i: nat) returns (steps: seq<Step>)
    requires WorldInv(d, w) && CanDo(d, w, Insert(i))
    ensures WorldInv(d, Do(d, w, Insert(i)))
    ensures Follows(d, w.db, steps, Do(d, w, Insert(i)).db)
  {
    var t := Do(d, w, Insert(i));
    var c := w.clients[i];
    assert ClientOk(d, w.db, c) && JobOk(w.db, c);
    assert w.holder == Some(i) && w.sequence == w.db.nextId;
    if HashTaken(w.db.rows, c.eventHash) {
      steps := InsertRefused(d, w, i);
    } else {
      assert InsideMove(d, w, t, i);
      InsideMoveKeepsInv(d, w, t, i);
      steps := [];
    }
  }

  /** The unique constraint on `event_hash` refuses the insert. */
  lemma InsertRefused(d: Digests, w: World, i: nat) returns (steps: seq<Step>)
    requires WorldInv(d, w) && CanDo(d, w, Insert(i)) && HashTaken(w.db.rows, w.clients[i].eventHash)
    requires w.sequence == w.db.nextId
    ensures WorldInv(d, FailedWith(w, i, w.sequence + 1))
    ensures Follows(d, w.db, steps, FailedWith(w, i, w.sequence + 1).db)
  {
    var t := FailedWith(w, i, w.sequence + 1);
    var c := w.clients[i];
    FailureMoveOk(d, w, i, w.sequence + 1);
    assert ClientOk(d, w.db, c) && JobOk(w.db, c);
    if c.job.ApiJob? {
      var step := SubmitStep(c.job.call, c.content.timestamp);
      assert ResponseTo(d, w.db, c.job.call, c.content.timestamp) == Failed;
      OneStep(d, w.db, step, t.db);
      steps := [step];
    } else {
      LostStepsFollow(d, w, i, Done(c.job, Failed), w.sequence + 1);
      steps := LostSteps(w, i, w.sequence + 1);
    }
  }

  lemma FailureMoveOk(d: Digests, w: World, i: nat, sequence: int)
    requires WorldInv(d, w) && i < |w.clients| && w.clients[i].Inside() && !w.clients[i].Finished()
    ensures WorldInv(d, FailedWith(w, i, sequence))
  {
    var t := FailedWith(w, i, sequence);
    assert JobOk(w.db, w.clients[i]);
    assert InsideMove(d, w, t, i);
    InsideMoveKeepsInv(d, w, t, i);
  }

  lemma RecordKeyMove(d: Digests, w: World, i: nat) returns (steps: seq<Step>)
    requires WorldInv(d, w) && CanDo(d, w, RecordKey(i))
    ensures WorldInv(d, Do(d, w, RecordKey(i)))
    ensures Follows(d, w.db, steps, Do(d, w, RecordKey(i)).db)
  {
    var t := Do(d, w, RecordKey(i));
    var c := w.clients[i];
    var call := c.job.AsCall();
    assert ClientOk(d, w.db, c) && JobOk(w.db, c);
    assert w.holder == Some(i) && w.sequence == w.db.nextId + 1;
    if call.key.Some? && call.key.value in w.db.keys {
      FailureMoveOk(d, w, i, w.sequence);
      OneStep(d, w.db, SubmitStep(call, c.row.content.timestamp), t.db);
      steps := [SubmitStep(call, c.row.content.timestamp)];
    } else {
      assert InsideMove(d, w, t, i);
      InsideMoveKeepsInv(d, w, t, i);
      steps := [];
    }
  }

  lemma CommitMove(d: Digests, w: World, i: nat) returns (steps: seq<Step>)
    requires WorldInv(d, w) && CanDo(d, w, Commit(i))
    ensures WorldInv(d, Do(d, w, Commit(i)))
    ensures Follows(d, w.db, steps, Do(d, w, Commit(i)).db)
  {
    var t := Do(d, w, Commit(i));
    var c := w.clients[i];
    var timestamp := c.row.content.timestamp;
    assert ClientOk(d, w.db, c) && JobOk(w.db, c);
    assert w.holder == Some(i) && w.sequence == w.db.nextId + 1;
    assert InsideMove(d, w, t, i);
    InsideMoveKeepsInv(d, w, t, i);
    var step := match c.job
      case ApiJob(call) => SubmitStep(call, timestamp)
      case CompanionJob(target, _) => CompleteStep(target, timestamp);
    OneStep(d, w.db, step, t.db);
    steps := [step];
  }

  // ----- moves outside the critical section -----

  lemma TakeLockMove(d: Digests, w: World, i: nat)
    requires WorldInv(d, w) && CanDo(d, w, TakeLock(i))
    ensures WorldInv(d, Do(d, w, TakeLock(i))) && Do(d, w, TakeLock(i)).db == w.db
  {
    var t := Do(d, w, TakeLock(i));
    forall j | 0 <= j < |t.clients|
      ensures ClientOk(d, t.db, t.clients[j]) && JobOk(t.db, t.clients[j])
      ensures t.clients[j].Inside() <==> t.holder == Some(j)
    {
      assert ClientOk(d, w.db, w.clients[j]) && JobOk(w.db, w.clients[j]);
      assert w.clients[j].Inside() <==> w.holder == Some(j);
    }
    OneCompanionKept(w, t, i);
  }

  lemma ArriveMove(d: Digests, w: World, job: Job)
    requires WorldInv(d, w) && CanDo(d, w, Arrive(job))
    ensures WorldInv(d, Do(d, w, Arrive(job))) && Do(d, w, Arrive(job)).db == w.db
  {
    var t := Do(d, w, Arrive(job));
    var n := |w.clients|;
    forall j | 0 <= j < |t.clients|
      ensures ClientOk(d, t.db, t.clients[j]) && JobOk(t.db, t.clients[j])
      ensures t.clients[j].Inside() <==> t.holder == Some(j)
    {
      if j < n {
        assert t.clients[j] == w.clients[j];
        assert ClientOk(d, w.db, w.clients[j]) && JobOk(w.db, w.clients[j]);
        assert w.clients[j].Inside() <==> w.holder == Some(j);
      }
    }
    forall j, k, x | 0 <= j < k < |t.clients| && PendingFor(t.clients[j], x)
      ensures !PendingFor(t.clients[k], x)
    {
      assert t.clients[j] == w.clients[j] && PendingFor(w.clients[j], x);
      if k < n {
        assert t.clients[k] == w.clients[k];
      } else {
        assert CompanionPending(w.clients, x);
      }
    }
  }

  /** A change of committed state that a transaction in progress does not notice. */
  ghost predicate Unnoticed(db: State, db': State) {
    && AllTouched(db.rows, db'.rows)
    && db'.keys == db.keys && db'.nextId == db.nextId && db'.answers == db.answers
  }

  lemma UnnoticedTail(db: State, db': State, eventHash: Text, id: int)
    requires Unnoticed(db, db')
    ensures LinkBefore(db.rows, |db.rows|) == LinkBefore(db'.rows, |db'.rows|)
    ensures HashTaken(db.rows, eventHash) <==> HashTaken(db'.rows, eventHash)
    ensures Find(db.rows, id) == Find(db'.rows, id)
  {
    var a, b := db.rows, db'.rows;
    if a != [] {
      assert Touched(a[|a| - 1], b[|b| - 1]);
    }
    TouchedHashes(a, b, eventHash);
    TouchedFind(a, b, id);
  }

  lemma {:induction false} TouchedHashes(a: seq<Row>, b: seq<Row>, eventHash: Text)
    requires AllTouched(a, b)
    ensures HashTaken(a, eventHash) <==> HashTaken(b, eventHash)
  {
    assert HashTaken(a, eventHash) <==> exists k :: 0 <= k < |a| && a[k].eventHash == eventHash;
    assert HashTaken(b, eventHash) <==> exists k :: 0 <= k < |b| && b[k].eventHash == eventHash;
    assert forall k :: 0 <= k < |a| ==> Touched(a[k], b[k]);
  }

  lemma {:induction false} TouchedFind(a: seq<Row>, b: seq<Row>, id: int)
    requires AllTouched(a, b)
    ensures Find(a, id) == Find(b, id)
  {
    if a != [] {
      var n := |a| - 1;
      assert Touched(a[n], b[n]);
      TouchedFind(a[..n], b[..n], id);
    }
  }

  lemma UnnoticedClient(d: Digests, db: State, db': State, c: Client)
    requires Unnoticed(db, db') && ClientOk(d, db, c)
    ensures ClientOk(d, db', c)
  {
    var key := c.job.AsCall().key;
    var hash := match c
      case Inserted(_, row) => row.eventHash
      case Claimed(_, row, _) => row.eventHash
      case _ => [];
    var id := if key.Some? && key.value in db.keys then db.keys[key.value].eventId else 0;
    UnnoticedTail(db, db', hash, id);
  }

  lemma OutsideMove(d: Digests, w: World, step: Step)
    requires Inv(d, w.db) && WorldInv(d, w) && CanDo(d, w, Outside(step))
    ensures WorldInv(d, Do(d, w, Outside(step)))
    ensures Follows(d, w.db, [step], Do(d, w, Outside(step)).db)
  {
    var t := Do(d, w, Outside(step));
    match step {
      case RedactStep(id, fields, actorId, reason, now) =>
        var k := Find(w.db.rows, id).value;
        FirstCommitTouches(d, w.db, k, NewFields(w.db.rows[k], fields), actorId, reason, now);
      case ArchiveStep(cutoff, now) => ArchiveKeepsInv(d, w.db, cutoff, now);
      case CrashStep(_) =>
    }
    forall j | 0 <= j < |w.clients|
      ensures ClientOk(d, t.db, w.clients[j]) && JobOk(t.db, w.clients[j])
    {
      assert ClientOk(d, w.db, w.clients[j]) && JobOk(w.db, w.clients[j]);
      UnnoticedClient(d, w.db, t.db, w.clients[j]);
      JobKept(w.db, t.db, w.clients[j]);
    }
    OneStep(d, w.db, step, t.db);
  }

  lemma AbortMove(d: Digests, w: World, i: nat) returns (steps: seq<Step>)
    requires WorldInv(d, w) && CanDo(d, w, Abort(i))
    ensures WorldInv(d, Do(d, w, Abort(i)))
    ensures Follows(d, w.db, steps, Do(d, w, Abort(i)).db)
  {
    var t := Do(d, w, Abort(i));
    var c := w.clients[i];
    assert ClientOk(d, w.db, c) && JobOk(w.db, c);
    assert c.Inside() <==> w.holder == Some(i);
    LostStepsFollow(d, w, i, Aborted(c.job), w.sequence);
    steps := LostSteps(w, i, w.sequence);
    if c.Inside() {
      assert InsideMove(d, w, t, i);
      InsideMoveKeepsInv(d, w, t, i);
    } else {
      AbortBeforeLock(d, w, i);
    }
  }

  lemma AbortBeforeLock(d: Digests, w: World, i: nat)
    requires WorldInv(d, w) && i < |w.clients| && w.clients[i].Ready?
    ensures WorldInv(d, Do(d, w, Abort(i)))
  {
    var t := Do(d, w, Abort(i));
    forall j | 0 <= j < |t.clients|
      ensures ClientOk(d, t.db, t.clients[j]) && JobOk(t.db, t.clients[j])
      ensures t.clients[j].Inside() <==> t.holder == Some(j)
    {
      assert ClientOk(d, w.db, w.clients[j]) && JobOk(w.db, w.clients[j]);
      assert w.clients[j].Inside() <==> w.holder == Some(j);
      if j != i {
        forall y | PendingFor(w.clients[j], y) && y in w.db.live
          ensures y in t.db.live && t.db.live[y] == w.db.live[y]
        {
          OnePending(w.clients, i, j, y);
        }
        JobKept(w.db, t.db, w.clients[j]);
      }
    }
    OneCompanionKept(w, t, i);
  }

  // ----- the simulation -----

  /** Every move of the concurrent system is none, one or two steps of the sequential one. */
  lemma MoveRefines(d: Digests, w: World, l: Label) returns (steps: seq<Step>)
    requires Inv(d, w.db) && WorldInv(d, w) && CanDo(d, w, l)
    ensures WorldInv(d, Do(d, w, l))
    ensures Follows(d, w.db, steps, Do(d, w, l).db)
  {
    match l {
      case Arrive(job) => ArriveMove(d, w, job); steps := [];
      case TakeLock(i) => TakeLockMove(d, w, i); steps := [];
      case LookUp(i) => steps := LookUpMove(d, w, i);
      case ReadTail(_) => PrivateMove(d, w, l); steps := [];
      case ComputeHash(_, _) => PrivateMove(d, w, l); steps := [];
      case Insert(i) => steps := InsertMove(d, w, i);
      case RecordKey(i) => steps := RecordKeyMove(d, w, i);
      case Commit(i) => steps := CommitMove(d, w, i);
      case Close(_) => PrivateMove(d, w, l); steps := [];
      case Abort(i) => steps := AbortMove(d, w, i);
      case Outside(step) => OutsideMove(d, w, step); steps := [step];
    }
  }

  lemma ExtendRun(d: Digests, steps: seq<Step>, step: Step)
    requires ValidRun(d, steps) && Enabled(d, After(d, steps), step)
    ensures ValidRun(d, steps + [step])
    ensures After(d, steps + [step]) == Apply(d, After(d, steps), step)
  {
    assert (steps + [step])[..|steps|] == steps;
  }

  lemma SplitHead(steps: seq<Step>, more: seq<Step>)
    requires more != []
    ensures more[..1] == [more[0]] && steps + more[..1] + more[1..] == steps + more
  {
  }

  lemma {:induction false} FollowsExtendsRun(d: Digests, steps: seq<Step>, more: seq<Step>, t: State)
    requires ValidRun(d, steps) && Follows(d, After(d, steps), more, t)
    ensures ValidRun(d, steps + more) && After(d, steps + more) == t
    decreases |more|
  {
    if more == [] {
      assert steps + more == steps;
    } else {
      ExtendRun(d, steps, more[0]);
      FollowsExtendsRun(d, steps + more[..1], more[1..], t);
      SplitHead(steps, more);
    }
  }

  /** For any number of clients and any interleaving, the committed tables are those of a
      sequential run of atomic calls, and every answer a client got is one that run gave. */
  lemma {:induction false} ConcurrentRefinesSequential(d: Digests, labels: seq<Label>) returns (steps: seq<Step>)
    requires ValidHistory(d, labels)
    ensures WorldInv(d, Reached(d, labels))
    ensures ValidRun(d, steps) && After(d, steps) == Reached(d, labels).db
  {
    if labels == [] {
      steps := [];
    } else {
      var front := labels[..|labels| - 1];
      var before := ConcurrentRefinesSequential(d, front);
      RunKeepsInv(d, before);
      var more := MoveRefines(d, Reached(d, front), labels[|labels| - 1]);
      FollowsExtendsRun(d, before, more, Reached(d, labels).db);
      steps := before + more;
    }
  }

  /** At every moment of every interleaving, `verify_chain` on the committed rows finds fault at
      most with a row between the two commits of its redaction. */
  lemma ConcurrentVerdict(d: Digests, labels: seq<Label>)
    requires ValidHistory(d, labels)
    ensures var db := Reached(d, labels).db;
            && FaultsOnlyGap(db, VerdictOf(d.content, db.rows))
            && AscendingIds(db.rows)
            && forall i {:trigger Linked(db.rows, i)} :: 0 <= i < |db.rows| ==> Linked(db.rows, i)
  {
    var steps := ConcurrentRefinesSequential(d, labels);
    ReachableVerdict(d, steps);
    RunKeepsInv(d, steps);
  }
}
