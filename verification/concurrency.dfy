/** Concurrent clients of the append path, statement by statement.

    Every client runs `create_audit_event` in a transaction of its own: take the advisory lock,
    look the idempotency key up, read the tail, hash, insert (which takes an id from the
    sequence), record the key, commit. Reads see committed tables; what a transaction has
    flushed only it can see, and a rollback discards it all but the id. Redactions' first
    commits, archive runs and crashes go on at any time outside the lock. */
module Concurrency {
  import opened Texts
  import opened Jsons
  import opened Wrappers
  import opened AuditLog
  import opened Hashing
  import opened System

  /** A call of the API, or the companion append of a redaction past its first commit. */
  datatype Job =
    | ApiJob(call: Call)
    | CompanionJob(target: int, request: Request)
  {
    function AsCall(): Call {
      match this
      case ApiJob(call) => call
      case CompanionJob(_, request) => Call(request, None)
    }
  }

  /** How far a client is in `create_audit_event`. */
  datatype Client =
    | Ready(job: Job)
    | Locked(job: Job)
    | Unclaimed(job: Job)
    | Tailed(job: Job, previousHash: Text)
    | Hashed(job: Job, content: Content, eventHash: Text)
    | Inserted(job: Job, row: Row)
    | Claimed(job: Job, row: Row, claim: Option<KeyRow>)
    | Answered(job: Job, response: Response)  // replayed or refused; the session still holds the lock
    | Done(job: Job, response: Response)
    | Aborted(job: Job)
  {
    /** In the critical section. */
    predicate Inside() {
      !Ready? && !Done? && !Aborted?
    }

    /** Has taken an id that its transaction has not committed. */
    predicate HoldsId() {
      Inserted? || Claimed?
    }

    predicate Finished() {
      Answered? || Done? || Aborted?
    }
  }

  /** Committed state, the id sequence, who holds the advisory lock, and the clients. */
  datatype World = World(db: State, sequence: int, holder: Option<nat>, clients: seq<Client>)

  const START: World := World(INIT, INIT.nextId, None, [])

  datatype Label =
    | Arrive(job: Job)
    | TakeLock(i: nat)
    | LookUp(i: nat)
    | ReadTail(i: nat)
    | ComputeHash(i: nat, timestamp: int)
    | Insert(i: nat)
    | RecordKey(i: nat)
    | Commit(i: nat)
    | Close(i: nat)
    | Abort(i: nat)
    | Outside(step: Step)

  // ----- what each statement needs -----

  /** Some client still has the companion of this redaction to append. */
  ghost predicate CompanionPending(clients: seq<Client>, target: int) {
    exists i :: 0 <= i < |clients| && PendingFor(clients[i], target)
  }

  ghost predicate MayArrive(w: World, job: Job) {
    match job
    case ApiJob(call) => call.request.eventType != REDACTION_EVENT_TYPE && DistinctKeys(call.request.payload)
    case CompanionJob(target, request) =>
      && target in w.db.live
      && request == CompanionRequest(target, w.db.live[target])
      && !CompanionPending(w.clients, target)
  }

  ghost predicate CanDo(d: Digests, w: World, l: Label) {
    match l
    case Arrive(job) => MayArrive(w, job)
    case TakeLock(i) => i < |w.clients| && w.clients[i].Ready? && w.holder.None?
    case LookUp(i) => i < |w.clients| && w.clients[i].Locked?
    case ReadTail(i) => i < |w.clients| && w.clients[i].Unclaimed?
    case ComputeHash(i, _) => i < |w.clients| && w.clients[i].Tailed?
    case Insert(i) => i < |w.clients| && w.clients[i].Hashed?
    case RecordKey(i) => i < |w.clients| && w.clients[i].Inserted?
    case Commit(i) => i < |w.clients| && w.clients[i].Claimed?
    case Close(i) => i < |w.clients| && w.clients[i].Answered?
    case Abort(i) => i < |w.clients| && !w.clients[i].Finished()
    case Outside(step) =>
      match step
      case RedactStep(_, _, _, _, _) => Enabled(d, w.db, step)
      case ArchiveStep(_, _) => true
      case CrashStep(id) => id in w.db.live && !CompanionPending(w.clients, id)
      case _ => false
  }

  // ----- what each statement does -----

  function Move(w: World, i: nat, client: Client): World
    requires i < |w.clients|
  {
    w.(clients := w.clients[i := client])
  }

  /** `_replay_or_conflict` on the committed tables. */
  function LookUpResult(d: Digests, db: State, job: Job): Client {
    var call := job.AsCall();
    if call.key.None? || call.key.value !in db.keys then Unclaimed(job)
    else if db.keys[call.key.value].fingerprint != d.request(call.request) then Answered(job, Conflict)
    else
      match KeyedRow(db, call.key.value)
      case Some(k) => Answered(job, Replayed(db.rows[k].id, db.rows[k].eventHash))
      case None => Unclaimed(job)
  }

  function LogAnswer(db: State, job: Job, response: Response): State {
    if job.ApiJob? then db.(answers := db.answers + [Answer(job.call, response)]) else db
  }

  /** A rollback: the lock is free, the id, if one was taken, is lost, and a redaction whose
      companion this was stays where it is. */
  function RolledBack(w: World, i: nat, client: Client, sequence: int): World
    requires i < |w.clients|
  {
    var job := w.clients[i].job;
    var db := if w.clients[i].Inside() then w.db.(nextId := sequence) else w.db;
    World(
      if job.CompanionJob? then db.(live := db.live - {job.target}, stuck := db.stuck + {job.target}) else db,
      sequence,
      if w.clients[i].Inside() then None else w.holder,
      w.clients[i := client])
  }

  /** A database error inside the transaction: rolled back, and answered as a failure. */
  function FailedWith(w: World, i: nat, sequence: int): World
    requires i < |w.clients|
  {
    var job := w.clients[i].job;
    var t := RolledBack(w, i, Done(job, Failed), sequence);
    t.(db := LogAnswer(t.db, job, Failed))
  }

  function AfterCommit(w: World, i: nat): World
    requires i < |w.clients| && w.clients[i].Claimed?
  {
    var Claimed(job, row, claim) := w.clients[i];
    var response := Created(row.id, row.eventHash);
    var db := w.db.(rows := w.db.rows + [row], origin := w.db.origin + [row.content], nextId := row.id + 1);
    var db' := match job
      case ApiJob(call) =>
        if call.key.Some? && claim.Some? then db.(keys := db.keys[call.key.value := claim.value]) else db
      case CompanionJob(target, _) => db.(live := db.live - {target}, stuck := db.stuck - {target});
    World(LogAnswer(db', job, response), w.sequence, None, w.clients[i := Done(job, response)])
  }

  ghost function Do(d: Digests, w: World, l: Label): World
    requires CanDo(d, w, l)
  {
    match l
    case Arrive(job) => w.(clients := w.clients + [Ready(job)])
    case TakeLock(i) => Move(w, i, Locked(w.clients[i].job)).(holder := Some(i))
    case LookUp(i) =>
      var c := LookUpResult(d, w.db, w.clients[i].job);
      var t := Move(w, i, c);
      if c.Answered? then t.(db := LogAnswer(w.db, c.job, c.response)) else t
    case ReadTail(i) => Move(w, i, Tailed(w.clients[i].job, LinkBefore(w.db.rows, |w.db.rows|)))
    case ComputeHash(i, timestamp) =>
      var c := w.clients[i];
      var content := Content(c.job.AsCall().request, timestamp, c.previousHash);
      Move(w, i, Hashed(c.job, content, d.content(content)))
    case Insert(i) =>
      var c := w.clients[i];
      if HashTaken(w.db.rows, c.eventHash) then FailedWith(w, i, w.sequence + 1)
      else
        var row := Row(w.sequence, c.content, c.eventHash, None, None, None, None);
        Move(w, i, Inserted(c.job, row)).(sequence := w.sequence + 1)
    case RecordKey(i) =>
      var c := w.clients[i];
      var call := c.job.AsCall();
      if call.key.None? then Move(w, i, Claimed(c.job, c.row, None))
      else if call.key.value in w.db.keys then FailedWith(w, i, w.sequence)
      else
        var claim := KeyRow(d.request(call.request), c.row.id, c.row.content.timestamp);
        Move(w, i, Claimed(c.job, c.row, Some(claim)))
    case Commit(i) => AfterCommit(w, i)
    case Close(i) => Move(w, i, Done(w.clients[i].job, w.clients[i].response)).(holder := None)
    case Abort(i) => RolledBack(w, i, Aborted(w.clients[i].job), w.sequence)
    case Outside(step) => w.(db := Apply(d, w.db, step))
  }

  // ----- runs -----

  ghost predicate ValidHistory(d: Digests, labels: seq<Label>)
    decreases |labels|, 0
  {
    labels == [] ||
    (var front := labels[..|labels| - 1];
     ValidHistory(d, front) && CanDo(d, Reached(d, front), labels[|labels| - 1]))
  }

  ghost function Reached(d: Digests, labels: seq<Label>): World
    requires ValidHistory(d, labels)
    decreases |labels|, 1
  {
    if labels == [] then START
    else Do(d, Reached(d, labels[..|labels| - 1]), labels[|labels| - 1])
  }

  // ----- the invariant of the critical section -----

  /** The lookup found no usable answer, and nothing since has changed that. */
  predicate NoReplay(d: Digests, db: State, call: Call) {
    || call.key.None?
    || call.key.value !in db.keys
    || (db.keys[call.key.value].fingerprint == d.request(call.request) && KeyedRow(db, call.key.value).None?)
  }

  /** The row is the one an atomic append would build now. */
  predicate Current(d: Digests, db: State, call: Call, row: Row) {
    && row == NewRow(d.content, db.nextId, NewContent(db.rows, call.request, row.content.timestamp))
    && !HashTaken(db.rows, row.eventHash)
  }

  /** What a client in the critical section knows still holds. */
  ghost predicate ClientOk(d: Digests, db: State, c: Client) {
    match c
    case Unclaimed(job) => NoReplay(d, db, job.AsCall())
    case Tailed(job, previousHash) =>
      NoReplay(d, db, job.AsCall()) && previousHash == LinkBefore(db.rows, |db.rows|)
    case Hashed(job, content, eventHash) =>
      && NoReplay(d, db, job.AsCall())
      && content == NewContent(db.rows, job.AsCall().request, content.timestamp)
      && eventHash == d.content(content)
    case Inserted(job, row) => NoReplay(d, db, job.AsCall()) && Current(d, db, job.AsCall(), row)
    case Claimed(job, row, claim) =>
      var call := job.AsCall();
      && Current(d, db, call, row)
      && (call.key.None? ==> claim.None?)
      && (call.key.Some? ==>
            && call.key.value !in db.keys
            && claim == Some(KeyRow(d.request(call.request), db.nextId, row.content.timestamp)))
    case Answered(job, response) => job.ApiJob? ==> Answer(job.call, response) in db.answers
    case Done(job, response) => job.ApiJob? ==> Answer(job.call, response) in db.answers
    case _ => true
  }

  ghost predicate JobOk(db: State, c: Client) {
    match c.job
    case ApiJob(call) => call.request.eventType != REDACTION_EVENT_TYPE && DistinctKeys(call.request.payload)
    case CompanionJob(target, request) =>
      !c.Finished() ==> target in db.live && request == CompanionRequest(target, db.live[target])
  }

  ghost predicate ClientsOk(d: Digests, w: World) {
    forall i :: 0 <= i < |w.clients| ==> ClientOk(d, w.db, w.clients[i]) && JobOk(w.db, w.clients[i])
  }

  /** Exactly the client inside the critical section holds the lock. */
  ghost predicate LockOk(w: World) {
    && (forall i :: 0 <= i < |w.clients| ==> (w.clients[i].Inside() <==> w.holder == Some(i)))
    && (w.holder.Some? ==> w.holder.value < |w.clients|)
  }

  /** At most one id is taken and not yet committed or lost. */
  ghost predicate SequenceOk(w: World)
    requires LockOk(w)
  {
    w.sequence == w.db.nextId + (if w.holder.Some? && w.clients[w.holder.value].HoldsId() then 1 else 0)
  }

  predicate PendingFor(c: Client, target: int) {
    !c.Finished() && c.job.CompanionJob? && c.job.target == target
  }

  ghost predicate OneCompanionEach(clients: seq<Client>) {
    forall i, j, target :: 0 <= i < j < |clients| && PendingFor(clients[i], target) ==> !PendingFor(clients[j], target)
  }

  ghost predicate WorldInv(d: Digests, w: World) {
    ClientsOk(d, w) && LockOk(w) && SequenceOk(w) && OneCompanionEach(w.clients)
  }
}
