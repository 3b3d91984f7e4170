/** `create_audit_event`, statement by statement, against the atomic append-or-replay. */
module AuditService {
  import opened Texts
  import opened Wrappers
  import opened AuditLog
  import opened Hashing
  import opened System
  import opened Repository

  datatype ServiceError = IdempotencyKeyConflict(key: CallerKey) | IntegrityError

  /** The event or the exception a caller gets for each answer. */
  function Outcome(d: Digests, s: State, call: Call, timestamp: int): Result<Row, ServiceError> {
    match ResponseTo(d, s, call, timestamp)
    case Created(id, _) => Success(NewRow(d.content, id, NewContent(s.rows, call.request, timestamp)))
    case Replayed(id, _) =>
      (match Find(s.rows, id)
       case Some(i) => Success(s.rows[i])
       case None => Failure(IntegrityError))
    case Conflict =>
      if call.key.Some? then Failure(IdempotencyKeyConflict(call.key.value)) else Failure(IntegrityError)
    case Failed => Failure(IntegrityError)
  }

  /** The call's key was used before. */
  predicate Claimed(keys: map<CallerKey, KeyRow>, call: Call) {
    call.key.Some? && call.key.value in keys
  }

  /** What a caller gets, in terms of the tables as they were: the stored event its key was claimed
      for, a conflict, or a new event that holds the request and links to the last one. A key whose
      event is gone, which no reachable log has, is refused by the database. */
  ghost predicate Answers(d: Digests, rows: seq<Row>, keys: map<CallerKey, KeyRow>, nextId: int,
                          call: Call, timestamp: int, r: Result<Row, ServiceError>)
  {
    if Claimed(keys, call) then
      var claim := keys[call.key.value];
      if claim.fingerprint != d.request(call.request) then r == Failure(IdempotencyKeyConflict(call.key.value))
      else if exists i :: 0 <= i < |rows| && rows[i].id == claim.eventId then
        r.Success? && r.value in rows && r.value.id == claim.eventId
      else r == Failure(IntegrityError)
    else
      var tail := if rows == [] then GENESIS_HASH else rows[|rows| - 1].eventHash;
      var content := Content(call.request, timestamp, tail);
      if exists i :: 0 <= i < |rows| && rows[i].eventHash == d.content(content) then r == Failure(IntegrityError)
      else r == Success(Row(nextId, content, d.content(content), None, None, None, None))
  }

  /** `_replay_or_conflict`. */
  method ReplayOrConflict(db: Session, k: CallerKey, fingerprint: Text)
    returns (r: Result<Option<Row>, ServiceError>)
    ensures k !in db.keys ==> r == Success(None)
    ensures k in db.keys && db.keys[k].fingerprint != fingerprint ==> r == Failure(IdempotencyKeyConflict(k))
    ensures k in db.keys && db.keys[k].fingerprint == fingerprint ==> r == Success(db.GetEvent(db.keys[k].eventId))
  {
    var existing := db.GetIdempotencyRecord(k);
    if existing.None? {
      return Success(None);
    }
    if existing.value.fingerprint != fingerprint {
      return Failure(IdempotencyKeyConflict(k));
    }
    return Success(db.GetEvent(existing.value.eventId));
  }

  lemma OutcomeAnswers(d: Digests, s: State, call: Call, timestamp: int)
    ensures Answers(d, s.rows, s.keys, s.nextId, call, timestamp, Outcome(d, s, call, timestamp))
  {
    assert NewContent(s.rows, call.request, timestamp)
           == Content(call.request, timestamp, if s.rows == [] then GENESIS_HASH else s.rows[|s.rows| - 1].eventHash);
  }

  /** The new event, and the claim on its key, are all that is written. */
  lemma SubmitTables(d: Digests, s: State, call: Call, timestamp: int)
    ensures var t, r := Submit(d, s, call, timestamp), Outcome(d, s, call, timestamp);
            var created := r.Success? && !Claimed(s.keys, call);
            && t.rows == s.rows + (if created then [r.value] else [])
            && t.keys == if created && call.key.Some?
                         then s.keys[call.key.value := KeyRow(d.request(call.request), r.value.id, timestamp)]
                         else s.keys
  {
  }

  /** `create_audit_event`, with the clock reading it takes, run on tables that hold `s`: it does
      and answers exactly what the atomic call does and answers. The end of the request, which
      closes the session and with it a transaction that was not committed, is included. */
  method CreateAuditEvent(db: Session, d: Digests, call: Call, timestamp: int, ghost s: State)
    returns (r: Result<Row, ServiceError>)
    requires db.Holds(s)
    modifies db
    ensures db.Holds(Submit(d, s, call, timestamp))
    ensures r == Outcome(d, s, call, timestamp)
    ensures Answers(d, old(db.rows), old(db.keys), old(db.sequence), call, timestamp, r)
    ensures db.rows == old(db.rows)
                       + (if r.Success? && !Claimed(old(db.keys), call) then [r.value] else [])
    ensures db.keys == if r.Success? && !Claimed(old(db.keys), call) && call.key.Some?
                       then old(db.keys)[call.key.value := KeyRow(d.request(call.request), r.value.id, timestamp)]
                       else old(db.keys)
  {
    OutcomeAnswers(d, s, call, timestamp);
    SubmitTables(d, s, call, timestamp);
    db.LockForAppend();
    if call.key.Some? {
      var replay := ReplayOrConflict(db, call.key.value, d.request(call.request));
      if replay.Failure? {
        db.Rollback();
        return Failure(replay.error);
      }
      if replay.value.Some? {
        db.Rollback();
        return Success(replay.value.value);
      }
    }
    var lastEvent := db.GetLastEvent();
    var previousHash := if lastEvent.Some? then lastEvent.value.eventHash else GENESIS_HASH;
    var content := Content(call.request, timestamp, previousHash);
    var inserted := db.InsertEvent(content, d.content(content));
    if inserted.Failure? {
      return Failure(IntegrityError);
    }
    if call.key.Some? {
      var record := KeyRow(d.request(call.request), inserted.value.id, timestamp);
      var recorded := db.RecordIdempotencyKey(call.key.value, record);
      if recorded.Failure? {
        return Failure(IntegrityError);
      }
    }
    db.Commit();
    return Success(inserted.value);
  }
}
