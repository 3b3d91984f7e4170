/** The tables and the transaction of one database session. */
module Repository {
  import opened Texts
  import opened Jsons
  import opened Wrappers
  import opened AuditLog
  import opened System

  datatype DatabaseError = UniqueViolation

  /** How many rows an archive run would archive, counted over positions. */
  ghost function DuePositions(rows: seq<Row>, cutoff: int): set<int> {
    set i | 0 <= i < |rows| && DueForArchive(rows[i], cutoff)
  }

  lemma {:induction false} DueCountIsSize(rows: seq<Row>, cutoff: int)
    ensures DueCount(rows, cutoff) == |DuePositions(rows, cutoff)|
  {
    if rows != [] {
      var n := |rows| - 1;
      var front := rows[..n];
      DueCountIsSize(front, cutoff);
      assert DuePositions(rows, cutoff) ==
             DuePositions(front, cutoff) + if DueForArchive(rows[n], cutoff) then {n} else {};
    }
  }

  /** Committed tables, the id sequence, and what the open transaction holds: the append lock, a
      flushed event and a flushed idempotency row. Ids taken from the sequence never come back. */
  class Session {
    var rows: seq<Row>
    var keys: map<CallerKey, KeyRow>
    var sequence: int
    var holdsLock: bool
    var flushedRow: Option<Row>
    var flushedKey: Option<(CallerKey, KeyRow)>

    constructor ()
      ensures Holds(INIT)
    {
      rows, keys, sequence := [], map[], 1;
      holdsLock, flushedRow, flushedKey := false, None, None;
    }

    /** No transaction is open. */
    ghost predicate Idle()
      reads this
    {
      !holdsLock && flushedRow.None? && flushedKey.None?
    }

    /** The tables are those of this state, and no transaction is open. */
    ghost predicate Holds(s: State)
      reads this
    {
      Idle() && rows == s.rows && keys == s.keys && sequence == s.nextId
    }

    /** `lock_for_append`. */
    method LockForAppend()
      modifies `holdsLock
      ensures holdsLock
    {
      holdsLock := true;
    }

    /** `get_last_event`. Archived rows count: the chain goes on behind them. */
    function GetLastEvent(): (r: Option<Row>)
      reads this
      ensures r.None? <==> rows == []
      ensures r.Some? ==> r.value in rows && (AscendingIds(rows) ==> forall x :: x in rows ==> x.id <= r.value.id)
      ensures LinkBefore(rows, |rows|) == (if r.Some? then r.value.eventHash else GENESIS_HASH)
    {
      if rows == [] then None else Some(rows[|rows| - 1])
    }

    /** `get_event`. */
    function GetEvent(id: int): (r: Option<Row>)
      reads this
      ensures r.Some? <==> exists i :: 0 <= i < |rows| && rows[i].id == id
      ensures r.Some? ==> r.value in rows && r.value.id == id
    {
      match Find(rows, id)
      case Some(i) => Some(rows[i])
      case None => None
    }

    /** `get_idempotency_record`. */
    function GetIdempotencyRecord(k: CallerKey): Option<KeyRow>
      reads this
    {
      if k in keys then Some(keys[k]) else None
    }

    /** `insert_event`, inside the transaction that holds the append lock: the flush takes an id even
        if the unique constraint then refuses the row. */
    method InsertEvent(content: Content, eventHash: Text) returns (r: Result<Row, DatabaseError>)
      requires holdsLock
      modifies this
      ensures rows == old(rows) && keys == old(keys) && sequence == old(sequence) + 1
      ensures HashTaken(rows, eventHash) ==> r == Failure(UniqueViolation) && Idle()
      ensures !HashTaken(rows, eventHash) ==>
                && r == Success(Row(old(sequence), content, eventHash, None, None, None, None))
                && flushedRow == Some(r.value)
                && flushedKey == old(flushedKey) && holdsLock == old(holdsLock)
    {
      var id := sequence;
      sequence := sequence + 1;
      if HashTaken(rows, eventHash) {
        Rollback();
        return Failure(UniqueViolation);
      }
      var event := Row(id, content, eventHash, None, None, None, None);
      flushedRow := Some(event);
      return Success(event);
    }

    /** `record_idempotency_key`. */
    method RecordIdempotencyKey(k: CallerKey, record: KeyRow) returns (r: Result<KeyRow, DatabaseError>)
      modifies this
      ensures rows == old(rows) && keys == old(keys) && sequence == old(sequence)
      ensures k in keys ==> r == Failure(UniqueViolation) && Idle()
      ensures k !in keys ==>
                && r == Success(record)
                && flushedKey == Some((k, record))
                && flushedRow == old(flushedRow) && holdsLock == old(holdsLock)
    {
      if k in keys {
        Rollback();
        return Failure(UniqueViolation);
      }
      flushedKey := Some((k, record));
      return Success(record);
    }

    /** The flushed rows become visible together, and the lock is released. */
    method Commit()
      modifies this
      ensures Idle() && sequence == old(sequence)
      ensures rows == old(rows) + (if old(flushedRow).Some? then [old(flushedRow).value] else [])
      ensures keys == if old(flushedKey).Some? then old(keys)[old(flushedKey).value.0 := old(flushedKey).value.1]
                      else old(keys)
    {
      if flushedRow.Some? {
        rows := rows + [flushedRow.value];
      }
      if flushedKey.Some? {
        keys := keys[flushedKey.value.0 := flushedKey.value.1];
      }
      holdsLock, flushedRow, flushedKey := false, None, None;
    }

    /** What closing the session does to an open transaction: everything goes but the used id. */
    method Rollback()
      modifies this
      ensures Idle() && rows == old(rows) && keys == old(keys) && sequence == old(sequence)
    {
      holdsLock, flushedRow, flushedKey := false, None, None;
    }

    /** `archive_events_older_than`: one bulk update, answering how many rows it changed. */
    method ArchiveEventsOlderThan(cutoff: int, now: int) returns (archivedCount: nat)
      requires Idle()
      modifies `rows
      ensures |rows| == |old(rows)|
      ensures forall i :: 0 <= i < |rows| ==>
                rows[i] == if DueForArchive(old(rows)[i], cutoff) then old(rows)[i].(archivedAt := Some(now))
                           else old(rows)[i]
      ensures archivedCount == |DuePositions(old(rows), cutoff)|
      ensures rows == ArchiveRows(old(rows), cutoff, now) && archivedCount == DueCount(old(rows), cutoff)
    {
      archivedCount := DueCount(rows, cutoff);
      DueCountIsSize(rows, cutoff);
      rows := ArchiveRows(rows, cutoff, now);
    }

    /** `redact_event_fields`: writes the four columns of one row and commits. */
    method RedactEventFields(i: nat, payload: Dict, fields: seq<Text>, hashes: map<Text, Text>, now: int)
      returns (event: Row)
      requires Idle() && i < |rows|
      modifies `rows
      ensures event == old(rows)[i].(content := WithPayload(old(rows)[i].content, payload), redactedAt := Some(now),
                                     redactedFields := Some(fields), redactedFieldHashes := Some(hashes))
      ensures rows == old(rows)[i := event]
    {
      event := rows[i].(content := WithPayload(rows[i].content, payload), redactedAt := Some(now),
                        redactedFields := Some(fields), redactedFieldHashes := Some(hashes));
      rows := rows[i := event];
    }
  }
}
