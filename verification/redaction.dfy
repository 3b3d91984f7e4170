/** What redactions leave in a row over whole runs, and what a disclosed value proves. */
module Redaction {
  import opened Texts
  import opened Jsons
  import opened Wrappers
  import opened AuditLog
  import opened Hashing
  import opened System
  import opened Invariants

  // ----- tombstones -----

  lemma InFrontOrLast(ts: seq<Text>, t: Text)
    requires ts != []
    ensures t in ts <==> t in ts[..|ts| - 1] || t == ts[|ts| - 1]
  {
  }

  lemma {:induction false} LookupOverwritten(payload: Dict, fields: seq<Text>, v: Json, k: Text)
    ensures Lookup(Overwritten(payload, fields, v), k) == if k in fields then Some(v) else Lookup(payload, k)
  {
    if fields != [] {
      var n := |fields| - 1;
      LookupOverwritten(payload, fields[..n], v, k);
      LookupPut(Overwritten(payload, fields[..n], v), fields[n], v, k);
      InFrontOrLast(fields, k);
    }
  }

  lemma {:induction false} KeysOverwritten(payload: Dict, fields: seq<Text>, v: Json)
    requires forall f :: f in fields ==> HasKey(payload, f)
    ensures Keys(Overwritten(payload, fields, v)) == Keys(payload)
  {
    if fields != [] {
      var n := |fields| - 1;
      KeysOverwritten(payload, fields[..n], v);
      SameKeyLists(Overwritten(payload, fields[..n], v), payload);
      assert fields[n] in fields;
      KeysPut(Overwritten(payload, fields[..n], v), fields[n], v);
    }
  }

  /** Key lists determine whether keys are distinct, and which there are. */
  lemma SameKeyLists(a: Dict, b: Dict)
    requires Keys(a) == Keys(b)
    ensures DistinctKeys(a) <==> DistinctKeys(b)
    ensures forall k :: HasKey(a, k) <==> HasKey(b, k)
  {
    assert forall i :: 0 <= i < |a| ==> Keys(a)[i] == a[i].key;
    assert forall i :: 0 <= i < |b| ==> Keys(b)[i] == b[i].key;
    assert |a| == |b| && forall i :: 0 <= i < |a| ==> a[i].key == b[i].key;
  }

  // ----- which fields a call redacts -----

  /** Requested, in the payload, and not redacted before. */
  predicate Wanted(payload: Dict, already: seq<Text>, f: Text) {
    Lookup(payload, f).Some? && f !in already
  }

  /** `kept` are the entries of `fields` at the positions `at`, which ascend. */
  ghost predicate Picks(fields: seq<Text>, kept: seq<Text>, at: seq<nat>) {
    && |at| == |kept|
    && (forall i, j :: 0 <= i < j < |at| ==> at[i] < at[j])
    && forall i :: 0 <= i < |at| ==> at[i] < |fields| && kept[i] == fields[at[i]]
  }

  function Shifted(at: seq<nat>): (r: seq<nat>)
    ensures |r| == |at| && forall i :: 0 <= i < |at| ==> r[i] == at[i] + 1
  {
    seq(|at|, i requires 0 <= i < |at| => at[i] + 1)
  }

  lemma ShiftedPicks(fields: seq<Text>, kept: seq<Text>, at: seq<nat>)
    requires fields != [] && Picks(fields[1..], kept, at)
    ensures Picks(fields, kept, Shifted(at)) && Picks(fields, [fields[0]] + kept, [0] + Shifted(at))
  {
  }

  lemma ShiftedMember(at: seq<nat>, k: nat)
    ensures k in Shifted(at) <==> k > 0 && k - 1 in at
  {
    if k > 0 && k - 1 in at {
      var i :| 0 <= i < |at| && at[i] == k - 1;
      assert Shifted(at)[i] == k;
    }
  }

  /** The list comprehension keeps every wanted request where it stood, repeated ones included:
      `at` says which requests it kept. */
  lemma {:induction false} FieldsToRedactInOrder(payload: Dict, fields: seq<Text>, already: seq<Text>)
    returns (at: seq<nat>)
    ensures Picks(fields, FieldsToRedact(payload, fields, already), at)
    ensures forall k :: 0 <= k < |fields| ==> (Wanted(payload, already, fields[k]) <==> k in at)
  {
    at := [];
    if fields != [] {
      var rest := FieldsToRedactInOrder(payload, fields[1..], already);
      ShiftedPicks(fields, FieldsToRedact(payload, fields[1..], already), rest);
      var head: seq<nat> := if Wanted(payload, already, fields[0]) then [0] else [];
      at := head + Shifted(rest);
      assert head == [] ==> at == Shifted(rest);
      forall k | 0 <= k < |fields|
        ensures Wanted(payload, already, fields[k]) <==> k in at
      {
        ShiftedMember(rest, k);
        assert k > 0 ==> fields[k] == fields[1..][k - 1];
      }
    }
  }

  // ----- bookkeeping -----

  function RedactedFields(r: Row): seq<Text> {
    r.redactedFields.GetOr([])
  }

  function StoredHashes(r: Row): map<Text, Text> {
    r.redactedFieldHashes.GetOr(map[])
  }

  /** The redaction columns of a row agree with each other and with its payload as created. */
  ghost predicate Books(d: Digests, r: Row, original: Dict) {
    && DistinctKeys(original)
    && Keys(Payload(r)) == Keys(original)
    && (r.redactedAt.Some? <==> r.redactedFields.Some?)
    && (r.redactedAt.Some? <==> r.redactedFieldHashes.Some?)
    && StrictlySorted(RedactedFields(r))
    && (r.redactedAt.Some? ==> RedactedFields(r) != [])
    && (forall f :: f in RedactedFields(r) <==> f in StoredHashes(r))
    && (forall f :: f in RedactedFields(r) ==>
          && HasKey(original, f)
          && Lookup(Payload(r), f) == Some(Str(REDACTED_MARKER))
          && StoredHashes(r)[f] == d.field(Lookup(original, f).value))
    && (forall f :: f !in RedactedFields(r) ==> Lookup(Payload(r), f) == Lookup(original, f))
  }

  ghost predicate AllBooks(d: Digests, s: State) {
    && |s.origin| == |s.rows|
    && forall i :: 0 <= i < |s.rows| ==> Books(d, s.rows[i], s.origin[i].request.payload)
  }

  lemma FreshRowBooks(d: Digests, id: int, content: Content)
    requires DistinctKeys(content.request.payload)
    ensures Books(d, NewRow(d.content, id, content), content.request.payload)
  {
  }

  /** The fields a row has redacted grow strictly with each redaction. */
  lemma RedactedFieldsGrow(d: Digests, r: Row, fields: seq<Text>, now: int)
    requires forall f :: f in fields ==> HasKey(Payload(r), f)
    requires fields != [] && fields[0] !in RedactedFields(r) && StrictlySorted(RedactedFields(r))
    ensures |RedactedFields(RedactRow(d, r, fields, now))| > |RedactedFields(r)|
    ensures StrictlySorted(RedactedFields(RedactRow(d, r, fields, now)))
  {
    var before, after := RedactedFields(r), RedactedFields(RedactRow(d, r, fields, now));
    SortUniqueAscends(before + fields);
    StrictlySortedSize(before);
    StrictlySortedSize(after);
    var a, b := set t | t in before, set t | t in after;
    assert fields[0] in fields;
    assert fields[0] in b && fields[0] !in a;
    assert forall t :: t in before ==> t in after;
    SubsetSize(a + {fields[0]}, b);
  }

  lemma SubsetSize<T>(a: set<T>, b: set<T>)
    requires a <= b
    ensures |a| <= |b|
  {
    assert b == a + (b - a);
  }

  lemma SortUniqueUnion(a: seq<Text>, b: seq<Text>)
    ensures forall f :: f in SortUnique(a + b) <==> f in a || f in b
  {
  }

  /** What a redaction does to the stored hashes. */
  lemma RedactRowHashes(d: Digests, r: Row, original: Dict, fields: seq<Text>, now: int, f: Text)
    requires Books(d, r, original)
    requires forall f :: f in fields ==> HasKey(Payload(r), f) && f !in RedactedFields(r)
    ensures var t := RedactRow(d, r, fields, now);
            f in StoredHashes(t) <==> f in RedactedFields(r) || f in fields
    ensures var t := RedactRow(d, r, fields, now);
            f in StoredHashes(t) ==>
              HasKey(original, f) && StoredHashes(t)[f] == d.field(Lookup(original, f).value)
  {
    SameKeyLists(Payload(r), original);
    var t := RedactRow(d, r, fields, now);
    var added := FieldHashes(d, Payload(r), fields);
    assert StoredHashes(t) == StoredHashes(r) + added;
    assert f in added <==> f in fields;
    if f in fields {
      assert Lookup(Payload(r), f) == Lookup(original, f);
    }
  }

  lemma RedactRowBooks(d: Digests, r: Row, original: Dict, fields: seq<Text>, now: int)
    requires Books(d, r, original)
    requires fields != [] && forall f :: f in fields ==> HasKey(Payload(r), f) && f !in RedactedFields(r)
    ensures Books(d, RedactRow(d, r, fields, now), original)
  {
    var t := RedactRow(d, r, fields, now);
    assert fields[0] in fields;
    RedactedFieldsGrow(d, r, fields, now);
    KeysOverwritten(Payload(r), fields, Str(REDACTED_MARKER));
    SortUniqueUnion(RedactedFields(r), fields);
    forall f
      ensures f in RedactedFields(t) <==> f in StoredHashes(t)
      ensures f in RedactedFields(t) ==>
                && HasKey(original, f)
                && Lookup(Payload(t), f) == Some(Str(REDACTED_MARKER))
                && StoredHashes(t)[f] == d.field(Lookup(original, f).value)
      ensures f !in RedactedFields(t) ==> Lookup(Payload(t), f) == Lookup(original, f)
    {
      RedactRowHashes(d, r, original, fields, now, f);
      LookupOverwritten(Payload(r), fields, Str(REDACTED_MARKER), f);
    }
  }

  lemma CompanionKeysDistinct(id: int, a: Approval)
    ensures DistinctKeys(CompanionPayload(id, a))
  {
    assert |Lit("targetEventId")| == 13 && |Lit("redactedFields")| == 14;
    assert |Lit("redactedContentHash")| == 19 && |Lit("reason")| == 6;
  }

  lemma AppendBooks(d: Digests, s: State, request: Request, timestamp: int)
    requires AllBooks(d, s) && DistinctKeys(request.payload)
    ensures AllBooks(d, Append(d, s, request, timestamp))
  {
    var t := Append(d, s, request, timestamp);
    FreshRowBooks(d, s.nextId, NewContent(s.rows, request, timestamp));
    forall i | 0 <= i < |t.rows|
      ensures Books(d, t.rows[i], t.origin[i].request.payload)
    {
      if i < |s.rows| {
        assert t.rows[i] == s.rows[i] && t.origin[i] == s.origin[i];
        assert Books(d, s.rows[i], s.origin[i].request.payload);
      }
    }
  }

  lemma ArchiveBooks(d: Digests, s: State, cutoff: int, now: int)
    requires AllBooks(d, s)
    ensures AllBooks(d, s.(rows := ArchiveRows(s.rows, cutoff, now)))
  {
    var rows := ArchiveRows(s.rows, cutoff, now);
    forall i | 0 <= i < |rows|
      ensures Books(d, rows[i], s.origin[i].request.payload)
    {
      assert Books(d, s.rows[i], s.origin[i].request.payload);
      assert rows[i] == ArchiveRow(s.rows[i], cutoff, now);
    }
  }

  lemma StepBooks(d: Digests, s: State, step: Step)
    requires AllBooks(d, s) && Enabled(d, s, step)
    ensures AllBooks(d, Apply(d, s, step))
  {
    match step {
      case SubmitStep(call, timestamp) => AppendBooks(d, s, call.request, timestamp);
      case BurnStep =>
      case RedactStep(id, fields, _, _, now) =>
        var i := Find(s.rows, id).value;
        RedactRowBooks(d, s.rows[i], s.origin[i].request.payload, NewFields(s.rows[i], fields), now);
      case CompleteStep(id, timestamp) =>
        CompanionKeysDistinct(id, s.live[id]);
        AppendBooks(d, s, CompanionRequest(id, s.live[id]), timestamp);
      case CrashStep(_) =>
      case ArchiveStep(cutoff, now) => ArchiveBooks(d, s, cutoff, now);
    }
  }

  /** Over every run: keys never change, the redacted fields are listed in order once each and are
      exactly those with a stored hash, each stored hash is of the value the row was created with,
      redacted fields hold the marker and all others their original value. */
  lemma {:induction false} RunBooks(d: Digests, steps: seq<Step>)
    requires ValidRun(d, steps)
    ensures AllBooks(d, After(d, steps))
  {
    if steps != [] {
      var front := steps[..|steps| - 1];
      RunBooks(d, front);
      StepBooks(d, After(d, front), steps[|steps| - 1]);
    }
  }

  // ----- how often a row can be redacted -----

  function CountRedactions(steps: seq<Step>, id: int): nat {
    if steps == [] then 0
    else
      var last := steps[|steps| - 1];
      CountRedactions(steps[..|steps| - 1], id) + (if last.RedactStep? && last.id == id then 1 else 0)
  }

  function ListedFields(s: State, id: int): nat {
    match Find(s.rows, id)
    case Some(i) => |RedactedFields(s.rows[i])|
    case None => 0
  }

  lemma FindAfterAppend(rows: seq<Row>, r: Row, id: int)
    ensures Find(rows + [r], id) == if r.id == id then Some(|rows|) else Find(rows, id)
  {
    assert (rows + [r])[..|rows|] == rows;
  }

  lemma {:induction false} FindSameIds(a: seq<Row>, b: seq<Row>, id: int)
    requires |a| == |b| && forall i :: 0 <= i < |a| ==> a[i].id == b[i].id
    ensures Find(a, id) == Find(b, id)
  {
    if a != [] {
      FindSameIds(a[..|a| - 1], b[..|b| - 1], id);
    }
  }

  lemma AppendListed(d: Digests, s: State, request: Request, timestamp: int, id: int)
    requires FreshIds(s.rows, s.nextId)
    ensures ListedFields(Append(d, s, request, timestamp), id) == ListedFields(s, id)
  {
    FindAfterAppend(s.rows, NewRow(d.content, s.nextId, NewContent(s.rows, request, timestamp)), id);
  }

  lemma RowListed(s: State, t: State, i: nat, id: int)
    requires i < |s.rows| == |t.rows| && AscendingIds(s.rows) && t.rows == s.rows[i := t.rows[i]]
    requires t.rows[i].id == s.rows[i].id
    requires |RedactedFields(t.rows[i])| > |RedactedFields(s.rows[i])|
    ensures ListedFields(t, id) >= ListedFields(s, id) + if s.rows[i].id == id then 1 else 0
  {
    FindSameIds(s.rows, t.rows, id);
    FindAt(s.rows, i);
  }

  lemma RedactListed(d: Digests, s: State, i: nat, fields: seq<Text>, actorId: Text, reason: Option<Text>, now: int, id: int)
    requires AllBooks(d, s) && AscendingIds(s.rows)
    requires i < |s.rows| && fields != []
    requires forall f :: f in fields ==> HasKey(Payload(s.rows[i]), f) && f !in RedactedFields(s.rows[i])
    ensures ListedFields(FirstCommit(d, s, i, fields, actorId, reason, now), id)
            >= ListedFields(s, id) + if s.rows[i].id == id then 1 else 0
  {
    assert Books(d, s.rows[i], s.origin[i].request.payload);
    assert fields[0] in fields;
    RedactedFieldsGrow(d, s.rows[i], fields, now);
    RowListed(s, FirstCommit(d, s, i, fields, actorId, reason, now), i, id);
  }

  lemma SubmitListed(d: Digests, s: State, call: Call, timestamp: int, id: int)
    requires FreshIds(s.rows, s.nextId)
    ensures ListedFields(Submit(d, s, call, timestamp), id) == ListedFields(s, id)
  {
    AppendListed(d, s, call.request, timestamp, id);
    var t := Submit(d, s, call, timestamp);
    assert t.rows == s.rows || t.rows == Append(d, s, call.request, timestamp).rows;
  }

  lemma ArchiveListed(s: State, t: State, cutoff: int, now: int, id: int)
    requires t.rows == ArchiveRows(s.rows, cutoff, now)
    ensures ListedFields(t, id) == ListedFields(s, id)
  {
    FindSameIds(s.rows, t.rows, id);
  }

  lemma StepListed(d: Digests, s: State, step: Step, id: int)
    requires Inv(d, s) && AllBooks(d, s) && Enabled(d, s, step)
    ensures ListedFields(Apply(d, s, step), id)
            >= ListedFields(s, id) + if step.RedactStep? && step.id == id then 1 else 0
  {
    match step {
      case SubmitStep(call, timestamp) => SubmitListed(d, s, call, timestamp, id);
      case BurnStep =>
      case RedactStep(x, fields, actorId, reason, now) =>
        var i := Find(s.rows, x).value;
        RedactListed(d, s, i, NewFields(s.rows[i], fields), actorId, reason, now, id);
      case CompleteStep(x, timestamp) => AppendListed(d, s, CompanionRequest(x, s.live[x]), timestamp, id);
      case CrashStep(_) =>
      case ArchiveStep(cutoff, now) => ArchiveListed(s, Apply(d, s, step), cutoff, now, id);
    }
  }

  lemma {:induction false} RedactionsListed(d: Digests, steps: seq<Step>, id: int)
    requires ValidRun(d, steps)
    ensures CountRedactions(steps, id) <= ListedFields(After(d, steps), id)
  {
    if steps != [] {
      var front := steps[..|steps| - 1];
      RedactionsListed(d, front, id);
      RunKeepsInv(d, front);
      RunBooks(d, front);
      StepListed(d, After(d, front), steps[|steps| - 1], id);
    }
  }

  lemma KeyListed(d: Dict, k: Text)
    requires HasKey(d, k)
    ensures k in Keys(d)
  {
    var i :| 0 <= i < |d| && d[i].key == k;
    assert Keys(d)[i] == k;
  }

  lemma ListedAreKeys(d: Digests, r: Row, original: Dict)
    requires Books(d, r, original)
    ensures |RedactedFields(r)| <= |original|
  {
    var fs := RedactedFields(r);
    StrictlySortedSize(fs);
    forall f | f in fs
      ensures f in Keys(original)
    {
      KeyListed(original, f);
    }
    SubsetSize(set f | f in fs, set f | f in Keys(original));
    SetOfSeqSize(Keys(original));
  }

  lemma {:induction false} SetOfSeqSize(ts: seq<Text>)
    ensures |set t | t in ts| <= |ts|
  {
    if ts != [] {
      var n := |ts| - 1;
      SetOfSeqSize(ts[..n]);
      assert ts == ts[..n] + [ts[n]];
      assert (set t | t in ts) == (set t | t in ts[..n]) + {ts[n]};
    }
  }

  /** The moments of a run at which the record is redacted. */
  ghost function RedactionsOf(steps: seq<Step>, id: int): set<int> {
    set k | 0 <= k < |steps| && steps[k].RedactStep? && steps[k].id == id
  }

  lemma {:induction false} RedactionsCounted(steps: seq<Step>, id: int)
    ensures CountRedactions(steps, id) == |RedactionsOf(steps, id)|
  {
    if steps != [] {
      var n := |steps| - 1;
      RedactionsCounted(steps[..n], id);
      assert RedactionsOf(steps, id)
             == RedactionsOf(steps[..n], id) + if steps[n].RedactStep? && steps[n].id == id then {n} else {};
    }
  }

  /** A record admits at most as many successful redactions as its payload has keys. */
  lemma RedactionsBounded(d: Digests, steps: seq<Step>, i: nat)
    requires ValidRun(d, steps) && i < |After(d, steps).rows|
    ensures |After(d, steps).origin| == |After(d, steps).rows|
    ensures |RedactionsOf(steps, After(d, steps).rows[i].id)| <= |After(d, steps).origin[i].request.payload|
  {
    var s := After(d, steps);
    RedactionsCounted(steps, s.rows[i].id);
    RunBooks(d, steps);
    RunKeepsInv(d, steps);
    RedactionsListed(d, steps, s.rows[i].id);
    FindAt(s.rows, i);
    ListedAreKeys(d, s.rows[i], s.origin[i].request.payload);
  }
}
