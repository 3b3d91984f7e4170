/** JSON values as Python holds them, and the order-free value they denote. */
module Jsons {
  import opened Texts
  import opened Wrappers

  /** A value `json.loads` can produce, floats aside. A `dict` keeps its insertion order. */
  datatype Json =
    | Null
    | Bool(b: bool)
    | Num(n: int)
    | Str(s: Text)
    | Arr(items: seq<Json>)
    | Obj(members: Dict)

  datatype Member = Member(key: Text, value: Json)

  type Dict = seq<Member>

  /** `d.get(k)`, telling an absent key from a `None` value. */
  function Lookup(d: Dict, k: Text): (r: Option<Json>)
    ensures r.Some? ==> exists i :: 0 <= i < |d| && d[i] == Member(k, r.value)
    ensures r.Some? <==> HasKey(d, k)
  {
    if d == [] then None
    else if d[0].key == k then Some(d[0].value)
    else
      assert forall i :: 0 < i < |d| ==> d[i] == d[1..][i - 1];
      Lookup(d[1..], k)
  }

  predicate HasKey(d: Dict, k: Text) {
    exists i :: 0 <= i < |d| && d[i].key == k
  }

  /** `d[k] = v`: an existing key keeps its place. */
  function Put(d: Dict, k: Text, v: Json): Dict {
    if d == [] then [Member(k, v)]
    else if d[0].key == k then [Member(k, v)] + d[1..]
    else [d[0]] + Put(d[1..], k, v)
  }

  /** `list(d)`. */
  function Keys(d: Dict): (r: seq<Text>)
    ensures |r| == |d|
    ensures forall i :: 0 <= i < |d| ==> r[i] == d[i].key
  {
    seq(|d|, i requires 0 <= i < |d| => d[i].key)
  }

  /** What every Python dict guarantees of itself. */
  ghost predicate DistinctKeys(d: Dict) {
    forall i, j :: 0 <= i < j < |d| ==> d[i].key != d[j].key
  }

  lemma LookupPut(d: Dict, k: Text, v: Json, q: Text)
    ensures Lookup(Put(d, k, v), q) == if q == k then Some(v) else Lookup(d, q)
  {
    if d != [] && d[0].key != k {
      LookupPut(d[1..], k, v, q);
      assert Put(d, k, v)[1..] == Put(d[1..], k, v);
    } else if d != [] {
      assert Put(d, k, v)[1..] == d[1..];
    }
  }

  lemma {:induction false} KeysPut(d: Dict, k: Text, v: Json)
    requires HasKey(d, k)
    ensures Keys(Put(d, k, v)) == Keys(d)
  {
    var rest := d[1..];
    assert d == [d[0]] + rest;
    KeysCons(d[0], rest);
    if d[0].key == k {
      KeysCons(Member(k, v), rest);
    } else {
      HasKeyRest(d, k);
      KeysPut(rest, k, v);
      KeysCons(d[0], Put(rest, k, v));
    }
  }

  lemma HasKeyRest(d: Dict, k: Text)
    requires HasKey(d, k) && d[0].key != k
    ensures HasKey(d[1..], k)
  {
    var i :| 0 <= i < |d| && d[i].key == k;
    assert d[1..][i - 1].key == k;
  }

  lemma KeysCons(m: Member, d: Dict)
    ensures Keys([m] + d) == [m.key] + Keys(d)
  {
  }

  lemma LookupAt(d: Dict, i: nat)
    requires DistinctKeys(d) && i < |d|
    ensures Lookup(d, d[i].key) == Some(d[i].value)
  {
    if i > 0 {
      LookupAt(d[1..], i - 1);
    }
  }

  // ----- key order does not matter -----

  /** The dict order `sort_keys=True` prints: by key, earlier entries first among equal keys. */
  function InsertMember(m: Member, d: Dict): Dict {
    if d == [] || AtMost(m.key, d[0].key) then [m] + d
    else [d[0]] + InsertMember(m, d[1..])
  }

  function SortMembers(d: Dict): Dict {
    if d == [] then [] else InsertMember(d[0], SortMembers(d[1..]))
  }

  /** The value with every dict in key order. */
  function Normalize(j: Json): Json
    decreases j, 0
  {
    match j
    case Arr(items) => Arr(NormalizeItems(items))
    case Obj(members) => Obj(NormalizeDict(members))
    case _ => j
  }

  function NormalizeItems(items: seq<Json>): (r: seq<Json>)
    ensures |r| == |items|
    ensures forall i :: 0 <= i < |items| ==> r[i] == Normalize(items[i])
    decreases items, 1
  {
    if items == [] then []
    else [Normalize(items[0])] + NormalizeItems(items[1..])
  }

  function NormalizeMembers(d: Dict): (r: Dict)
    ensures |r| == |d|
    ensures forall i :: 0 <= i < |d| ==> r[i] == Member(d[i].key, Normalize(d[i].value))
    decreases d, 1
  {
    if d == [] then []
    else [Member(d[0].key, Normalize(d[0].value))] + NormalizeMembers(d[1..])
  }

  function NormalizeDict(d: Dict): Dict
    decreases d, 2
  {
    SortMembers(NormalizeMembers(d))
  }

  lemma LookupInsertMember(m: Member, d: Dict, k: Text)
    ensures Lookup(InsertMember(m, d), k) == if k == m.key then Some(m.value) else Lookup(d, k)
  {
    if d == [] || AtMost(m.key, d[0].key) {
      assert ([m] + d)[1..] == d;
    } else {
      AtMostReflexive(m.key);
      LookupInsertMember(m, d[1..], k);
      assert InsertMember(m, d)[1..] == InsertMember(m, d[1..]);
    }
  }

  lemma LookupSortMembers(d: Dict, k: Text)
    ensures Lookup(SortMembers(d), k) == Lookup(d, k)
  {
    if d != [] {
      LookupSortMembers(d[1..], k);
      LookupInsertMember(d[0], SortMembers(d[1..]), k);
    }
  }

  function NormalizeOption(o: Option<Json>): Option<Json> {
    if o.Some? then Some(Normalize(o.value)) else None
  }

  lemma LookupNormalizeMembers(d: Dict, k: Text)
    ensures Lookup(NormalizeMembers(d), k) == NormalizeOption(Lookup(d, k))
  {
    if d != [] {
      LookupNormalizeMembers(d[1..], k);
      assert NormalizeMembers(d)[1..] == NormalizeMembers(d[1..]);
    }
  }

  /** Looking a key up commutes with putting the dict in key order. */
  lemma LookupNormalizeDict(d: Dict, k: Text)
    ensures Lookup(NormalizeDict(d), k) == NormalizeOption(Lookup(d, k))
  {
    LookupSortMembers(NormalizeMembers(d), k);
    LookupNormalizeMembers(d, k);
  }

  /** Dicts that agree up to order hold the same strings. */
  lemma StringSurvives(p: Dict, q: Dict, k: Text, t: Text)
    requires NormalizeDict(p) == NormalizeDict(q) && Lookup(p, k) == Some(Str(t))
    ensures Lookup(q, k) == Some(Str(t))
  {
    LookupNormalizeDict(p, k);
    LookupNormalizeDict(q, k);
    assert NormalizeOption(Lookup(q, k)) == Some(Str(t));
  }

  ghost predicate StrictMembers(d: Dict) {
    forall i, j :: 0 <= i < j < |d| ==> AtMost(d[i].key, d[j].key) && d[i].key != d[j].key
  }

  lemma InsertMemberStrict(m: Member, d: Dict)
    requires StrictMembers(d) && !HasKey(d, m.key)
    ensures StrictMembers(InsertMember(m, d))
    ensures forall x :: x in InsertMember(m, d) ==> x == m || x in d
  {
    if d == [] {
    } else if AtMost(m.key, d[0].key) {
      forall j | 0 <= j < |d|
        ensures AtMost(m.key, d[j].key)
      {
        AtMostReflexive(d[0].key);
        AtMostTransitive(m.key, d[0].key, d[j].key);
      }
    } else {
      AtMostTotal(m.key, d[0].key);
      assert forall i :: 0 < i < |d| ==> d[1..][i - 1] == d[i];
      assert !HasKey(d[1..], m.key);
      InsertMemberStrict(m, d[1..]);
      var rest := InsertMember(m, d[1..]);
      forall j | 0 <= j < |rest|
        ensures AtMost(d[0].key, rest[j].key) && d[0].key != rest[j].key
      {
        assert rest[j] in rest;
      }
    }
  }

  lemma {:induction false} SortMembersAscends(d: Dict)
    requires DistinctKeys(d)
    ensures StrictMembers(SortMembers(d))
  {
    if d != [] {
      SortMembersAscends(d[1..]);
      LookupSortMembers(d[1..], d[0].key);
      assert !HasKey(SortMembers(d[1..]), d[0].key) by {
        assert forall i :: 0 <= i < |d[1..]| ==> d[1..][i].key != d[0].key;
      }
      InsertMemberStrict(d[0], SortMembers(d[1..]));
    }
  }

  /** `sort_keys=True` puts each key before the next and keeps what every key is mapped to. */
  lemma SortMembersStrict(d: Dict)
    requires DistinctKeys(d)
    ensures var r := SortMembers(d);
            && (forall k :: Lookup(r, k) == Lookup(d, k))
            && (forall i, j :: 0 <= i < j < |r| ==> r[i].key != r[j].key && Before(r[i].key, r[j].key))
  {
    SortMembersAscends(d);
    var r := SortMembers(d);
    forall k
      ensures Lookup(r, k) == Lookup(d, k)
    {
      LookupSortMembers(d, k);
    }
    forall i, j | 0 <= i < j < |r|
      ensures r[i].key != r[j].key && Before(r[i].key, r[j].key)
    {
      AtMostIsLexicographic(r[i].key, r[j].key);
    }
  }

  /** Two dicts in key order that answer every lookup alike are the same list. */
  lemma StrictMembersUnique(a: Dict, b: Dict)
    requires StrictMembers(a) && StrictMembers(b)
    requires forall k :: Lookup(a, k) == Lookup(b, k)
    ensures a == b
  {
    if a == [] || b == [] {
      if b != [] {
        LookupHead(b);
      }
      if a != [] {
        LookupHead(a);
      }
    } else {
      HeadIsLeast(a, b[0].key);
      HeadIsLeast(b, a[0].key);
      AtMostAntisymmetric(a[0].key, b[0].key);
      LookupHead(a);
      LookupHead(b);
      forall k
        ensures Lookup(a[1..], k) == Lookup(b[1..], k)
      {
        if k == a[0].key {
          assert !HasKey(a[1..], k) && !HasKey(b[1..], k);
        } else {
          assert Lookup(a, k) == Lookup(a[1..], k) && Lookup(b, k) == Lookup(b[1..], k);
        }
      }
      StrictMembersUnique(a[1..], b[1..]);
      assert a == [a[0]] + a[1..] && b == [b[0]] + b[1..];
    }
  }

  lemma LookupHead(d: Dict)
    requires d != []
    ensures Lookup(d, d[0].key) == Some(d[0].value)
  {
  }

  lemma HeadIsLeast(d: Dict, k: Text)
    requires StrictMembers(d) && d != [] && Lookup(d, k).Some?
    ensures AtMost(d[0].key, k)
  {
    AtMostReflexive(d[0].key);
    var i :| 0 <= i < |d| && d[i].key == k;
  }

  // ----- equality of JSON values, said without normalising -----

  ghost predicate SameKeys(a: Dict, b: Dict) {
    forall k :: HasKey(a, k) <==> HasKey(b, k)
  }

  /** Equality of JSON values on trees of dicts with distinct keys: dict order is irrelevant. */
  ghost predicate SameValue(v: Json, w: Json)
    decreases v
  {
    match v
    case Arr(a) =>
      w.Arr? && |a| == |w.items| && forall i :: 0 <= i < |a| ==> SameValue(a[i], w.items[i])
    case Obj(a) =>
      && w.Obj?
      && SameKeys(a, w.members)
      && forall i, j :: 0 <= i < |a| && 0 <= j < |w.members| && a[i].key == w.members[j].key ==>
           SameValue(a[i].value, w.members[j].value)
    case _ => v == w
  }

  /** Every dict in the tree has distinct keys. */
  ghost predicate Valid(j: Json) {
    match j
    case Arr(items) => forall i :: 0 <= i < |items| ==> Valid(items[i])
    case Obj(members) => ValidDict(members)
    case _ => true
  }

  ghost predicate ValidDict(d: Dict) {
    && DistinctKeys(d)
    && forall i :: 0 <= i < |d| ==> Valid(d[i].value)
  }

  /** Dicts with distinct keys normalise alike as soon as every lookup does. */
  lemma SameLookupsSameDict(a: Dict, b: Dict)
    requires DistinctKeys(a) && DistinctKeys(b)
    requires forall k :: NormalizeOption(Lookup(a, k)) == NormalizeOption(Lookup(b, k))
    ensures NormalizeDict(a) == NormalizeDict(b)
  {
    SortMembersAscends(NormalizeMembers(a));
    SortMembersAscends(NormalizeMembers(b));
    forall k
      ensures Lookup(NormalizeDict(a), k) == Lookup(NormalizeDict(b), k)
    {
      LookupNormalizeDict(a, k);
      LookupNormalizeDict(b, k);
    }
    StrictMembersUnique(NormalizeDict(a), NormalizeDict(b));
  }

  /** Putting dicts in key order forgets the insertion order and nothing else. */
  lemma {:induction false} NormalizeForgetsOnlyOrder(v: Json, w: Json)
    requires Valid(v) && Valid(w)
    ensures Normalize(v) == Normalize(w) <==> SameValue(v, w)
    decreases v
  {
    match v {
      case Arr(a) =>
        if w.Arr? && |a| == |w.items| {
          forall i | 0 <= i < |a|
            ensures Normalize(a[i]) == Normalize(w.items[i]) <==> SameValue(a[i], w.items[i])
          {
            NormalizeForgetsOnlyOrder(a[i], w.items[i]);
          }
          ItemsForgetOnlyOrder(a, w.items);
        }
      case Obj(a) =>
        if w.Obj? {
          forall i, j | 0 <= i < |a| && 0 <= j < |w.members|
            ensures Normalize(a[i].value) == Normalize(w.members[j].value)
                    <==> SameValue(a[i].value, w.members[j].value)
          {
            NormalizeForgetsOnlyOrder(a[i].value, w.members[j].value);
          }
          DictForgetsOnlyOrder(a, w.members);
        }
      case _ =>
    }
  }

  lemma ItemsForgetOnlyOrder(a: seq<Json>, b: seq<Json>)
    requires |a| == |b|
    ensures NormalizeItems(a) == NormalizeItems(b)
            <==> forall i :: 0 <= i < |a| ==> Normalize(a[i]) == Normalize(b[i])
  {
    if NormalizeItems(a) == NormalizeItems(b) {
      forall i | 0 <= i < |a|
        ensures Normalize(a[i]) == Normalize(b[i])
      {
        assert NormalizeItems(a)[i] == NormalizeItems(b)[i];
      }
    }
  }

  lemma DictForgetsOnlyOrder(a: Dict, b: Dict)
    requires DistinctKeys(a) && DistinctKeys(b)
    ensures NormalizeDict(a) == NormalizeDict(b)
            <==> (&& SameKeys(a, b)
                  && forall i, j :: 0 <= i < |a| && 0 <= j < |b| && a[i].key == b[j].key ==>
                       Normalize(a[i].value) == Normalize(b[j].value))
  {
    if NormalizeDict(a) == NormalizeDict(b) {
      forall k
        ensures NormalizeOption(Lookup(a, k)) == NormalizeOption(Lookup(b, k))
      {
        LookupNormalizeDict(a, k);
        LookupNormalizeDict(b, k);
      }
      forall k
        ensures HasKey(a, k) <==> HasKey(b, k)
      {
        assert NormalizeOption(Lookup(a, k)) == NormalizeOption(Lookup(b, k));
      }
      forall i, j | 0 <= i < |a| && 0 <= j < |b| && a[i].key == b[j].key
        ensures Normalize(a[i].value) == Normalize(b[j].value)
      {
        LookupAt(a, i);
        LookupAt(b, j);
      }
    } else if SameKeys(a, b)
      && forall i, j :: 0 <= i < |a| && 0 <= j < |b| && a[i].key == b[j].key ==>
           Normalize(a[i].value) == Normalize(b[j].value) {
      forall k
        ensures NormalizeOption(Lookup(a, k)) == NormalizeOption(Lookup(b, k))
      {
        assert HasKey(a, k) <==> HasKey(b, k);
        assert Lookup(a, k).Some? <==> Lookup(b, k).Some?;
      }
      SameLookupsSameDict(a, b);
    }
  }

  // ----- and against Python's equality -----

  /** Python's `v == w`, for which `True == 1` and `False == 0`. */
  ghost predicate PythonEqual(v: Json, w: Json)
    decreases v
  {
    match v
    case Bool(b) => w == v || w == Num(if b then 1 else 0)
    case Num(n) => w == v || (w.Bool? && n == if w.b then 1 else 0)
    case Arr(a) =>
      w.Arr? && |a| == |w.items| && forall i :: 0 <= i < |a| ==> PythonEqual(a[i], w.items[i])
    case Obj(a) =>
      && w.Obj?
      && SameKeys(a, w.members)
      && forall i, j :: 0 <= i < |a| && 0 <= j < |w.members| && a[i].key == w.members[j].key ==>
           PythonEqual(a[i].value, w.members[j].value)
    case _ => v == w
  }

  /** Nowhere in the two does a `bool` stand against an `int`. */
  ghost predicate SameKinds(v: Json, w: Json)
    decreases v
  {
    match v
    case Bool(_) => !w.Num?
    case Num(_) => !w.Bool?
    case Arr(a) =>
      w.Arr? && |a| == |w.items| ==> forall i :: 0 <= i < |a| ==> SameKinds(a[i], w.items[i])
    case Obj(a) =>
      w.Obj? ==>
        forall i, j :: 0 <= i < |a| && 0 <= j < |w.members| && a[i].key == w.members[j].key ==>
          SameKinds(a[i].value, w.members[j].value)
    case _ => true
  }

  lemma {:induction false} SameValueIsEqual(v: Json, w: Json)
    ensures SameValue(v, w) <==> PythonEqual(v, w) && SameKinds(v, w)
    decreases v
  {
    match v {
      case Arr(a) =>
        if w.Arr? && |a| == |w.items| {
          forall i | 0 <= i < |a|
            ensures SameValue(a[i], w.items[i]) <==> PythonEqual(a[i], w.items[i]) && SameKinds(a[i], w.items[i])
          {
            SameValueIsEqual(a[i], w.items[i]);
          }
        }
      case Obj(a) =>
        if w.Obj? {
          forall i, j | 0 <= i < |a| && 0 <= j < |w.members|
            ensures SameValue(a[i].value, w.members[j].value)
                    <==> PythonEqual(a[i].value, w.members[j].value) && SameKinds(a[i].value, w.members[j].value)
          {
            SameValueIsEqual(a[i].value, w.members[j].value);
          }
        }
      case _ =>
    }
  }

  /** Sorting keys identifies two values exactly when Python calls them equal and no `bool` stands
      against an `int`. */
  lemma NormalizeForgetsOrderAlone(v: Json, w: Json)
    requires Valid(v) && Valid(w)
    ensures Normalize(v) == Normalize(w) <==> PythonEqual(v, w) && SameKinds(v, w)
  {
    NormalizeForgetsOnlyOrder(v, w);
    SameValueIsEqual(v, w);
  }
}
