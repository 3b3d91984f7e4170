/** The structural limits on an event's payload, and what they measure. */
module PayloadLimits {
  import opened Texts
  import opened Jsons
  import opened Wrappers
  import opened JsonPrinter
  import opened AuditLog

  // ----- the three measures -----

  /** `compute_payload_byte_size`: the rendering is ASCII, so its bytes are its characters. */
  function PayloadByteSize(payload: Dict): nat {
    |Dumps(Obj(payload))|
  }

  function Max(a: nat, b: nat): nat {
    if a < b then b else a
  }

  /** `compute_payload_depth`. */
  function PayloadDepth(v: Json): nat
    decreases v, 0
  {
    match v
    case Arr(items) => if items == [] then 0 else 1 + ItemsDepth(items)
    case Obj(members) => if members == [] then 0 else 1 + MembersDepth(members)
    case _ => 0
  }

  function ItemsDepth(items: seq<Json>): (n: nat)
    decreases items, 1
  {
    if items == [] then 0 else Max(PayloadDepth(items[0]), ItemsDepth(items[1..]))
  }

  function MembersDepth(d: Dict): (n: nat)
    decreases d, 1
  {
    if d == [] then 0 else Max(PayloadDepth(d[0].value), MembersDepth(d[1..]))
  }

  /** `payload_has_overlong_string`. */
  predicate HasOverlongString(v: Json, maxLength: nat)
    decreases v, 0
  {
    match v
    case Str(s) => |s| > maxLength
    case Arr(items) => AnyItemOverlong(items, maxLength)
    case Obj(members) => AnyMemberOverlong(members, maxLength)
    case _ => false
  }

  predicate AnyItemOverlong(items: seq<Json>, maxLength: nat)
    decreases items, 1
  {
    items != [] && (HasOverlongString(items[0], maxLength) || AnyItemOverlong(items[1..], maxLength))
  }

  predicate AnyMemberOverlong(d: Dict, maxLength: nat)
    decreases d, 1
  {
    d != [] && (|| |d[0].key| > maxLength
                || HasOverlongString(d[0].value, maxLength)
                || AnyMemberOverlong(d[1..], maxLength))
  }

  datatype Limits = Limits(maxBytes: nat, maxDepth: nat, maxStringLength: nat)

  datatype LimitError = TooManyBytes(size: nat) | TooDeep(depth: nat) | OverlongString

  /** The payload validator of `AuditEventCreate`: size first, then depth, then strings. */
  function EnforcePayloadLimits(l: Limits, payload: Dict): Result<Dict, LimitError> {
    var size := PayloadByteSize(payload);
    var depth := PayloadDepth(Obj(payload));
    if size > l.maxBytes then Failure(TooManyBytes(size))
    else if depth > l.maxDepth then Failure(TooDeep(depth))
    else if HasOverlongString(Obj(payload), l.maxStringLength) then Failure(OverlongString)
    else Success(payload)
  }

  predicate Between(t: Text, least: nat, most: nat) {
    least <= |t| <= most
  }

  /** What `AuditEventCreate` accepts. The tenant is not part of that schema. */
  predicate Acceptable(l: Limits, r: Request) {
    && Between(r.eventType, 1, 100) && Between(r.actorId, 1, 255)
    && Between(r.resourceType, 1, 100) && Between(r.resourceId, 1, 255)
    && EnforcePayloadLimits(l, r.payload).Success?
  }

  // ----- depth is the length of the longest path -----

  function Width(v: Json): nat {
    match v
    case Arr(items) => |items|
    case Obj(members) => |members|
    case _ => 0
  }

  function Child(v: Json, i: nat): Json
    requires i < Width(v)
  {
    match v
    case Arr(items) => items[i]
    case Obj(members) => members[i].value
  }

  /** Successive subscripts that lead from a value to something inside it. */
  predicate Path(v: Json, p: seq<nat>)
    decreases |p|
  {
    p == [] || (p[0] < Width(v) && Path(Child(v, p[0]), p[1..]))
  }

  lemma {:induction false} ItemsDepthIsMax(items: seq<Json>)
    ensures forall i :: 0 <= i < |items| ==> PayloadDepth(items[i]) <= ItemsDepth(items)
    ensures items != [] ==> exists i :: 0 <= i < |items| && PayloadDepth(items[i]) == ItemsDepth(items)
  {
    if items != [] {
      var rest := items[1..];
      ItemsDepthIsMax(rest);
      assert forall i :: 0 < i < |items| ==> items[i] == rest[i - 1];
      if rest != [] && PayloadDepth(items[0]) < ItemsDepth(rest) {
        var i :| 0 <= i < |rest| && PayloadDepth(rest[i]) == ItemsDepth(rest);
        assert items[i + 1] == rest[i];
      } else {
        assert PayloadDepth(items[0]) == ItemsDepth(items);
      }
    }
  }

  lemma {:induction false} MembersDepthIsMax(d: Dict)
    ensures forall i :: 0 <= i < |d| ==> PayloadDepth(d[i].value) <= MembersDepth(d)
    ensures d != [] ==> exists i :: 0 <= i < |d| && PayloadDepth(d[i].value) == MembersDepth(d)
  {
    if d != [] {
      var rest := d[1..];
      MembersDepthIsMax(rest);
      assert forall i :: 0 < i < |d| ==> d[i] == rest[i - 1];
      if rest != [] && PayloadDepth(d[0].value) < MembersDepth(rest) {
        var i :| 0 <= i < |rest| && PayloadDepth(rest[i].value) == MembersDepth(rest);
        assert d[i + 1] == rest[i];
      } else {
        assert PayloadDepth(d[0].value) == MembersDepth(d);
      }
    }
  }

  /** A container is one deeper than its deepest child. */
  lemma DepthOfContainer(v: Json)
    ensures forall i :: 0 <= i < Width(v) ==> PayloadDepth(Child(v, i)) < PayloadDepth(v)
    ensures Width(v) > 0 ==> exists i: nat :: i < Width(v) && PayloadDepth(Child(v, i)) + 1 == PayloadDepth(v)
    ensures Width(v) == 0 ==> PayloadDepth(v) == 0
  {
    match v {
      case Arr(items) =>
        ItemsDepthIsMax(items);
        if items != [] {
          var i :| 0 <= i < |items| && PayloadDepth(items[i]) == ItemsDepth(items);
          assert Child(v, i) == items[i];
        }
      case Obj(members) =>
        MembersDepthIsMax(members);
        if members != [] {
          var i :| 0 <= i < |members| && PayloadDepth(members[i].value) == MembersDepth(members);
          assert Child(v, i) == members[i].value;
        }
      case _ =>
    }
  }

  lemma {:induction false} PathsAreShort(v: Json, p: seq<nat>)
    requires Path(v, p)
    ensures |p| <= PayloadDepth(v)
    decreases |p|
  {
    if p != [] {
      DepthOfContainer(v);
      PathsAreShort(Child(v, p[0]), p[1..]);
    }
  }

  lemma {:induction false} LongestPath(v: Json) returns (p: seq<nat>)
    ensures Path(v, p) && |p| == PayloadDepth(v)
    decreases PayloadDepth(v)
  {
    DepthOfContainer(v);
    if Width(v) == 0 {
      p := [];
    } else {
      var i: nat :| i < Width(v) && PayloadDepth(Child(v, i)) + 1 == PayloadDepth(v);
      var q := LongestPath(Child(v, i));
      p := [i] + q;
      assert p[1..] == q;
    }
  }

  /** The depth is how many subscripts the longest path into the value takes. */
  lemma DepthIsLongestPath(v: Json)
    ensures forall p :: Path(v, p) ==> |p| <= PayloadDepth(v)
    ensures exists p :: Path(v, p) && |p| == PayloadDepth(v)
  {
    forall p | Path(v, p)
      ensures |p| <= PayloadDepth(v)
    {
      PathsAreShort(v, p);
    }
    var p := LongestPath(v);
  }

  // ----- overlong strings -----

  /** The string occurs in the value, as a value or as a key, at any depth. */
  ghost predicate Mentions(v: Json, s: Text) {
    match v
    case Str(t) => t == s
    case Arr(items) => exists i :: 0 <= i < |items| && Mentions(items[i], s)
    case Obj(members) => exists i :: 0 <= i < |members| && MemberMentions(members[i], s)
    case _ => false
  }

  ghost predicate MemberMentions(m: Member, s: Text) {
    m.key == s || Mentions(m.value, s)
  }

  ghost predicate MentionsOverlong(v: Json, maxLength: nat) {
    exists s :: Mentions(v, s) && |s| > maxLength
  }

  lemma MentionedInItem(items: seq<Json>, maxLength: nat)
    ensures MentionsOverlong(Arr(items), maxLength)
            <==> exists i :: 0 <= i < |items| && MentionsOverlong(items[i], maxLength)
  {
    if MentionsOverlong(Arr(items), maxLength) {
      var s :| Mentions(Arr(items), s) && |s| > maxLength;
      var i :| 0 <= i < |items| && Mentions(items[i], s);
      assert MentionsOverlong(items[i], maxLength);
    }
    if i :| 0 <= i < |items| && MentionsOverlong(items[i], maxLength) {
      var s :| Mentions(items[i], s) && |s| > maxLength;
      assert Mentions(Arr(items), s);
    }
  }

  lemma MentionedInMember(d: Dict, maxLength: nat)
    ensures MentionsOverlong(Obj(d), maxLength)
            <==> exists i :: 0 <= i < |d| && (|d[i].key| > maxLength || MentionsOverlong(d[i].value, maxLength))
  {
    if MentionsOverlong(Obj(d), maxLength) {
      var s :| Mentions(Obj(d), s) && |s| > maxLength;
      var i :| 0 <= i < |d| && MemberMentions(d[i], s);
      assert d[i].key == s || MentionsOverlong(d[i].value, maxLength);
    }
    if i :| 0 <= i < |d| && |d[i].key| > maxLength {
      assert MemberMentions(d[i], d[i].key);
      assert Mentions(Obj(d), d[i].key);
    }
    if i :| 0 <= i < |d| && MentionsOverlong(d[i].value, maxLength) {
      var s :| Mentions(d[i].value, s) && |s| > maxLength;
      assert MemberMentions(d[i], s);
      assert Mentions(Obj(d), s);
    }
  }

  /** The check answers true exactly when some string in the value is too long. */
  lemma {:induction false} OverlongIsMentioned(v: Json, maxLength: nat)
    ensures HasOverlongString(v, maxLength) <==> MentionsOverlong(v, maxLength)
    decreases v, 0
  {
    match v {
      case Str(t) => assert Mentions(v, t);
      case Arr(items) =>
        OverlongItems(items, maxLength);
        MentionedInItem(items, maxLength);
      case Obj(members) =>
        OverlongMembers(members, maxLength);
        MentionedInMember(members, maxLength);
      case _ =>
    }
  }

  lemma {:induction false} OverlongItems(items: seq<Json>, maxLength: nat)
    ensures AnyItemOverlong(items, maxLength)
            <==> exists i :: 0 <= i < |items| && MentionsOverlong(items[i], maxLength)
    decreases items, 1
  {
    if items != [] {
      var rest := items[1..];
      OverlongIsMentioned(items[0], maxLength);
      OverlongItems(rest, maxLength);
      assert forall i :: 0 < i < |items| ==> items[i] == rest[i - 1];
      if i :| 0 <= i < |rest| && MentionsOverlong(rest[i], maxLength) {
        assert items[i + 1] == rest[i];
      }
    }
  }

  lemma {:induction false} OverlongMembers(d: Dict, maxLength: nat)
    ensures AnyMemberOverlong(d, maxLength)
            <==> exists i :: 0 <= i < |d| && (|d[i].key| > maxLength || MentionsOverlong(d[i].value, maxLength))
    decreases d, 1
  {
    if d != [] {
      var rest := d[1..];
      OverlongIsMentioned(d[0].value, maxLength);
      OverlongMembers(rest, maxLength);
      assert forall i :: 0 < i < |d| ==> d[i] == rest[i - 1];
      if i :| 0 <= i < |rest| && (|rest[i].key| > maxLength || MentionsOverlong(rest[i].value, maxLength)) {
        assert d[i + 1] == rest[i];
      }
    }
  }

  // ----- what is accepted -----

  /** The length of the longest path into a value. */
  ghost predicate LongestPathIs(v: Json, n: nat) {
    (forall p :: Path(v, p) ==> |p| <= n) && exists p :: Path(v, p) && |p| == n
  }

  /** The three limits, in the order they are checked: the size of the rendering, the longest path, the
      strings at any depth. A payload within all of them is accepted as it is. */
  lemma LimitsExact(l: Limits, payload: Dict)
    ensures var r, v := EnforcePayloadLimits(l, payload), Obj(payload);
            if |Dumps(v)| > l.maxBytes then r == Failure(TooManyBytes(|Dumps(v)|))
            else if exists p :: Path(v, p) && |p| > l.maxDepth then
              r.Failure? && r.error.TooDeep? && LongestPathIs(v, r.error.depth)
            else if exists s :: Mentions(v, s) && |s| > l.maxStringLength then r == Failure(OverlongString)
            else r == Success(payload)
  {
    DepthIsLongestPath(Obj(payload));
    OverlongIsMentioned(Obj(payload), l.maxStringLength);
  }

  /** A request is accepted exactly when its four names are not empty and fit their columns, its
      payload renders to few enough bytes, and no path into it and no string in it is too long. */
  lemma AcceptedExactly(l: Limits, r: Request)
    ensures Acceptable(l, r)
            <==> (&& 0 < |r.eventType| <= 100 && 0 < |r.actorId| <= 255
                  && 0 < |r.resourceType| <= 100 && 0 < |r.resourceId| <= 255
                  && |Dumps(Obj(r.payload))| <= l.maxBytes
                  && (forall p :: Path(Obj(r.payload), p) ==> |p| <= l.maxDepth)
                  && (forall s :: Mentions(Obj(r.payload), s) ==> |s| <= l.maxStringLength))
  {
    LimitsExact(l, r.payload);
  }

  // ----- none of the measures sees the order of a dict -----

  function EntrySize(m: Member): nat {
    |Quote(m.key)| + 1 + |Dumps(m.value)|
  }

  function TotalSize(d: Dict): nat {
    if d == [] then 0 else EntrySize(d[0]) + TotalSize(d[1..])
  }

  lemma {:induction false} DumpsMembersSize(d: Dict)
    requires d != []
    ensures |DumpsMembers(d)| == TotalSize(d) + |d| - 1
  {
    if |d| > 1 {
      DumpsMembersSize(d[1..]);
    }
  }

  /** Measures a dict entry by entry: its size, its depth, whether a string in it is too long. */
  lemma {:induction false} InsertMemberMeasures(m: Member, d: Dict, maxLength: nat)
    ensures TotalSize(InsertMember(m, d)) == TotalSize([m] + d)
    ensures MembersDepth(InsertMember(m, d)) == MembersDepth([m] + d)
    ensures AnyMemberOverlong(InsertMember(m, d), maxLength) == AnyMemberOverlong([m] + d, maxLength)
    ensures |InsertMember(m, d)| == |d| + 1
  {
    assert ([m] + d)[1..] == d;
    if d != [] && !AtMost(m.key, d[0].key) {
      InsertMemberMeasures(m, d[1..], maxLength);
      assert InsertMember(m, d)[1..] == InsertMember(m, d[1..]);
      assert ([m] + d[1..])[1..] == d[1..];
    }
  }

  lemma {:induction false} SortMembersMeasures(d: Dict, maxLength: nat)
    ensures TotalSize(SortMembers(d)) == TotalSize(d)
    ensures MembersDepth(SortMembers(d)) == MembersDepth(d)
    ensures AnyMemberOverlong(SortMembers(d), maxLength) == AnyMemberOverlong(d, maxLength)
    ensures |SortMembers(d)| == |d|
  {
    if d != [] {
      var rest := SortMembers(d[1..]);
      SortMembersMeasures(d[1..], maxLength);
      InsertMemberMeasures(d[0], rest, maxLength);
      assert ([d[0]] + rest)[1..] == rest;
    }
  }

  /** Key order changes none of the three measures, so what counts against the byte limit is
      exactly what `canonicalize` would hash. */
  lemma {:induction false} NormalizeMeasures(v: Json, maxLength: nat)
    ensures |Canonicalize(v)| == |Dumps(v)|
    ensures PayloadDepth(Normalize(v)) == PayloadDepth(v)
    ensures HasOverlongString(Normalize(v), maxLength) == HasOverlongString(v, maxLength)
    decreases v, 0
  {
    match v {
      case Arr(items) => NormalizeItemsMeasures(items, maxLength);
      case Obj(members) =>
        NormalizeMembersMeasures(members, maxLength);
        SortMembersMeasures(NormalizeMembers(members), maxLength);
        if members != [] {
          DumpsMembersSize(members);
          DumpsMembersSize(NormalizeDict(members));
        }
      case _ =>
    }
  }

  lemma {:induction false} NormalizeItemsMeasures(items: seq<Json>, maxLength: nat)
    ensures items != [] ==> |DumpsItems(NormalizeItems(items))| == |DumpsItems(items)|
    ensures ItemsDepth(NormalizeItems(items)) == ItemsDepth(items)
    ensures AnyItemOverlong(NormalizeItems(items), maxLength) == AnyItemOverlong(items, maxLength)
    decreases items, 1
  {
    if items != [] {
      NormalizeMeasures(items[0], maxLength);
      NormalizeItemsMeasures(items[1..], maxLength);
      assert NormalizeItems(items)[1..] == NormalizeItems(items[1..]);
    }
  }

  lemma {:induction false} NormalizeMembersMeasures(d: Dict, maxLength: nat)
    ensures TotalSize(NormalizeMembers(d)) == TotalSize(d)
    ensures MembersDepth(NormalizeMembers(d)) == MembersDepth(d)
    ensures AnyMemberOverlong(NormalizeMembers(d), maxLength) == AnyMemberOverlong(d, maxLength)
    decreases d, 1
  {
    if d != [] {
      NormalizeMeasures(d[0].value, maxLength);
      NormalizeMembersMeasures(d[1..], maxLength);
      assert NormalizeMembers(d)[1..] == NormalizeMembers(d[1..]);
    }
  }

  /** Payloads that differ in dict order alone are accepted alike, and refused for the same reason. */
  lemma LimitsIgnoreOrder(l: Limits, p: Dict, q: Dict)
    requires NormalizeDict(p) == NormalizeDict(q)
    ensures EnforcePayloadLimits(l, p).Success? <==> EnforcePayloadLimits(l, q).Success?
    ensures EnforcePayloadLimits(l, p).Failure? ==> EnforcePayloadLimits(l, p) == EnforcePayloadLimits(l, q)
    ensures PayloadByteSize(p) == |Canonicalize(Obj(p))|
  {
    NormalizeMeasures(Obj(p), l.maxStringLength);
    NormalizeMeasures(Obj(q), l.maxStringLength);
    assert Normalize(Obj(p)) == Normalize(Obj(q));
  }

  /** Equality in Python is not enough for that: it does not tell `True` from `1`, the size does. */
  lemma LimitsSeeKinds()
    ensures var p, q := [Member(Lit("a"), Bool(true))], [Member(Lit("a"), Num(1))];
            && PythonEqual(Obj(p), Obj(q))
            && EnforcePayloadLimits(Limits(9, 10, 10), p) == Failure(TooManyBytes(10))
            && EnforcePayloadLimits(Limits(9, 10, 10), q) == Success(q)
  {
    var p, q := [Member(Lit("a"), Bool(true))], [Member(Lit("a"), Num(1))];
    assert p[0].key == q[0].key && HasKey(p, Lit("a")) && HasKey(q, Lit("a"));
    assert PythonEqual(p[0].value, q[0].value);
    var a := Lit("a");
    assert a[1..] == [] && EscapeAll(a[1..]) == "";
    assert |Escape(a[0])| == 1;
    assert |Quote(a)| == 3;
    assert |Dumps(Bool(true))| == 4 && |Dumps(Num(1))| == 1;
    assert |DumpsMembers(p)| == 8 && |DumpsMembers(q)| == 5;
    assert MembersDepth(q) == 0;
    assert q[1..] == [] && !AnyMemberOverlong(q[1..], 10);
    assert !HasOverlongString(Num(1), 10);
    assert !AnyMemberOverlong(q, 10);
  }

  // ----- the byte limit bounds the other two -----

  lemma {:induction false} EscapeAllGrows(t: Text)
    ensures |EscapeAll(t)| >= |t|
  {
    if t != [] {
      EscapeAllGrows(t[1..]);
    }
  }

  lemma {:induction false} RenderingBounds(v: Json, s: Text)
    ensures 2 * PayloadDepth(v) < |Dumps(v)|
    ensures Mentions(v, s) ==> |s| + 2 <= |Dumps(v)|
    decreases v, 0
  {
    match v {
      case Str(t) => EscapeAllGrows(t);
      case Arr(items) =>
        if items != [] {
          ItemsBounds(items, s);
        }
      case Obj(members) =>
        if members != [] {
          MembersBounds(members, s);
        }
      case _ =>
    }
  }

  lemma {:induction false} ItemsBounds(items: seq<Json>, s: Text)
    requires items != []
    ensures 2 * ItemsDepth(items) < |DumpsItems(items)|
    ensures (exists i :: 0 <= i < |items| && Mentions(items[i], s)) ==> |s| + 2 <= |DumpsItems(items)|
    decreases items, 1
  {
    RenderingBounds(items[0], s);
    if |items| > 1 {
      ItemsBounds(items[1..], s);
      assert forall i :: 0 < i < |items| ==> items[i] == items[1..][i - 1];
    }
  }

  lemma {:induction false} MembersBounds(d: Dict, s: Text)
    requires d != []
    ensures 2 * MembersDepth(d) < |DumpsMembers(d)|
    ensures (exists i :: 0 <= i < |d| && MemberMentions(d[i], s)) ==> |s| + 2 <= |DumpsMembers(d)|
    decreases d, 1
  {
    RenderingBounds(d[0].value, s);
    EscapeAllGrows(d[0].key);
    if |d| > 1 {
      MembersBounds(d[1..], s);
      assert forall i :: 0 < i < |d| ==> d[i] == d[1..][i - 1];
    }
  }

  /** A payload within the byte limit nests less than half as deep and has no string as long as
      that limit: the other two checks refuse nothing unless they are set lower than this. */
  lemma SizeBoundsTheRest(l: Limits, payload: Dict)
    requires PayloadByteSize(payload) <= l.maxBytes
    requires l.maxBytes <= 2 * l.maxDepth + 1 && l.maxBytes <= l.maxStringLength + 2
    ensures EnforcePayloadLimits(l, payload).Success?
  {
    RenderingBounds(Obj(payload), []);
    OverlongIsMentioned(Obj(payload), l.maxStringLength);
    if s :| Mentions(Obj(payload), s) && |s| > l.maxStringLength {
      RenderingBounds(Obj(payload), s);
    }
  }
}
