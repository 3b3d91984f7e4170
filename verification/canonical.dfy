/** What `canonicalize` pins down: the value, whatever order its dicts were built in. */
module Canonical {
  import opened Texts
  import opened Jsons
  import opened Wrappers
  import opened JsonPrinter
  import opened JsonReader

  lemma {:induction false} InsertMemberElements(m: Member, d: Dict)
    ensures forall x :: x in InsertMember(m, d) <==> x == m || x in d
  {
    if d != [] && !AtMost(m.key, d[0].key) {
      InsertMemberElements(m, d[1..]);
      assert d == [d[0]] + d[1..];
    }
  }

  lemma {:induction false} SortMembersElements(d: Dict)
    ensures forall x :: x in SortMembers(d) <==> x in d
  {
    if d != [] {
      SortMembersElements(d[1..]);
      InsertMemberElements(d[0], SortMembers(d[1..]));
      assert d == [d[0]] + d[1..];
    }
  }

  lemma CleanSortMembers(d: Dict)
    ensures CleanDict(SortMembers(d)) <==> CleanDict(d)
  {
    SortMembersElements(d);
    var e := SortMembers(d);
    if CleanDict(d) {
      forall i | 0 <= i < |e|
        ensures PairFree(e[i].key) && Clean(e[i].value)
      {
        assert e[i] in e;
      }
    }
    if CleanDict(e) {
      forall i | 0 <= i < |d|
        ensures PairFree(d[i].key) && Clean(d[i].value)
      {
        assert d[i] in d;
        assert d[i] in e;
      }
    }
  }

  lemma {:induction false} CleanNormalize(j: Json)
    ensures Clean(Normalize(j)) <==> Clean(j)
  {
    match j {
      case Arr(items) =>
        forall i | 0 <= i < |items|
          ensures Clean(NormalizeItems(items)[i]) <==> Clean(items[i])
        {
          CleanNormalize(items[i]);
        }
      case Obj(members) =>
        var d := NormalizeMembers(members);
        forall i | 0 <= i < |members|
          ensures Clean(d[i].value) <==> Clean(members[i].value)
        {
          CleanNormalize(members[i].value);
        }
        assert CleanDict(d) <==> CleanDict(members);
        CleanSortMembers(d);
      case _ =>
    }
  }

  /** Reading the canonical bytes gives the value in key order, split surrogate pairs joined;
      exactly the value in key order if and only if there was no such pair. */
  lemma CanonicalRoundTrip(j: Json)
    ensures Read(Canonicalize(j)) == Some(JoinAll(Normalize(j)))
    ensures Read(Canonicalize(j)) == Some(Normalize(j)) <==> Clean(j)
  {
    ReadDumps(Normalize(j));
    JoinAllIsIdentity(Normalize(j));
    CleanNormalize(j);
  }

  /** The canonical bytes of two clean values agree exactly when the values do, dict order aside. */
  lemma CanonicalizeInjective(v: Json, w: Json)
    requires Clean(v) && Clean(w)
    ensures Canonicalize(v) == Canonicalize(w) <==> Normalize(v) == Normalize(w)
  {
    CanonicalRoundTrip(v);
    CanonicalRoundTrip(w);
  }

  /** The same, in terms of Python's equality: values it calls equal have the same bytes exactly
      when no `bool` stands against an `int` in them. */
  lemma CanonicalizeIffEqual(v: Json, w: Json)
    requires Clean(v) && Clean(w) && Valid(v) && Valid(w)
    ensures Canonicalize(v) == Canonicalize(w) <==> PythonEqual(v, w) && SameKinds(v, w)
  {
    CanonicalizeInjective(v, w);
    NormalizeForgetsOrderAlone(v, w);
  }

  /** Why the second condition is needed: `{"a": True} == {"a": 1}` in Python. */
  lemma EqualButDifferentBytes()
    ensures var v, w := Obj([Member(Lit("a"), Bool(true))]), Obj([Member(Lit("a"), Num(1))]);
            PythonEqual(v, w) && Canonicalize(v) != Canonicalize(w) && |Canonicalize(v)| != |Canonicalize(w)|
  {
    var p, q := [Member(Lit("a"), Bool(true))], [Member(Lit("a"), Num(1))];
    assert p[0].key == q[0].key && HasKey(p, Lit("a")) && HasKey(q, Lit("a"));
    assert PythonEqual(p[0].value, q[0].value);
    assert NormalizeDict(p) == p && NormalizeDict(q) == q;
    assert |Dumps(Bool(true))| == 4 && |Dumps(Num(1))| == 1;
  }

  /** Why cleanliness is needed: a split pair and the character it encodes print alike. */
  lemma SplitPairCollides()
    ensures var split, whole := Str([0xD83D, 0xDE00]), Str([0x1_F600]);
            split != whole && Canonicalize(split) == Canonicalize(whole)
  {
    var split, whole: Text := [0xD83D, 0xDE00], [0x1_F600];
    assert HighHalf(0x1_F600) == 0xD83D && LowHalf(0x1_F600) == 0xDE00;
    assert split[1..] == [0xDE00] && split[1..][1..] == [] && whole[1..] == [];
    assert EscapeAll(split) == UnitEscape(0xD83D) + UnitEscape(0xDE00);
    assert EscapeAll(whole) == UnitEscape(0xD83D) + UnitEscape(0xDE00);
  }

  // ----- everything read is clean -----

  lemma ReadCharLow(s: string)
    requires s != "" && ReadChar(s).Some? && Low(ReadChar(s).value.0)
    ensures LowUnit(ReadUnit(s))
  {
  }

  lemma ReadCharLoneHigh(s: string)
    requires s != "" && ReadChar(s).Some? && High(ReadChar(s).value.0)
    ensures ReadChar(s).value.1 == 6 && !LowUnit(ReadUnit(s[6..]))
  {
  }

  lemma {:induction false} ReadCharsPairFree(s: string)
    requires ReadChars(s).Some?
    ensures PairFree(ReadChars(s).value.0)
    ensures var t := ReadChars(s).value.0; t != [] && Low(t[0]) ==> LowUnit(ReadUnit(s))
  {
    if s[0] != '"' {
      var cn := ReadChar(s).value;
      var t := ReadChars(s[cn.1..]).value.0;
      ReadCharsPairFree(s[cn.1..]);
      if Low(cn.0) {
        ReadCharLow(s);
      }
      if High(cn.0) {
        ReadCharLoneHigh(s);
      }
      var r := [cn.0] + t;
      forall i | 0 <= i < |r| - 1
        ensures !(High(r[i]) && Low(r[i + 1]))
      {
        if i > 0 {
          assert r[i] == t[i - 1] && r[i + 1] == t[i];
        }
      }
    }
  }

  /** No value obtained by reading JSON holds a split surrogate pair. */
  lemma {:induction false} ReadValueClean(s: string)
    requires ReadValue(s).Some?
    ensures Clean(ReadValue(s).value.0)
    decreases |s|, 0
  {
    if s[0] == '"' {
      ReadCharsPairFree(s[1..]);
    } else if s[0] == '[' && !(|s| >= 2 && s[1] == ']') {
      ReadItemsClean(s[1..]);
    } else if s[0] == '{' && !(|s| >= 2 && s[1] == '}') {
      ReadMembersClean(s[1..]);
    }
  }

  lemma {:induction false} ReadItemsClean(s: string)
    requires ReadItems(s).Some?
    ensures forall i :: 0 <= i < |ReadItems(s).value.0| ==> Clean(ReadItems(s).value.0[i])
    decreases |s|, 1
  {
    ReadValueClean(s);
    var rest := ReadValue(s).value.1;
    if rest[0] == ',' {
      ReadItemsClean(rest[1..]);
    }
  }

  lemma {:induction false} ReadMembersClean(s: string)
    requires ReadMembers(s).Some?
    ensures CleanDict(ReadMembers(s).value.0)
    decreases |s|, 1
  {
    ReadCharsPairFree(s[1..]);
    var afterKey := ReadChars(s[1..]).value.1;
    ReadValueClean(afterKey[1..]);
    var rest := ReadValue(afterKey[1..]).value.1;
    if rest[0] == ',' {
      ReadMembersClean(rest[1..]);
    }
  }
}
