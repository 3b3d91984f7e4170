/** Python strings as the service sees them, and the order `sorted` puts them in. */
module Texts {

  /** One element of a Python `str`: any code point, lone surrogates included. */
  type CodePoint = n: int | 0 <= n < 0x11_0000

  type Text = seq<CodePoint>

  /** The text of an ASCII literal. */
  function Lit(s: string): (t: Text)
    ensures |t| == |s|
    ensures forall i :: 0 <= i < |s| ==> t[i] == s[i] as int
  {
    seq(|s|, i requires 0 <= i < |s| => s[i] as int)
  }

  /** Python's `a <= b` on strings: lexicographic by code point. */
  predicate AtMost(a: Text, b: Text) {
    || a == []
    || (&& b != []
        && (|| a[0] < b[0]
            || (a[0] == b[0] && AtMost(a[1..], b[1..]))))
  }

  /** `a` comes before `b`: it is a proper beginning of `b`, or has the smaller code point where
      the two first differ. */
  ghost predicate Before(a: Text, b: Text) {
    || a < b
    || exists i :: 0 <= i < |a| && i < |b| && a[..i] == b[..i] && a[i] < b[i]
  }

  lemma {:induction false} AtMostIsLexicographic(a: Text, b: Text)
    ensures AtMost(a, b) <==> a == b || Before(a, b)
  {
    if a == [] {
      assert b != [] ==> a < b;
    } else if b != [] && a[0] == b[0] {
      AtMostIsLexicographic(a[1..], b[1..]);
      BeforeTail(a, b);
      assert a == [a[0]] + a[1..] && b == [b[0]] + b[1..];
    } else if b != [] {
      assert a[0] < b[0] ==> a[..0] == b[..0];
      assert forall i :: 0 < i < |a| && i < |b| ==> a[..i][0] != b[..i][0];
    }
  }

  lemma BeforeTail(a: Text, b: Text)
    requires a != [] && b != [] && a[0] == b[0]
    ensures Before(a, b) <==> Before(a[1..], b[1..])
  {
    var x, y := a[1..], b[1..];
    assert a == [a[0]] + x && b == [b[0]] + y;
    if i :| 0 <= i < |a| && i < |b| && a[..i] == b[..i] && a[i] < b[i] {
      assert x[..i - 1] == a[..i][1..] && y[..i - 1] == b[..i][1..];
      assert x[i - 1] < y[i - 1];
    }
    if i :| 0 <= i < |x| && i < |y| && x[..i] == y[..i] && x[i] < y[i] {
      assert a[..i + 1] == [a[0]] + x[..i] && b[..i + 1] == [b[0]] + y[..i];
      assert a[i + 1] < b[i + 1];
    }
  }

  lemma AtMostTotal(a: Text, b: Text)
    ensures AtMost(a, b) || AtMost(b, a)
  {
  }

  lemma AtMostAntisymmetric(a: Text, b: Text)
    requires AtMost(a, b) && AtMost(b, a)
    ensures a == b
  {
    if a != [] {
      AtMostAntisymmetric(a[1..], b[1..]);
      assert a == [a[0]] + a[1..] && b == [b[0]] + b[1..];
    }
  }

  lemma AtMostReflexive(a: Text)
    ensures AtMost(a, a)
  {
  }

  lemma AtMostTransitive(a: Text, b: Text, c: Text)
    requires AtMost(a, b) && AtMost(b, c)
    ensures AtMost(a, c)
  {
    if a != [] && a[0] == b[0] == c[0] {
      AtMostTransitive(a[1..], b[1..], c[1..]);
    }
  }

  predicate StrictlySorted(ts: seq<Text>) {
    forall i, j :: 0 <= i < j < |ts| ==> AtMost(ts[i], ts[j]) && ts[i] != ts[j]
  }

  /** `sorted(set(ts) | {t})` for a list `ts` that is already sorted without duplicates. */
  function InsertUnique(t: Text, ts: seq<Text>): (r: seq<Text>)
    ensures forall x :: x in r <==> x == t || x in ts
  {
    if ts == [] then [t]
    else if t == ts[0] then ts
    else if AtMost(t, ts[0]) then [t] + ts
    else
      assert ts == [ts[0]] + ts[1..];
      [ts[0]] + InsertUnique(t, ts[1..])
  }

  /** `sorted(set(ts))`. */
  function SortUnique(ts: seq<Text>): (r: seq<Text>)
    ensures forall x :: x in r <==> x in ts
  {
    if ts == [] then []
    else
      assert ts == [ts[0]] + ts[1..];
      InsertUnique(ts[0], SortUnique(ts[1..]))
  }

  lemma InsertUniqueSorted(t: Text, ts: seq<Text>)
    requires StrictlySorted(ts)
    ensures StrictlySorted(InsertUnique(t, ts))
  {
    if ts == [] || t == ts[0] {
    } else if AtMost(t, ts[0]) {
      var r := [t] + ts;
      forall j | 0 < j < |r|
        ensures AtMost(t, r[j]) && t != r[j]
      {
        if j > 1 {
          AtMostTransitive(t, ts[0], ts[j - 1]);
          if t == ts[j - 1] {
            AtMostAntisymmetric(t, ts[0]);
          }
        }
      }
    } else {
      AtMostTotal(t, ts[0]);
      var rest := InsertUnique(t, ts[1..]);
      InsertUniqueSorted(t, ts[1..]);
      forall j | 0 <= j < |rest|
        ensures AtMost(ts[0], rest[j]) && ts[0] != rest[j]
      {
        assert rest[j] in rest;
        if rest[j] != t {
          var k :| 0 <= k < |ts[1..]| && ts[1..][k] == rest[j];
          assert ts[k + 1] == rest[j];
        }
      }
    }
  }

  lemma {:induction false} SortUniqueAscends(ts: seq<Text>)
    ensures StrictlySorted(SortUnique(ts))
  {
    if ts != [] {
      SortUniqueAscends(ts[1..]);
      InsertUniqueSorted(ts[0], SortUnique(ts[1..]));
    }
  }

  /** `sorted(set(ts))` lists the elements of `ts`, each one before the next. */
  lemma SortUniqueSorted(ts: seq<Text>)
    ensures var r := SortUnique(ts);
            && (forall x :: x in r <==> x in ts)
            && (forall i, j :: 0 <= i < j < |r| ==> r[i] != r[j] && Before(r[i], r[j]))
  {
    SortUniqueAscends(ts);
    var r := SortUnique(ts);
    forall i, j | 0 <= i < j < |r|
      ensures r[i] != r[j] && Before(r[i], r[j])
    {
      AtMostIsLexicographic(r[i], r[j]);
    }
  }

  lemma SetOfLast(front: seq<Text>, last: Text)
    ensures (set t | t in front + [last]) == (set t | t in front) + {last}
  {
  }

  /** A strictly sorted list has as many elements as its set of elements. */
  lemma StrictlySortedSize(ts: seq<Text>)
    requires StrictlySorted(ts)
    ensures |set t | t in ts| == |ts|
  {
    if ts != [] {
      var front, last := ts[..|ts| - 1], ts[|ts| - 1];
      StrictlySortedSize(front);
      SetOfLast(front, last);
      assert ts == front + [last];
    }
  }
}
