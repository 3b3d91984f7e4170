/** A reader for compact JSON, and what it makes of every printed value.

    A high surrogate followed by a low one is printed exactly like the character the two
    encode, and `json.loads` reads the character. So reading back what was printed yields the
    value with such pairs joined: the value itself if and only if it holds no such pair. */
module JsonReader {
  import opened Texts
  import opened Jsons
  import opened Wrappers
  import opened JsonPrinter

  // ----- surrogate pairs -----

  predicate High(c: CodePoint) { 0xD800 <= c < 0xDC00 }

  predicate Low(c: CodePoint) { 0xDC00 <= c < 0xE000 }

  function Combine(h: nat, l: nat): (c: CodePoint)
    requires 0xD800 <= h < 0xDC00 && 0xDC00 <= l < 0xE000
    ensures c >= 0x1_0000
  {
    0x1_0000 + (h - 0xD800) * 0x400 + (l - 0xDC00)
  }

  predicate SplitPairFirst(t: Text) {
    |t| >= 2 && High(t[0]) && Low(t[1])
  }

  /** The text with every split surrogate pair replaced by the character it encodes. */
  function Join(t: Text): Text {
    if t == [] then []
    else if SplitPairFirst(t) then [Combine(t[0], t[1])] + Join(t[2..])
    else [t[0]] + Join(t[1..])
  }

  ghost predicate PairFree(t: Text) {
    forall i :: 0 <= i < |t| - 1 ==> !(High(t[i]) && Low(t[i + 1]))
  }

  lemma {:induction false} JoinShrinks(t: Text)
    ensures |Join(t)| <= |t|
    ensures |Join(t)| == |t| <==> PairFree(t)
    ensures PairFree(t) ==> Join(t) == t
  {
    if t == [] {
    } else if SplitPairFirst(t) {
      JoinShrinks(t[2..]);
    } else {
      JoinShrinks(t[1..]);
      assert t == [t[0]] + t[1..];
      assert PairFree(t) <==> PairFree(t[1..]) by {
        if PairFree(t[1..]) {
          forall i | 0 <= i < |t| - 1
            ensures !(High(t[i]) && Low(t[i + 1]))
          {
            if i > 0 {
              assert t[1..][i - 1] == t[i] && t[1..][i] == t[i + 1];
            }
          }
        }
      }
    }
  }

  /** Joining leaves no split pair behind. */
  lemma {:induction false} JoinPairFree(t: Text)
    ensures PairFree(Join(t))
    ensures t != [] && !Low(t[0]) ==> !Low(Join(t)[0])
  {
    if t == [] {
    } else if SplitPairFirst(t) {
      JoinPairFree(t[2..]);
    } else {
      JoinPairFree(t[1..]);
    }
  }

  // ----- the same for JSON values -----

  function JoinAll(j: Json): Json
    decreases j, 0
  {
    match j
    case Str(s) => Str(Join(s))
    case Arr(items) => Arr(JoinItems(items))
    case Obj(members) => Obj(JoinMembers(members))
    case _ => j
  }

  function JoinItems(items: seq<Json>): (r: seq<Json>)
    ensures |r| == |items|
    ensures forall i :: 0 <= i < |items| ==> r[i] == JoinAll(items[i])
    decreases items, 1
  {
    if items == [] then [] else [JoinAll(items[0])] + JoinItems(items[1..])
  }

  function JoinMembers(d: Dict): (r: Dict)
    ensures |r| == |d|
    ensures forall i :: 0 <= i < |d| ==> r[i] == Member(Join(d[i].key), JoinAll(d[i].value))
    decreases d, 1
  {
    if d == [] then []
    else [Member(Join(d[0].key), JoinAll(d[0].value))] + JoinMembers(d[1..])
  }

  /** No string in the value, keys included, holds a split surrogate pair. */
  ghost predicate Clean(j: Json) {
    match j
    case Str(s) => PairFree(s)
    case Arr(items) => forall i :: 0 <= i < |items| ==> Clean(items[i])
    case Obj(members) => CleanDict(members)
    case _ => true
  }

  ghost predicate CleanDict(d: Dict) {
    forall i :: 0 <= i < |d| ==> PairFree(d[i].key) && Clean(d[i].value)
  }

  lemma {:induction false} JoinAllIsIdentity(j: Json)
    ensures JoinAll(j) == j <==> Clean(j)
  {
    match j {
      case Str(s) => JoinShrinks(s);
      case Arr(items) =>
        forall i | 0 <= i < |items|
          ensures JoinAll(items[i]) == items[i] <==> Clean(items[i])
        {
          JoinAllIsIdentity(items[i]);
        }
      case Obj(members) =>
        forall i | 0 <= i < |members|
          ensures JoinAll(members[i].value) == members[i].value <==> Clean(members[i].value)
          ensures Join(members[i].key) == members[i].key <==> PairFree(members[i].key)
        {
          JoinAllIsIdentity(members[i].value);
          JoinShrinks(members[i].key);
        }
        assert JoinMembers(members) == members <==> forall i :: 0 <= i < |members| ==>
          JoinMembers(members)[i] == members[i];
      case _ =>
    }
  }

  // ----- reading -----

  function HexValue(c: char): Option<nat> {
    if '0' <= c <= '9' then Some((c - '0') as nat)
    else if 'a' <= c <= 'f' then Some((c - 'a') as nat + 10)
    else None
  }

  /** The code unit of the `\uXXXX` escape `s` begins with, if it begins with one. */
  function ReadUnit(s: string): (r: Option<nat>)
    ensures r.Some? ==> r.value < 0x1_0000 && |s| >= 6
  {
    if |s| < 6 || s[0] != '\\' || s[1] != 'u' then None
    else
      match (HexValue(s[2]), HexValue(s[3]), HexValue(s[4]), HexValue(s[5]))
      case (Some(a), Some(b), Some(c), Some(d)) =>
        if a < 16 && b < 16 && c < 16 && d < 16 then Some(a * 0x1000 + b * 0x100 + c * 0x10 + d) else None
      case _ => None
  }

  function ReadEscaped(c: char): Option<CodePoint> {
    if c == '"' then Some(0x22)
    else if c == '\\' then Some(0x5C)
    else if c == 'n' then Some(0x0A)
    else if c == 'r' then Some(0x0D)
    else if c == 't' then Some(0x09)
    else if c == 'f' then Some(0x0C)
    else if c == 'b' then Some(0x08)
    else None
  }

  /** One character of a string literal and how much of the input it took. */
  function ReadChar(s: string): (r: Option<(CodePoint, nat)>)
    requires s != ""
    ensures r.Some? ==> 0 < r.value.1 <= |s|
  {
    if s[0] != '\\' then Some((s[0] as int, 1))
    else if |s| < 2 then None
    else if s[1] == 'u' then
      match ReadUnit(s)
      case None => None
      case Some(u) =>
        var next := ReadUnit(s[6..]);
        if 0xD800 <= u < 0xDC00 && next.Some? && 0xDC00 <= next.value < 0xE000
        then Some((Combine(u, next.value), 12))
        else Some((u, 6))
    else
      match ReadEscaped(s[1])
      case None => None
      case Some(c) => Some((c, 2))
  }

  /** The rest of a string literal, up to its closing quote. */
  function ReadChars(s: string): (r: Option<(Text, string)>)
    ensures r.Some? ==> |r.value.1| < |s|
  {
    if s == "" then None
    else if s[0] == '"' then Some(([], s[1..]))
    else
      match ReadChar(s)
      case None => None
      case Some(cn) =>
        match ReadChars(s[cn.1..])
        case None => None
        case Some(tr) => Some(([cn.0] + tr.0, tr.1))
  }

  predicate IsDigit(c: char) { '0' <= c <= '9' }

  function DigitCount(s: string): (n: nat)
    ensures n <= |s|
    ensures forall i :: 0 <= i < n ==> IsDigit(s[i])
  {
    if s == "" || !IsDigit(s[0]) then 0 else 1 + DigitCount(s[1..])
  }

  function DigitsValue(s: string): nat
    requires forall i :: 0 <= i < |s| ==> IsDigit(s[i])
  {
    if s == "" then 0
    else
      assert IsDigit(s[|s| - 1]);
      10 * DigitsValue(s[..|s| - 1]) + (s[|s| - 1] - '0') as nat
  }

  function ReadNat(s: string): (r: Option<(nat, string)>)
    ensures r.Some? ==> |r.value.1| < |s|
  {
    var n := DigitCount(s);
    if n == 0 then None else Some((DigitsValue(s[..n]), s[n..]))
  }

  function ReadNum(s: string): (r: Option<(int, string)>)
    ensures r.Some? ==> |r.value.1| < |s|
  {
    if s != "" && s[0] == '-' then
      match ReadNat(s[1..])
      case None => None
      case Some(nr) => var n: int := 0 - nr.0; Some((n, nr.1))
    else
      match ReadNat(s)
      case None => None
      case Some(nr) => var n: int := nr.0; Some((n, nr.1))
  }

  function ReadValue(s: string): (r: Option<(Json, string)>)
    ensures r.Some? ==> |r.value.1| < |s|
    decreases |s|, 0
  {
    if s == "" then None
    else if s[0] == 'n' then
      if "null" <= s then Some((Null, s[4..])) else None
    else if s[0] == 't' then
      if "true" <= s then Some((Bool(true), s[4..])) else None
    else if s[0] == 'f' then
      if "false" <= s then Some((Bool(false), s[5..])) else None
    else if s[0] == '"' then
      match ReadChars(s[1..])
      case None => None
      case Some(tr) => Some((Str(tr.0), tr.1))
    else if s[0] == '[' then
      if |s| >= 2 && s[1] == ']' then Some((Arr([]), s[2..]))
      else
        match ReadItems(s[1..])
        case None => None
        case Some(ir) => Some((Arr(ir.0), ir.1))
    else if s[0] == '{' then
      if |s| >= 2 && s[1] == '}' then Some((Obj([]), s[2..]))
      else
        match ReadMembers(s[1..])
        case None => None
        case Some(mr) => Some((Obj(mr.0), mr.1))
    else
      match ReadNum(s)
      case None => None
      case Some(nr) => Some((Num(nr.0), nr.1))
  }

  /** Values separated by commas, up to the closing bracket. */
  function ReadItems(s: string): (r: Option<(seq<Json>, string)>)
    ensures r.Some? ==> |r.value.1| < |s|
    decreases |s|, 1
  {
    match ReadValue(s)
    case None => None
    case Some(vr) =>
      if vr.1 == "" then None
      else if vr.1[0] == ']' then Some(([vr.0], vr.1[1..]))
      else if vr.1[0] != ',' then None
      else
        match ReadItems(vr.1[1..])
        case None => None
        case Some(ir) => Some(([vr.0] + ir.0, ir.1))
  }

  /** `"key":value` entries separated by commas, up to the closing brace. */
  function ReadMembers(s: string): (r: Option<(Dict, string)>)
    ensures r.Some? ==> |r.value.1| < |s|
    decreases |s|, 1
  {
    if s == "" || s[0] != '"' then None
    else
      match ReadChars(s[1..])
      case None => None
      case Some(kr) =>
        if kr.1 == "" || kr.1[0] != ':' then None
        else
          match ReadValue(kr.1[1..])
          case None => None
          case Some(vr) =>
            var m := Member(kr.0, vr.0);
            if vr.1 == "" then None
            else if vr.1[0] == '}' then Some(([m], vr.1[1..]))
            else if vr.1[0] != ',' then None
            else
              match ReadMembers(vr.1[1..])
              case None => None
              case Some(mr) => Some(([m] + mr.0, mr.1))
  }

  /** A whole document. */
  function Read(s: string): Option<Json> {
    match ReadValue(s)
    case None => None
    case Some(vr) => if vr.1 == "" then Some(vr.0) else None
  }

  // ----- reading back what was printed -----

  lemma HexDigitValue(n: nat)
    requires n < 16
    ensures HexValue(HexDigit(n)) == Some(n)
  {
  }

  lemma HexPlaces(u: nat)
    requires u < 0x1_0000
    ensures u / 0x1000 < 16
    ensures u == u / 0x1000 * 0x1000 + u / 0x100 % 16 * 0x100 + u / 0x10 % 16 * 0x10 + u % 16
  {
  }

  lemma ReadUnitEscape(u: nat, tail: string)
    requires u < 0x1_0000
    ensures ReadUnit(UnitEscape(u) + tail) == Some(u)
  {
    HexPlaces(u);
    HexDigitValue(u / 0x1000);
    HexDigitValue(u / 0x100 % 16);
    HexDigitValue(u / 0x10 % 16);
    HexDigitValue(u % 16);
  }

  predicate LowUnit(u: Option<nat>) {
    u.Some? && 0xDC00 <= u.value < 0xE000
  }

  /** Only a low surrogate is printed as a low unit first. */
  lemma EscapeStartsLow(c: CodePoint, tail: string)
    ensures LowUnit(ReadUnit(Escape(c) + tail)) <==> Low(c)
    ensures Low(c) ==> ReadUnit(Escape(c) + tail) == Some(c) && |Escape(c)| == 6
  {
    if ShortEscape(c).Some? || Plain(c) {
      assert (Escape(c) + tail)[0] == Escape(c)[0];
      if ShortEscape(c).Some? {
        assert (Escape(c) + tail)[1] == Escape(c)[1] != 'u';
      }
    } else if c < 0x1_0000 {
      ReadUnitEscape(c, tail);
    } else {
      ReadUnitEscape(HighHalf(c), UnitEscape(LowHalf(c)) + tail);
      assert Escape(c) + tail == UnitEscape(HighHalf(c)) + (UnitEscape(LowHalf(c)) + tail);
    }
  }

  lemma ReadCharAstral(c: CodePoint, tail: string)
    requires c >= 0x1_0000
    ensures |Escape(c)| == 12
    ensures ReadChar(Escape(c) + tail) == Some((c, 12))
  {
    var h, l := HighHalf(c), LowHalf(c);
    var s := Escape(c) + tail;
    assert s == UnitEscape(h) + (UnitEscape(l) + tail);
    assert s[6..] == UnitEscape(l) + tail;
    ReadUnitEscape(h, UnitEscape(l) + tail);
    ReadUnitEscape(l, tail);
    assert Combine(h, l) == c;
  }

  lemma ReadCharSimple(c: CodePoint, tail: string)
    requires c < 0x1_0000 && !High(c)
    ensures ReadChar(Escape(c) + tail) == Some((c, |Escape(c)|))
  {
    var s := Escape(c) + tail;
    if ShortEscape(c).Some? {
      assert s[0] == '\\' && s[1] == ShortEscape(c).value;
    } else if Plain(c) {
      assert s[0] == c as char;
    } else {
      ReadUnitEscape(c, tail);
    }
  }

  lemma ReadCharHigh(c: CodePoint, tail: string)
    requires High(c)
    ensures |Escape(c)| == 6
    ensures ReadChar(Escape(c) + tail) ==
              if LowUnit(ReadUnit(tail)) then Some((Combine(c, ReadUnit(tail).value), 12)) else Some((c, 6))
  {
    var s := Escape(c) + tail;
    ReadUnitEscape(c, tail);
    assert s[6..] == tail;
  }

  lemma EscapeNoQuote(c: CodePoint, tail: string)
    ensures (Escape(c) + tail)[0] != '"'
  {
  }

  /** The text left to read after the opening quote of a printed string. */
  function AfterQuote(t: Text, rest: string): string {
    EscapeAll(t) + "\"" + rest
  }

  lemma AfterQuoteStep(t: Text, rest: string)
    requires t != []
    ensures AfterQuote(t, rest) == Escape(t[0]) + AfterQuote(t[1..], rest)
  {
  }

  lemma ReadCharsStep(s: string, c: CodePoint, n: nat, t: Text, rest: string)
    requires s != "" && s[0] != '"' && ReadChar(s) == Some((c, n))
    requires ReadChars(s[n..]) == Some((t, rest))
    ensures ReadChars(s) == Some(([c] + t, rest))
  {
  }

  /** A high surrogate that nothing pairs with is not followed by a printed low one. */
  lemma LoneHighTail(t: Text, rest: string)
    requires t == [] || !Low(t[0])
    ensures !LowUnit(ReadUnit(AfterQuote(t, rest)))
  {
    if t == [] {
      assert AfterQuote(t, rest)[0] == '"';
    } else {
      AfterQuoteStep(t, rest);
      EscapeStartsLow(t[0], AfterQuote(t[1..], rest));
    }
  }

  lemma ReadOneChar(t: Text, rest: string)
    requires t != [] && !SplitPairFirst(t)
    ensures ReadChar(AfterQuote(t, rest)) == Some((t[0], |Escape(t[0])|))
  {
    var tail := AfterQuote(t[1..], rest);
    AfterQuoteStep(t, rest);
    if t[0] >= 0x1_0000 {
      ReadCharAstral(t[0], tail);
    } else if High(t[0]) {
      ReadCharHigh(t[0], tail);
      LoneHighTail(t[1..], rest);
    } else {
      ReadCharSimple(t[0], tail);
    }
  }

  lemma ReadPairChar(t: Text, rest: string)
    requires SplitPairFirst(t)
    ensures ReadChar(AfterQuote(t, rest)) == Some((Combine(t[0], t[1]), 12))
    ensures |AfterQuote(t, rest)| >= 12 && AfterQuote(t, rest)[12..] == AfterQuote(t[2..], rest)
  {
    var s1, s2 := AfterQuote(t[1..], rest), AfterQuote(t[2..], rest);
    AfterQuoteStep(t, rest);
    AfterQuoteStep(t[1..], rest);
    assert t[1..][1..] == t[2..];
    EscapeStartsLow(t[1], s2);
    ReadCharHigh(t[0], s1);
    DropTwo(Escape(t[0]), Escape(t[1]), s2);
  }

  lemma DropTwo(a: string, b: string, c: string)
    ensures (a + (b + c))[|a| + |b|..] == c
  {
  }

  lemma {:induction false} ReadPrintedChars(t: Text, rest: string)
    ensures ReadChars(AfterQuote(t, rest)) == Some((Join(t), rest))
  {
    var s := AfterQuote(t, rest);
    if t == [] {
      assert s == "\"" + rest;
    } else if SplitPairFirst(t) {
      ReadPairChar(t, rest);
      ReadPrintedChars(t[2..], rest);
      AfterQuoteStep(t, rest);
      EscapeNoQuote(t[0], AfterQuote(t[1..], rest));
      ReadCharsStep(s, Combine(t[0], t[1]), 12, Join(t[2..]), rest);
    } else {
      ReadOneChar(t, rest);
      ReadPrintedChars(t[1..], rest);
      AfterQuoteStep(t, rest);
      assert s[|Escape(t[0])|..] == AfterQuote(t[1..], rest);
      EscapeNoQuote(t[0], AfterQuote(t[1..], rest));
      ReadCharsStep(s, t[0], |Escape(t[0])|, Join(t[1..]), rest);
    }
  }

  /** Where a number may stop. */
  predicate NoDigitFirst(s: string) {
    s == "" || !IsDigit(s[0])
  }

  lemma {:induction false} DigitsAreDigits(n: nat)
    ensures forall i :: 0 <= i < |Digits(n)| ==> IsDigit(Digits(n)[i])
    ensures DigitsValue(Digits(n)) == n
  {
    if n >= 10 {
      DigitsAreDigits(n / 10);
      assert Digits(n)[..|Digits(n)| - 1] == Digits(n / 10);
    }
  }

  lemma {:induction false} DigitCountPrefix(ds: string, rest: string)
    requires forall i :: 0 <= i < |ds| ==> IsDigit(ds[i])
    requires NoDigitFirst(rest)
    ensures DigitCount(ds + rest) == |ds|
  {
    if ds == "" {
      assert ds + rest == rest;
    } else {
      assert (ds + rest)[1..] == ds[1..] + rest;
      DigitCountPrefix(ds[1..], rest);
    }
  }

  lemma ReadDigits(n: nat, rest: string)
    requires NoDigitFirst(rest)
    ensures ReadNat(Digits(n) + rest) == Some((n, rest))
  {
    DigitsAreDigits(n);
    DigitCountPrefix(Digits(n), rest);
    assert (Digits(n) + rest)[..|Digits(n)|] == Digits(n);
    assert (Digits(n) + rest)[|Digits(n)|..] == rest;
  }

  lemma ReadNegative(n: nat, rest: string)
    requires NoDigitFirst(rest)
    ensures ReadNum("-" + Digits(n) + rest) == Some((0 - n, rest))
  {
    ReadDigits(n, rest);
    assert ("-" + Digits(n) + rest)[1..] == Digits(n) + rest;
  }

  lemma DigitsStart(n: nat)
    ensures IsDigit(Digits(n)[0])
  {
    DigitsAreDigits(n);
  }

  lemma ReadDecimal(n: int, rest: string)
    requires NoDigitFirst(rest)
    ensures ReadNum(Decimal(n) + rest) == Some((n, rest))
  {
    if n < 0 {
      ReadNegative(-n, rest);
    } else {
      DigitsStart(n);
      ReadDigits(n, rest);
      assert (Digits(n) + rest)[0] == Digits(n)[0];
    }
  }

  lemma DecimalStart(n: int)
    ensures IsDigit(Decimal(n)[0]) || Decimal(n)[0] == '-'
  {
    if n >= 0 {
      DigitsStart(n);
    }
  }

  /** No printed value starts like the end of a list or dict. */
  lemma DumpsStart(j: Json)
    ensures Dumps(j) != "" && Dumps(j)[0] != ']' && Dumps(j)[0] != '}'
  {
    if j.Num? {
      DecimalStart(j.n);
    }
  }

  lemma ReadPrintedWord(j: Json, rest: string)
    requires j.Null? || j.Bool?
    ensures ReadValue(Dumps(j) + rest) == Some((j, rest))
  {
    var w := Dumps(j);
    assert (w + rest)[..|w|] == w && (w + rest)[|w|..] == rest;
    assert w <= w + rest && (w + rest)[0] == w[0];
  }

  lemma ReadPrintedNum(n: int, rest: string)
    requires NoDigitFirst(rest)
    ensures ReadValue(Decimal(n) + rest) == Some((Num(n), rest))
  {
    DecimalStart(n);
    ReadDecimal(n, rest);
    assert (Decimal(n) + rest)[0] == Decimal(n)[0];
  }

  lemma ReadPrintedStr(t: Text, rest: string)
    ensures ReadValue(Quote(t) + rest) == Some((Str(Join(t)), rest))
  {
    ReadPrintedChars(t, rest);
    assert Quote(t) + rest == ['"'] + AfterQuote(t, rest);
    ReadStr(AfterQuote(t, rest), Join(t), rest);
  }

  lemma ReadStr(s: string, t: Text, rest: string)
    requires ReadChars(s) == Some((t, rest))
    ensures ReadValue(['"'] + s) == Some((Str(t), rest))
  {
    assert (['"'] + s)[1..] == s;
  }

  lemma ReadList(s: string, items: seq<Json>, rest: string)
    requires s != "" && s[0] != ']' && ReadItems(s) == Some((items, rest))
    ensures ReadValue(['['] + s) == Some((Arr(items), rest))
  {
    assert (['['] + s)[1..] == s;
  }

  lemma ReadDict(s: string, members: Dict, rest: string)
    requires s != "" && s[0] != '}' && ReadMembers(s) == Some((members, rest))
    ensures ReadValue(['{'] + s) == Some((Obj(members), rest))
  {
    assert (['{'] + s)[1..] == s;
  }

  lemma ReadEmpty(rest: string)
    ensures ReadValue("[]" + rest) == Some((Arr([]), rest))
    ensures ReadValue("{}" + rest) == Some((Obj([]), rest))
  {
    assert ("[]" + rest)[2..] == rest && ("{}" + rest)[2..] == rest;
  }

  lemma {:induction false} ReadPrinted(j: Json, rest: string)
    requires NoDigitFirst(rest)
    ensures ReadValue(Dumps(j) + rest) == Some((JoinAll(j), rest))
    decreases j, 0
  {
    match j {
      case Null => ReadPrintedWord(j, rest);
      case Bool(b) => ReadPrintedWord(j, rest);
      case Num(n) => ReadPrintedNum(n, rest);
      case Str(t) => ReadPrintedStr(t, rest);
      case Arr(items) =>
        if items == [] {
          ReadEmpty(rest);
        } else {
          ReadPrintedList(items, rest);
        }
      case Obj(members) =>
        if members == [] {
          ReadEmpty(rest);
        } else {
          ReadPrintedDict(members, rest);
        }
    }
  }

  lemma {:induction false} ReadPrintedList(items: seq<Json>, rest: string)
    requires items != []
    ensures ReadValue("[" + DumpsItems(items) + "]" + rest) == Some((Arr(JoinItems(items)), rest))
    decreases items, 2
  {
    var s := DumpsItems(items) + "]" + rest;
    ReadPrintedItems(items, rest);
    DumpsStart(items[0]);
    assert s[0] == Dumps(items[0])[0];
    ReadList(s, JoinItems(items), rest);
    assert "[" + DumpsItems(items) + "]" + rest == ['['] + s;
  }

  lemma {:induction false} ReadPrintedDict(d: Dict, rest: string)
    requires d != []
    ensures ReadValue("{" + DumpsMembers(d) + "}" + rest) == Some((Obj(JoinMembers(d)), rest))
    decreases d, 2
  {
    var s := DumpsMembers(d) + "}" + rest;
    ReadPrintedMembers(d, rest);
    assert s[0] == '"';
    ReadDict(s, JoinMembers(d), rest);
    assert "{" + DumpsMembers(d) + "}" + rest == ['{'] + s;
  }

  lemma ReadLastItem(s: string, v: Json, rest: string)
    requires ReadValue(s) == Some((v, [']'] + rest))
    ensures ReadItems(s) == Some(([v], rest))
  {
    assert ([']'] + rest)[1..] == rest;
  }

  lemma ReadNextItem(s: string, v: Json, s': string, items: seq<Json>, rest: string)
    requires ReadValue(s) == Some((v, [','] + s'))
    requires ReadItems(s') == Some((items, rest))
    ensures ReadItems(s) == Some(([v] + items, rest))
  {
    assert ([','] + s')[1..] == s';
  }

  lemma {:induction false} ReadPrintedItems(items: seq<Json>, rest: string)
    requires items != []
    ensures ReadItems(DumpsItems(items) + "]" + rest) == Some((JoinItems(items), rest))
    decreases items, 1
  {
    var s := DumpsItems(items) + "]" + rest;
    if |items| == 1 {
      ReadPrinted(items[0], [']'] + rest);
      assert s == Dumps(items[0]) + ([']'] + rest);
      ReadLastItem(s, JoinAll(items[0]), rest);
      assert JoinItems(items) == [JoinAll(items[0])];
    } else {
      var s' := DumpsItems(items[1..]) + "]" + rest;
      ReadPrinted(items[0], [','] + s');
      assert s == Dumps(items[0]) + ([','] + s');
      ReadPrintedItems(items[1..], rest);
      ReadNextItem(s, JoinAll(items[0]), s', JoinItems(items[1..]), rest);
    }
  }

  lemma ReadEntry(s: string, k: Text, v: Json, s1: string, s2: string)
    requires ReadChars(s) == Some((k, [':'] + s1)) && ReadValue(s1) == Some((v, s2))
    ensures forall rest :: s2 == ['}'] + rest ==> ReadMembers(['"'] + s) == Some(([Member(k, v)], rest))
    ensures forall s', d, rest :: s2 == [','] + s' && ReadMembers(s') == Some((d, rest)) ==>
              ReadMembers(['"'] + s) == Some(([Member(k, v)] + d, rest))
  {
    assert (['"'] + s)[1..] == s && ([':'] + s1)[1..] == s1;
    forall rest | s2 == ['}'] + rest
      ensures ReadMembers(['"'] + s) == Some(([Member(k, v)], rest))
    {
      assert s2[1..] == rest;
    }
    forall s', d, rest | s2 == [','] + s' && ReadMembers(s') == Some((d, rest))
      ensures ReadMembers(['"'] + s) == Some(([Member(k, v)] + d, rest))
    {
      assert s2[1..] == s';
    }
  }

  lemma DumpsMembersText(d: Dict, rest: string, tail: string)
    requires d != []
    requires tail == if |d| == 1 then ['}'] + rest else [','] + (DumpsMembers(d[1..]) + "}" + rest)
    ensures DumpsMembers(d) + "}" + rest
            == ['"'] + AfterQuote(d[0].key, [':'] + (Dumps(d[0].value) + tail))
  {
    var e, v := EscapeAll(d[0].key), Dumps(d[0].value);
    var more := if |d| == 1 then "" else "," + DumpsMembers(d[1..]);
    EntryText(e, v, more, "}" + rest);
    if |d| == 1 {
      assert more + ("}" + rest) == tail;
    } else {
      MoreText(DumpsMembers(d[1..]), rest);
    }
    CloseText(DumpsMembers(d), rest);
  }

  lemma CloseText(s: string, rest: string)
    ensures s + "}" + rest == s + ("}" + rest)
  {
  }

  lemma MoreText(s: string, rest: string)
    ensures "," + s + ("}" + rest) == [','] + (s + "}" + rest)
  {
  }

  lemma EntryText(e: string, v: string, more: string, end: string)
    ensures ("\"" + e + "\"") + ":" + v + more + end == ['"'] + (e + "\"" + ([':'] + (v + (more + end))))
  {
    Regroup("\"", e, "\"", ":", v, more + end);
  }

  lemma Regroup(a: string, b: string, c: string, d: string, e: string, f: string)
    ensures (a + b + c) + d + e + f == a + (b + c + (d + (e + f)))
  {
    assert (a + b + c) + d + e + f == (a + b + c) + (d + (e + f));
    assert (a + b + c) + (d + (e + f)) == a + (b + c + (d + (e + f)));
  }

  lemma {:induction false} ReadPrintedMembers(d: Dict, rest: string)
    requires d != []
    ensures ReadMembers(DumpsMembers(d) + "}" + rest) == Some((JoinMembers(d), rest))
    decreases d, 1
  {
    var s := DumpsMembers(d) + "}" + rest;
    var s' := if |d| == 1 then "" else DumpsMembers(d[1..]) + "}" + rest;
    var tail := if |d| == 1 then ['}'] + rest else [','] + s';
    var value := Dumps(d[0].value) + tail;
    DumpsMembersText(d, rest, tail);
    ReadPrintedChars(d[0].key, [':'] + value);
    ReadPrinted(d[0].value, tail);
    ReadEntry(AfterQuote(d[0].key, [':'] + value), Join(d[0].key), JoinAll(d[0].value), value, tail);
    if |d| == 1 {
      assert JoinMembers(d) == [Member(Join(d[0].key), JoinAll(d[0].value))];
    } else {
      ReadPrintedMembers(d[1..], rest);
    }
  }

  /** Reading a printed value gives it back with split surrogate pairs joined. */
  lemma ReadDumps(j: Json)
    ensures Read(Dumps(j)) == Some(JoinAll(j))
  {
    ReadPrinted(j, "");
    assert Dumps(j) + "" == Dumps(j);
  }
}
