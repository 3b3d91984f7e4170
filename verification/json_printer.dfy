/** `json.dumps(..., separators=(",", ":"), ensure_ascii=True)`, with and without `sort_keys`. */
module JsonPrinter {
  import opened Texts
  import opened Jsons
  import opened Wrappers

  function HexDigit(n: nat): char
    requires n < 16
  {
    if n < 10 then '0' + n as char else 'a' + (n - 10) as char
  }

  /** `\uXXXX` for one UTF-16 code unit, lower-case hex. */
  function UnitEscape(u: nat): (r: string)
    requires u < 0x1_0000
    ensures |r| == 6
  {
    ['\\', 'u', HexDigit(u / 0x1000), HexDigit(u / 0x100 % 16), HexDigit(u / 0x10 % 16), HexDigit(u % 16)]
  }

  function HighHalf(c: CodePoint): (u: nat)
    requires c >= 0x1_0000
    ensures 0xD800 <= u < 0xDC00
  {
    0xD800 + (c - 0x1_0000) / 0x400
  }

  function LowHalf(c: CodePoint): (u: nat)
    requires c >= 0x1_0000
    ensures 0xDC00 <= u < 0xE000
  {
    0xDC00 + (c - 0x1_0000) % 0x400
  }

  predicate Plain(c: CodePoint) {
    0x20 <= c <= 0x7E
  }

  /** The letter of a two-character escape. */
  function ShortEscape(c: CodePoint): Option<char> {
    if c == 0x22 then Some('"')
    else if c == 0x5C then Some('\\')
    else if c == 0x0A then Some('n')
    else if c == 0x0D then Some('r')
    else if c == 0x09 then Some('t')
    else if c == 0x0C then Some('f')
    else if c == 0x08 then Some('b')
    else None
  }

  /** One character of a string literal: anything outside ' '..'~' leaves ASCII as an escape. */
  function Escape(c: CodePoint): (r: string)
    ensures r != ""
  {
    if ShortEscape(c).Some? then ['\\', ShortEscape(c).value]
    else if Plain(c) then [c as char]
    else if c < 0x1_0000 then UnitEscape(c)
    else UnitEscape(HighHalf(c)) + UnitEscape(LowHalf(c))
  }

  function EscapeAll(t: Text): string {
    if t == [] then "" else Escape(t[0]) + EscapeAll(t[1..])
  }

  function Quote(t: Text): string {
    "\"" + EscapeAll(t) + "\""
  }

  function Digit(n: nat): char
    requires n < 10
  {
    '0' + n as char
  }

  function Digits(n: nat): (r: string)
    ensures r != ""
  {
    if n < 10 then [Digit(n)] else Digits(n / 10) + [Digit(n % 10)]
  }

  /** `str(n)` of an `int`. */
  function Decimal(n: int): (r: string)
    ensures r != ""
  {
    if n < 0 then "-" + Digits(-n) else Digits(n)
  }

  /** The compact rendering, dict entries in insertion order. */
  function Dumps(j: Json): string
    decreases j, 0
  {
    match j
    case Null => "null"
    case Bool(b) => if b then "true" else "false"
    case Num(n) => Decimal(n)
    case Str(s) => Quote(s)
    case Arr(items) => if items == [] then "[]" else "[" + DumpsItems(items) + "]"
    case Obj(members) => if members == [] then "{}" else "{" + DumpsMembers(members) + "}"
  }

  function DumpsItems(items: seq<Json>): string
    requires items != []
    decreases items, 1
  {
    Dumps(items[0]) + (if |items| == 1 then "" else "," + DumpsItems(items[1..]))
  }

  function DumpsMembers(d: Dict): string
    requires d != []
    decreases d, 1
  {
    Quote(d[0].key) + ":" + Dumps(d[0].value) + (if |d| == 1 then "" else "," + DumpsMembers(d[1..]))
  }

  /** The same with `sort_keys=True`. Encoding it as UTF-8 adds nothing: it is ASCII. */
  function Canonicalize(j: Json): string {
    Dumps(Normalize(j))
  }

  // ----- what is printed for each character and number -----

  const HEX: string := "0123456789abcdef"

  lemma HexDigitIs(n: nat)
    requires n < 16
    ensures HexDigit(n) == HEX[n]
  {
  }

  /** One `\uXXXX` unit. */
  ghost predicate UnitForm(r: string, u: nat) {
    && u < 0x1_0000 && |r| == 6 && r[..2] == "\\u"
    && r[2] == HEX[u / 4096] && r[3] == HEX[u / 256 % 16] && r[4] == HEX[u / 16 % 16] && r[5] == HEX[u % 16]
  }

  lemma UnitEscapeForm(u: nat)
    requires u < 0x1_0000
    ensures UnitForm(UnitEscape(u), u)
  {
    HexDigitIs(u / 4096);
    HexDigitIs(u / 256 % 16);
    HexDigitIs(u / 16 % 16);
    HexDigitIs(u % 16);
  }

  /** One character is printed as itself, as a two-character escape where JSON has one, or as one or
      two `\uXXXX` units in lower-case hex: as itself exactly from ' ' to '~', quote and backslash
      excepted. */
  lemma EscapeForm(c: CodePoint)
    ensures Escape(0x22) == "\\\"" && Escape(0x5C) == "\\\\"
    ensures Escape(0x08) == "\\b" && Escape(0x09) == "\\t" && Escape(0x0A) == "\\n"
    ensures Escape(0x0C) == "\\f" && Escape(0x0D) == "\\r"
    ensures var r := Escape(c);
            if c in {0x08, 0x09, 0x0A, 0x0C, 0x0D, 0x22, 0x5C} then |r| == 2
            else if ' ' as int <= c <= '~' as int then |r| == 1 && r[0] as int == c
            else if c <= 0xFFFF then UnitForm(r, c)
            else |r| == 12 && UnitForm(r[..6], 0xD7C0 + c / 0x400) && UnitForm(r[6..], 0xDC00 + c % 0x400)
  {
    if ShortEscape(c).None? && !Plain(c) {
      if c < 0x1_0000 {
        UnitEscapeForm(c);
      } else {
        var high, low := UnitEscape(HighHalf(c)), UnitEscape(LowHalf(c));
        UnitEscapeForm(HighHalf(c));
        UnitEscapeForm(LowHalf(c));
        HalvesAre(c);
        assert (high + low)[..6] == high && (high + low)[6..] == low;
      }
    }
  }

  lemma HalvesAre(c: CodePoint)
    requires c >= 0x1_0000
    ensures HighHalf(c) == 0xD7C0 + c / 0x400 && LowHalf(c) == 0xDC00 + c % 0x400
  {
  }

  lemma {:induction false} DigitsForm(n: nat)
    ensures n > 0 ==> Digits(n)[0] != '0'
    ensures Digits(n)[0] != '-'
  {
    if n >= 10 {
      DigitsForm(n / 10);
    }
  }

  /** Numbers are printed without a leading zero, and zero without a sign. */
  lemma DecimalForm(n: int)
    ensures Decimal(0) == "0"
    ensures Decimal(n)[0] == '-' <==> n < 0
    ensures n > 0 ==> Decimal(n)[0] != '0'
    ensures n < 0 ==> |Decimal(n)| > 1 && Decimal(n)[1] != '0'
  {
    DigitsForm(if n < 0 then -n else n);
  }

  /** Printable ASCII. */
  ghost predicate Ascii(s: string) {
    forall i :: 0 <= i < |s| ==> ' ' <= s[i] <= '~'
  }

  lemma AsciiConcat(a: string, b: string)
    requires Ascii(a) && Ascii(b)
    ensures Ascii(a + b)
  {
  }

  lemma EscapeAscii(c: CodePoint)
    ensures Ascii(Escape(c))
  {
    if !ShortEscape(c).Some? && !Plain(c) && c >= 0x1_0000 {
      AsciiConcat(UnitEscape(HighHalf(c)), UnitEscape(LowHalf(c)));
    }
  }

  lemma {:induction false} EscapeAllAscii(t: Text)
    ensures Ascii(EscapeAll(t))
  {
    if t != [] {
      EscapeAscii(t[0]);
      EscapeAllAscii(t[1..]);
      AsciiConcat(Escape(t[0]), EscapeAll(t[1..]));
    }
  }

  lemma QuoteAscii(t: Text)
    ensures Ascii(Quote(t))
  {
    EscapeAllAscii(t);
    AsciiConcat("\"", EscapeAll(t));
    AsciiConcat("\"" + EscapeAll(t), "\"");
  }

  lemma {:induction false} DigitsAscii(n: nat)
    ensures Ascii(Digits(n))
  {
    if n >= 10 {
      DigitsAscii(n / 10);
    }
  }

  /** Every rendering is printable ASCII, so `.encode("utf-8")` maps it character by character. */
  lemma {:induction false} DumpsAscii(j: Json)
    ensures Ascii(Dumps(j))
    decreases j, 0
  {
    match j {
      case Num(n) => DigitsAscii(if n < 0 then -n else n);
      case Str(s) => QuoteAscii(s);
      case Arr(items) =>
        if items != [] {
          DumpsItemsAscii(items);
          AsciiConcat("[", DumpsItems(items));
        }
      case Obj(members) =>
        if members != [] {
          DumpsMembersAscii(members);
          AsciiConcat("{", DumpsMembers(members));
        }
      case _ =>
    }
  }

  lemma {:induction false} DumpsItemsAscii(items: seq<Json>)
    requires items != []
    ensures Ascii(DumpsItems(items))
    decreases items, 1
  {
    DumpsAscii(items[0]);
    if |items| > 1 {
      DumpsItemsAscii(items[1..]);
      AsciiConcat(",", DumpsItems(items[1..]));
      AsciiConcat(Dumps(items[0]), "," + DumpsItems(items[1..]));
    }
  }

  lemma {:induction false} DumpsMembersAscii(d: Dict)
    requires d != []
    ensures Ascii(DumpsMembers(d))
    decreases d, 1
  {
    QuoteAscii(d[0].key);
    DumpsAscii(d[0].value);
    var entry := Quote(d[0].key) + ":" + Dumps(d[0].value);
    AsciiConcat(Quote(d[0].key) + ":", Dumps(d[0].value));
    if |d| > 1 {
      DumpsMembersAscii(d[1..]);
      AsciiConcat(",", DumpsMembers(d[1..]));
      AsciiConcat(entry, "," + DumpsMembers(d[1..]));
    }
  }
}
