/**
  JSON texts as Python's `json.dumps(..., ensure_ascii=False, separators=(",", ":"))` prints them and
  `json.loads` reads them.  A number with a fraction or an exponent is kept as it is written.
 */
module Json {
  import opened Basics
  import opened Decimal

  /** A number with a fraction or an exponent, by its parts. */
  datatype FloatParts = FloatParts(negative: bool, whole: string, fraction: string, exponent: string)

  predicate IsWhole(s: string) {
    s != "" && AllDigits(s) && (s[0] == '0' ==> s == "0")
  }

  predicate IsFraction(s: string) {
    s == "" || (|s| >= 2 && s[0] == '.' && AllDigits(s[1..]))
  }

  predicate IsExponent(s: string) {
    s == "" || ((s[0] == 'e' || s[0] == 'E') && IsSignedDigits(s[1..]))
  }

  predicate IsSignedDigits(s: string) {
    if s != "" && (s[0] == '+' || s[0] == '-') then |s| >= 2 && AllDigits(s[1..]) else s != "" && AllDigits(s)
  }

  predicate IsFloat(f: FloatParts) {
    IsWhole(f.whole) && IsFraction(f.fraction) && IsExponent(f.exponent) && f.fraction + f.exponent != ""
  }

  type Float = f: FloatParts | IsFloat(f) witness FloatParts(false, "0", ".0", "")

  datatype Json =
    | Null
    | Bool(b: bool)
    | Num(n: int)
    | Real(f: Float)
    | NaN
    | Infinity(negative: bool)
    | Str(s: string)
    | Arr(items: seq<Json>)
    | Obj(members: seq<Member>)

  datatype Member = Member(key: string, value: Json)

  /** Keys are unique, as in a Python dictionary. */
  predicate UniqueKeys(ms: seq<Member>) {
    forall i, j :: 0 <= i < j < |ms| ==> ms[i].key != ms[j].key
  }

  predicate WellFormed(v: Json) {
    match v
    case Arr(items) => forall i :: 0 <= i < |items| ==> WellFormed(items[i])
    case Obj(ms) => UniqueKeys(ms) && forall i :: 0 <= i < |ms| ==> WellFormed(ms[i].value)
    case _ => true
  }

  // ----- Printing

  const HEX := "0123456789abcdef"

  /** The letter that stands for a character after a backslash. */
  function ShortEscape(c: char): Option<char> {
    if c == '"' || c == '\\' then Some(c)
    else if c == '\n' then Some('n')
    else if c == '\r' then Some('r')
    else if c == '\t' then Some('t')
    else if c == 8 as char then Some('b')
    else if c == 12 as char then Some('f')
    else None
  }

  function EscapeChar(c: char): (r: string)
    ensures r != ""
  {
    if ShortEscape(c).Some? then ['\\', ShortEscape(c).value]
    else if c < ' ' then ['\\', 'u', '0', '0', HEX[c as int / 16], HEX[c as int % 16]]
    else [c]
  }

  function Escape(s: string): string {
    if s == "" then "" else EscapeChar(s[0]) + Escape(s[1..])
  }

  function PrintString(s: string): string {
    "\"" + Escape(s) + "\""
  }

  function PrintNum(n: int): string {
    if n < 0 then "-" + Digits(-n) else Digits(n)
  }

  function PrintFloat(f: FloatParts): string {
    (if f.negative then "-" else "") + (f.whole + f.fraction + f.exponent)
  }

  function Print(v: Json): string {
    match v
    case Null => "null"
    case Bool(b) => if b then "true" else "false"
    case Num(n) => PrintNum(n)
    case Real(f) => PrintFloat(f)
    case NaN => "NaN"
    case Infinity(negative) => if negative then "-Infinity" else "Infinity"
    case Str(s) => PrintString(s)
    case Arr(items) => "[" + PrintItems(items) + "]"
    case Obj(ms) => "{" + PrintMembers(ms) + "}"
  }

  function PrintItems(items: seq<Json>): string {
    if items == [] then ""
    else if |items| == 1 then Print(items[0])
    else Print(items[0]) + "," + PrintItems(items[1..])
  }

  function PrintMember(m: Member): string {
    PrintString(m.key) + ":" + Print(m.value)
  }

  function PrintMembers(ms: seq<Member>): string {
    if ms == [] then ""
    else if |ms| == 1 then PrintMember(ms[0])
    else PrintMember(ms[0]) + "," + PrintMembers(ms[1..])
  }

  // ----- Reading

  /** What was read, and the text after it. */
  datatype Parsed<+T> = Parsed(value: T, rest: string)

  predicate IsJsonSpace(c: char) {
    c == ' ' || c == '\t' || c == '\n' || c == '\r'
  }

  function SkipSpace(s: string): (r: string)
    ensures |r| <= |s|
    ensures r == "" || !IsJsonSpace(r[0])
  {
    if s != "" && IsJsonSpace(s[0]) then SkipSpace(s[1..]) else s
  }

  predicate StartsWith(s: string, c: char) {
    s != "" && s[0] == c
  }

  function HexValue(c: char): Option<nat> {
    if '0' <= c <= '9' then Some(c as int - '0' as int)
    else if 'a' <= c <= 'f' then Some(c as int - 'a' as int + 10)
    else if 'A' <= c <= 'F' then Some(c as int - 'A' as int + 10)
    else None
  }

  /** What a letter stands for after a backslash. */
  function Unescape(e: char): Option<char> {
    if e == '"' || e == '\\' || e == '/' then Some(e)
    else if e == 'n' then Some('\n')
    else if e == 'r' then Some('\r')
    else if e == 't' then Some('\t')
    else if e == 'b' then Some(8 as char)
    else if e == 'f' then Some(12 as char)
    else None
  }

  /** The code unit of an escape such as "\\u0041". */
  function CodeUnit(s: string): (r: Option<nat>)
    ensures r.Some? ==> |s| >= 6 && r.value < 0x10000
  {
    if |s| < 6 || s[0] != '\\' || s[1] != 'u' then None
    else
      var a, b, c, d := HexValue(s[2]), HexValue(s[3]), HexValue(s[4]), HexValue(s[5]);
      if a.None? || b.None? || c.None? || d.None? then None
      else Some(((a.value * 16 + b.value) * 16 + c.value) * 16 + d.value)
  }

  predicate IsHigh(code: nat) {
    0xD800 <= code < 0xDC00
  }

  predicate IsLow(code: nat) {
    0xDC00 <= code < 0xE000
  }

  /** Stands for a surrogate that has no partner: the strings here have no character for it. */
  const LONE_SURROGATE := '\U{FFFD}'

  /** One or two escapes with code units; two that form a surrogate pair are one character. */
  function ParseUnits(s: string): (r: Option<Parsed<char>>)
    ensures r.Some? ==> |r.value.rest| < |s|
  {
    var first := CodeUnit(s);
    if first.None? then None
    else if IsHigh(first.value) then
      var second := CodeUnit(s[6..]);
      if second.Some? && IsLow(second.value) then
        Some(Parsed((0x10000 + (first.value - 0xD800) * 0x400 + (second.value - 0xDC00)) as char, s[12..]))
      else Some(Parsed(LONE_SURROGATE, s[6..]))
    else if IsLow(first.value) then Some(Parsed(LONE_SURROGATE, s[6..]))
    else Some(Parsed(first.value as char, s[6..]))
  }

  /** One character of a string, possibly escaped. */
  function ParseChar(s: string): (r: Option<Parsed<char>>)
    requires s != ""
    ensures r.Some? ==> |r.value.rest| < |s|
  {
    if s[0] != '\\' then
      if s[0] < ' ' then None else Some(Parsed(s[0], s[1..]))
    else if |s| < 2 then None
    else if Unescape(s[1]).Some? then Some(Parsed(Unescape(s[1]).value, s[2..]))
    else ParseUnits(s)
  }

  /** A string whose opening quote has been read. */
  function ParseString(s: string): (r: Option<Parsed<string>>)
    ensures r.Some? ==> |r.value.rest| < |s|
    decreases |s|
  {
    if s == "" then None
    else if s[0] == '"' then Some(Parsed("", s[1..]))
    else
      var c := ParseChar(s);
      if c.None? then None else
        var r := ParseString(c.value.rest);
        if r.None? then None else Some(Parsed([c.value.value] + r.value.value, r.value.rest))
  }

  /** How far the digits in front of the point go. */
  function WholeLength(s: string): (k: nat)
    ensures k <= |s| && (k > 0 ==> IsWhole(s[..k]))
    ensures k == 0 <==> s == "" || !IsDigit(s[0])
  {
    if s == "" || !IsDigit(s[0]) then 0 else if s[0] == '0' then 1 else DigitPrefix(s)
  }

  /** The length of a fraction at the front; a point without a digit after it is none. */
  function FractionLength(s: string): (k: nat)
    ensures k <= |s| && IsFraction(s[..k])
  {
    if s == "" || s[0] != '.' then 0
    else
      var k := DigitPrefix(s[1..]);
      assert s[..k + 1][1..] == s[1..][..k];
      if k == 0 then 0 else k + 1
  }

  function SignLength(s: string): (k: nat)
    ensures k <= 1 && k <= |s|
  {
    if s != "" && (s[0] == '+' || s[0] == '-') then 1 else 0
  }

  /** The length of an exponent at the front. */
  function ExponentLength(s: string): (k: nat)
    ensures k <= |s| && IsExponent(s[..k])
  {
    if s == "" || (s[0] != 'e' && s[0] != 'E') then 0
    else
      var sign := SignLength(s[1..]);
      var k := DigitPrefix(s[1 + sign..]);
      if k == 0 then 0
      else
        assert s[..1 + sign + k][1..] == s[1..1 + sign + k];
        assert s[1..1 + sign + k][sign..] == s[1 + sign..][..k];
        assert IsSignedDigits(s[1..1 + sign + k]);
        1 + sign + k
  }

  /** The number that is written with the given parts. */
  function Written(negative: bool, w: string, f: string, e: string): Json
    requires IsWhole(w) && IsFraction(f) && IsExponent(e)
  {
    if f + e != "" then Real(FloatParts(negative, w, f, e))
    else
      var value: int := ValueOf(w);
      Num(if negative then -value else value)
  }

  /** A number without its sign. */
  function ParseUnsigned(negative: bool, s: string): (r: Option<Parsed<Json>>)
    ensures r.Some? ==> |r.value.rest| < |s|
  {
    var w := WholeLength(s);
    if w == 0 then None
    else
      var f := FractionLength(s[w..]);
      var e := ExponentLength(s[w + f..]);
      Some(Parsed(Written(negative, s[..w], s[w..][..f], s[w + f..][..e]), s[w + f + e..]))
  }

  function ParseNumber(s: string): (r: Option<Parsed<Json>>)
    requires s != ""
    ensures r.Some? ==> |r.value.rest| < |s| && (r.value.value.Num? || r.value.value.Real?)
  {
    if s[0] == '-' then ParseUnsigned(true, s[1..]) else ParseUnsigned(false, s)
  }

  function ParseWord(s: string): (r: Option<Parsed<Json>>)
    ensures r.Some? ==> |r.value.rest| < |s|
  {
    if "null" <= s then Some(Parsed(Null, s[4..]))
    else if "true" <= s then Some(Parsed(Bool(true), s[4..]))
    else if "false" <= s then Some(Parsed(Bool(false), s[5..]))
    else if "NaN" <= s then Some(Parsed(NaN, s[3..]))
    else if "Infinity" <= s then Some(Parsed(Infinity(false), s[8..]))
    else if "-Infinity" <= s then Some(Parsed(Infinity(true), s[9..]))
    else None
  }

  /** A later member with the same key replaces the value of the earlier one. */
  function Insert(ms: seq<Member>, m: Member): seq<Member> {
    if ms == [] then [m]
    else if ms[0].key == m.key then [m] + ms[1..]
    else [ms[0]] + Insert(ms[1..], m)
  }

  function Dictionary(ms: seq<Member>): seq<Member> {
    if ms == [] then [] else Insert(Dictionary(ms[..|ms| - 1]), ms[|ms| - 1])
  }

  function ParseValue(s: string): (r: Option<Parsed<Json>>)
    ensures r.Some? ==> |r.value.rest| < |s|
    decreases |s|, 0
  {
    if s == "" then None
    else if s[0] == '"' then
      var r := ParseString(s[1..]);
      if r.None? then None else Some(Parsed(Str(r.value.value), r.value.rest))
    else if s[0] == '{' then
      var t := SkipSpace(s[1..]);
      if StartsWith(t, '}') then Some(Parsed(Obj([]), t[1..]))
      else
        var r := ParseMembers(t);
        if r.None? then None else Some(Parsed(Obj(Dictionary(r.value.value)), r.value.rest))
    else if s[0] == '[' then
      var t := SkipSpace(s[1..]);
      if StartsWith(t, ']') then Some(Parsed(Arr([]), t[1..]))
      else
        var r := ParseItems(t);
        if r.None? then None else Some(Parsed(Arr(r.value.value), r.value.rest))
    else if ParseWord(s).Some? then ParseWord(s)
    else ParseNumber(s)
  }

  /** Items up to the closing bracket; at least one. */
  function ParseItems(s: string): (r: Option<Parsed<seq<Json>>>)
    ensures r.Some? ==> |r.value.rest| < |s|
    decreases |s|, 1
  {
    var v := ParseValue(s);
    if v.None? then None else
      var t := SkipSpace(v.value.rest);
      if StartsWith(t, ']') then Some(Parsed([v.value.value], t[1..]))
      else if StartsWith(t, ',') then
        var r := ParseItems(SkipSpace(t[1..]));
        if r.None? then None else Some(Parsed([v.value.value] + r.value.value, r.value.rest))
      else None
  }

  function ParseMember(s: string): (r: Option<Parsed<Member>>)
    ensures r.Some? ==> |r.value.rest| < |s|
    decreases |s|, 1
  {
    if !StartsWith(s, '"') then None else
      var k := ParseString(s[1..]);
      if k.None? then None else
        var t := SkipSpace(k.value.rest);
        if !StartsWith(t, ':') then None else
          var v := ParseValue(SkipSpace(t[1..]));
          if v.None? then None else Some(Parsed(Member(k.value.value, v.value.value), v.value.rest))
  }

  /** Members up to the closing brace; at least one. */
  function ParseMembers(s: string): (r: Option<Parsed<seq<Member>>>)
    ensures r.Some? ==> |r.value.rest| < |s|
    decreases |s|, 2
  {
    var m := ParseMember(s);
    if m.None? then None else
      var t := SkipSpace(m.value.rest);
      if StartsWith(t, '}') then Some(Parsed([m.value.value], t[1..]))
      else if StartsWith(t, ',') then
        var r := ParseMembers(SkipSpace(t[1..]));
        if r.None? then None else Some(Parsed([m.value.value] + r.value.value, r.value.rest))
      else None
  }

  /** A whole text. */
  function Loads(s: string): Option<Json> {
    var r := ParseValue(SkipSpace(s));
    if r.Some? && SkipSpace(r.value.rest) == "" then Some(r.value.value) else None
  }
}
