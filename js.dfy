/** JavaScript values and the JavaScript string and number operations the
    application code relies on: truthiness, `||` and `??` defaults, template
    literal stringification, trim, ASCII case mapping, split, replaceAll,
    parseInt and number-to-string. */
module Js {

  datatype Option<T> = None | Some(value: T)

  /** What a call does: returns a value, or throws an Error with a message. */
  datatype Outcome<T> = Returned(value: T) | Thrown(message: string)

  /** A JSON-like JavaScript value as it arrives in a request body or query.
      Numbers are integers; `NaN` is the result of a failed parseInt. */
  datatype Json =
    | Undefined
    | Null
    | Bool(b: bool)
    | Num(n: int)
    | NaN
    | Str(s: string)
    | Arr(items: seq<Json>)
    | Obj(fields: map<string, Json>)

  /** JavaScript truthiness: undefined, null, false, 0, NaN and "" are falsy. */
  predicate Truthy(v: Json) {
    match v
    case Undefined => false
    case Null => false
    case Bool(b) => b
    case Num(n) => n != 0
    case NaN => false
    case Str(s) => s != ""
    case Arr(_) => true
    case Obj(_) => true
  }

  /** `v == null` in JavaScript (loose equality): undefined or null. */
  predicate Nullish(v: Json) {
    v.Undefined? || v.Null?
  }

  /** `v || d` */
  function Or(v: Json, d: Json): Json {
    if Truthy(v) then v else d
  }

  /** `v || null`, the idiom every INSERT uses for optional columns. */
  function OrNull(v: Json): (r: Json)
    ensures Truthy(r) == Truthy(v)
    ensures r.Null? || r == v
    ensures r == Null <==> !Truthy(v)
  {
    Or(v, Null)
  }

  /** `v ?? d` */
  function Coalesce(v: Json, d: Json): Json {
    if Nullish(v) then d else v
  }

  /** Reading a key of a parsed body or query: absent keys are `undefined`. */
  function Field(m: map<string, Json>, k: string): Json {
    if k in m then m[k] else Undefined
  }

  // ---------------------------------------------------------------------
  // Characters and strings

  /** The characters String.prototype.trim and parseInt skip: ECMAScript
      WhiteSpace and LineTerminator. */
  predicate IsSpace(c: char) {
    || c == '\t' || c == '\n' || c == '\U{000B}' || c == '\U{000C}' || c == '\r'
    || c == ' ' || c == '\U{00A0}' || c == '\U{1680}'
    || ('\U{2000}' <= c <= '\U{200A}')
    || c == '\U{2028}' || c == '\U{2029}' || c == '\U{202F}' || c == '\U{205F}'
    || c == '\U{3000}' || c == '\U{FEFF}'
  }

  predicate NoSpaceAtEdges(s: string) {
    s == [] || (!IsSpace(s[0]) && !IsSpace(s[|s| - 1]))
  }

  predicate AllSpace(s: string) {
    forall i :: 0 <= i < |s| ==> IsSpace(s[i])
  }

  function TrimStart(s: string): (r: string)
    ensures r == [] || !IsSpace(r[0])
    ensures |r| <= |s| && r == s[|s| - |r|..]
    ensures AllSpace(s[..|s| - |r|])
  {
    if s != [] && IsSpace(s[0]) then TrimStart(s[1..]) else s
  }

  function TrimEnd(s: string): (r: string)
    ensures r == [] || !IsSpace(r[|r| - 1])
    ensures |r| <= |s| && r == s[..|r|]
    ensures AllSpace(s[|r|..])
  {
    if s != [] && IsSpace(s[|s| - 1]) then TrimEnd(s[..|s| - 1]) else s
  }

  /** String.prototype.trim */
  function Trim(s: string): string {
    TrimEnd(TrimStart(s))
  }

  /** The trimmed string has no white space at either end. */
  lemma TrimNoEdgeSpace(s: string)
    ensures NoSpaceAtEdges(Trim(s))
  {
    var t := TrimStart(s);
    var r := TrimEnd(t);
    if r != [] {
      assert r[0] == t[0];
    }
  }

  /** Trimming is idempotent. */
  lemma TrimIdempotent(s: string)
    ensures Trim(Trim(s)) == Trim(s)
  {
    var r := Trim(s);
    TrimNoEdgeSpace(s);
    if r != [] {
      assert TrimStart(r) == r;
      assert TrimEnd(r) == r;
    }
  }

  predicate IsUpperAscii(c: char) { 'A' <= c <= 'Z' }
  predicate IsLowerAscii(c: char) { 'a' <= c <= 'z' }

  function LowerChar(c: char): char {
    if IsUpperAscii(c) then (c as int + 32) as char else c
  }

  function UpperChar(c: char): char {
    if IsLowerAscii(c) then (c as int - 32) as char else c
  }

  /** toLowerCase, for the ASCII letters. */
  function Lower(s: string): (r: string)
    ensures |r| == |s|
    ensures forall i :: 0 <= i < |s| ==> r[i] == LowerChar(s[i])
  {
    seq(|s|, i requires 0 <= i < |s| => LowerChar(s[i]))
  }

  /** toUpperCase, for the ASCII letters. */
  function Upper(s: string): (r: string)
    ensures |r| == |s|
    ensures forall i :: 0 <= i < |s| ==> r[i] == UpperChar(s[i])
  {
    seq(|s|, i requires 0 <= i < |s| => UpperChar(s[i]))
  }

  predicate StartsWith(s: string, prefix: string) {
    |prefix| <= |s| && s[..|prefix|] == prefix
  }

  predicate EndsWith(s: string, suffix: string) {
    |suffix| <= |s| && s[|s| - |suffix|..] == suffix
  }

  /** `sub` occurs in `s` starting at index `i`. */
  predicate OccursAt(s: string, sub: string, i: int) {
    0 <= i <= |s| - |sub| && s[i..i + |sub|] == sub
  }

  /** String.prototype.includes */
  predicate Includes(s: string, sub: string) {
    exists i | 0 <= i <= |s| - |sub| :: OccursAt(s, sub, i)
  }

  /** Joins parts with a one-character separator (Array.prototype.join). */
  function Join(parts: seq<string>, sep: char): string {
    if parts == [] then ""
    else if |parts| == 1 then parts[0]
    else parts[0] + [sep] + Join(parts[1..], sep)
  }

  /** String.prototype.split with a one-character separator. */
  function Split(s: string, sep: char): (parts: seq<string>)
    ensures |parts| >= 1
    ensures forall k :: 0 <= k < |parts| ==> sep !in parts[k]
    ensures |parts| == 1 <==> sep !in s
  {
    if s == [] then [""]
    else if s[0] == sep then [""] + Split(s[1..], sep)
    else
      var rest := Split(s[1..], sep);
      [[s[0]] + rest[0]] + rest[1..]
  }

  /** Joining the pieces with the separator gives back the string. */
  lemma {:induction false} SplitJoin(s: string, sep: char)
    ensures Join(Split(s, sep), sep) == s
  {
    if s == [] {
    } else if s[0] == sep {
      SplitJoin(s[1..], sep);
      JoinAfterEmpty(Split(s[1..], sep), sep);
      assert s == [sep] + s[1..];
    } else {
      SplitJoin(s[1..], sep);
      JoinPrepend(s[0], Split(s[1..], sep), sep);
      assert s == [s[0]] + s[1..];
    }
  }

  /** An empty first piece puts a separator in front. */
  lemma JoinAfterEmpty(parts: seq<string>, sep: char)
    requires |parts| >= 1
    ensures Join([""] + parts, sep) == [sep] + Join(parts, sep)
  {
    var ps := [""] + parts;
    assert ps[0] == "" && ps[1..] == parts;
  }

  /** A character in front of the first piece is in front of the joined text. */
  lemma JoinPrepend(c: char, parts: seq<string>, sep: char)
    requires |parts| >= 1
    ensures Join([[c] + parts[0]] + parts[1..], sep) == [c] + Join(parts, sep)
  {
    var ps := [[c] + parts[0]] + parts[1..];
    assert ps[0] == [c] + parts[0] && ps[1..] == parts[1..];
    if |parts| > 1 {
      calc {
        Join(ps, sep);
        ps[0] + [sep] + Join(ps[1..], sep);
        ([c] + parts[0]) + [sep] + Join(parts[1..], sep);
        [c] + (parts[0] + [sep] + Join(parts[1..], sep));
        [c] + Join(parts, sep);
      }
    }
  }

  /** The first piece is the text before the first separator. */
  lemma {:induction false} SplitFirst(s: string, sep: char, i: nat)
    requires i <= |s|
    requires sep !in s[..i]
    requires i == |s| || s[i] == sep
    ensures Split(s, sep)[0] == s[..i]
  {
    if s != [] && i > 0 {
      assert s[0] != sep by { assert s[0] == s[..i][0]; }
      SplitFirst(s[1..], sep, i - 1);
      assert s[1..][..i - 1] == s[..i][1..];
      assert s[..i] == [s[0]] + s[1..][..i - 1];
    }
  }

  /** Splitting at the first separator: the text before it, then the pieces
      of the text after it. */
  lemma {:induction false} SplitAfter(s: string, sep: char, i: nat)
    requires i < |s| && s[i] == sep && sep !in s[..i]
    ensures Split(s, sep) == [s[..i]] + Split(s[i + 1..], sep)
  {
    if i > 0 {
      assert s[0] != sep by { assert s[0] == s[..i][0]; }
      assert s[1..][..i - 1] == s[..i][1..];
      SplitAfter(s[1..], sep, i - 1);
      assert s[1..][i..] == s[i + 1..];
      assert s[..i] == [s[0]] + s[1..][..i - 1];
    }
  }

  /** A string without the separator splits into itself alone. */
  lemma SplitNoSeparator(s: string, sep: char)
    requires sep !in s
    ensures Split(s, sep) == [s]
  {
    SplitJoin(s, sep);
  }

  /** The last piece is the text after the last separator. */
  lemma {:induction false} SplitLast(s: string, sep: char, i: nat)
    requires i < |s| && s[i] == sep && sep !in s[i + 1..]
    ensures var parts := Split(s, sep); parts[|parts| - 1] == s[i + 1..]
  {
    var rest := Split(s[1..], sep);
    if i == 0 {
      SplitNoSeparator(s[1..], sep);
    } else {
      assert s[1..][i - 1] == sep && s[1..][i..] == s[i + 1..];
      SplitLast(s[1..], sep, i - 1);
      if s[0] != sep {
        assert sep in s[1..];
        assert |rest| >= 2;
      }
    }
  }

  /** String.prototype.lastIndexOf for one character; None stands for -1. */
  function LastIndexOf(s: string, c: char): (i: Option<nat>)
    ensures i.None? <==> c !in s
    ensures i.Some? ==> i.value < |s| && s[i.value] == c && c !in s[i.value + 1..]
  {
    if s == [] then None
    else if s[|s| - 1] == c then Some(|s| - 1)
    else
      var t := s[..|s| - 1];
      assert s == t + [s[|s| - 1]];
      var r := LastIndexOf(t, c);
      if r.Some? then
        assert s[r.value + 1..] == t[r.value + 1..] + [s[|s| - 1]];
        r
      else r
  }

  /** String.prototype.replaceAll with a non-empty literal pattern: every
      non-overlapping occurrence, scanning left to right, and the inserted text
      is not scanned again. */
  function ReplaceAll(s: string, pat: string, rep: string): string
    requires pat != []
    decreases |s|
  {
    if s == [] then ""
    else if StartsWith(s, pat) then rep + ReplaceAll(s[|pat|..], pat, rep)
    else [s[0]] + ReplaceAll(s[1..], pat, rep)
  }

  /** Text without any occurrence of the pattern is left as it is. */
  lemma {:induction false} ReplaceAllAbsent(s: string, pat: string, rep: string)
    requires pat != []
    requires !Includes(s, pat)
    ensures ReplaceAll(s, pat, rep) == s
    decreases |s|
  {
    if s != [] {
      assert !OccursAt(s, pat, 0);
      forall i | 0 <= i <= |s| - 1 - |pat|
        ensures !OccursAt(s[1..], pat, i)
      {
        assert s[1..][i..i + |pat|] == s[i + 1..i + 1 + |pat|];
        assert !OccursAt(s, pat, i + 1);
      }
      ReplaceAllAbsent(s[1..], pat, rep);
    }
  }

  // ---------------------------------------------------------------------
  // Numbers

  predicate IsDigit(c: char) { '0' <= c <= '9' }

  function DigitValue(c: char): nat
    requires IsDigit(c)
  {
    c as int - '0' as int
  }

  function DigitChar(d: nat): (c: char)
    requires d < 10
    ensures IsDigit(c) && DigitValue(c) == d
  {
    ('0' as int + d) as char
  }

  predicate AllDigits(s: string) {
    forall i :: 0 <= i < |s| ==> IsDigit(s[i])
  }

  /** The value of a string of decimal digits. */
  function DigitsValue(s: string): nat
    requires AllDigits(s)
  {
    if s == [] then 0 else DigitsValue(s[..|s| - 1]) * 10 + DigitValue(s[|s| - 1])
  }

  /** Number.prototype.toString() on a non-negative integer. */
  function NatToString(n: nat): (s: string)
    ensures s != [] && AllDigits(s)
    ensures DigitsValue(s) == n
  {
    if n < 10 then [DigitChar(n)]
    else
      var s := NatToString(n / 10) + [DigitChar(n % 10)];
      assert s[..|s| - 1] == NatToString(n / 10);
      s
  }

  /** Number.prototype.toString() on an integer. */
  function IntToString(i: int): string {
    if i < 0 then "-" + NatToString(-i) else NatToString(i)
  }

  /** The longest prefix of digits. */
  function DigitPrefix(s: string): (d: string)
    ensures |d| <= |s|
    ensures AllDigits(d) && d == s[..|d|]
    ensures |d| == |s| || !IsDigit(s[|d|])
  {
    if s != [] && IsDigit(s[0]) then [s[0]] + DigitPrefix(s[1..]) else ""
  }

  /** parseInt(s, 10): skip leading white space, read an optional sign and
      then the longest run of decimal digits; no digits means NaN (None). */
  function ParseIntOpt(s: string): Option<int> {
    var t := TrimStart(s);
    var negative := t != [] && t[0] == '-';
    var body := if t != [] && (t[0] == '-' || t[0] == '+') then t[1..] else t;
    var digits := DigitPrefix(body);
    if digits == [] then None
    else if negative then Some(-(DigitsValue(digits) as int))
    else Some(DigitsValue(digits))
  }

  /** parseInt as a JavaScript value: a number, or NaN. */
  function ParseInt(s: string): (v: Json)
    ensures v.Num? || v.NaN?
  {
    match ParseIntOpt(s)
    case Some(n) => Num(n)
    case None => NaN
  }

  /** Text starting with a letter other than a sign or digit parses to NaN,
      as String(undefined) does. */
  lemma ParseIntLetter(s: string)
    requires s != [] && !IsSpace(s[0]) && !IsDigit(s[0]) && s[0] != '-' && s[0] != '+'
    ensures ParseIntOpt(s).None?
  {
  }

  lemma UndefinedIsNaN()
    ensures ParseIntOpt(ToJsString(Undefined)).None?
    ensures ParseIntAutoOpt(ToJsString(Undefined)).None?
  {
    var s := ToJsString(Undefined);
    ParseIntLetter(s);
    assert TrimStart(s) == s && StripSign(s) == s && s[0] == 'u';
  }

  /** Number.isNaN on a parse result. */
  predicate IsNaN(v: Json) { v.NaN? }

  /** parseInt reads back what toString wrote. */
  lemma IntToStringRoundTrip(i: int)
    ensures ParseIntOpt(IntToString(i)) == Some(i)
  {
    var s := IntToString(i);
    var digits := NatToString(if i < 0 then -i else i);
    assert !IsSpace(s[0]);
    assert TrimStart(s) == s;
    if i < 0 {
      assert s[1..] == digits;
    }
    assert DigitPrefix(digits) == digits by { DigitPrefixAll(digits); }
  }

  lemma {:induction false} DigitPrefixAll(s: string)
    requires AllDigits(s)
    ensures DigitPrefix(s) == s
  {
    if s != [] {
      DigitPrefixAll(s[1..]);
    }
  }

  // ---------------------------------------------------------------------
  // Hexadecimal digits and parseInt without a radix

  /** A digit of parseInt in radix 16. */
  predicate IsHexDigit(c: char) {
    ('0' <= c <= '9') || ('a' <= c <= 'f') || ('A' <= c <= 'F')
  }

  function HexDigitValue(c: char): (d: nat)
    requires IsHexDigit(c)
    ensures d < 16
  {
    if '0' <= c <= '9' then c as int - '0' as int
    else if 'a' <= c <= 'f' then c as int - 'a' as int + 10
    else c as int - 'A' as int + 10
  }

  /** The longest prefix of hexadecimal digits. */
  function HexDigits(s: string): (d: string)
    ensures |d| <= |s| && d == s[..|d|]
    ensures forall i :: 0 <= i < |d| ==> IsHexDigit(d[i])
    ensures |d| == |s| || !IsHexDigit(s[|d|])
  {
    if s == [] || !IsHexDigit(s[0]) then "" else [s[0]] + HexDigits(s[1..])
  }

  function HexValue(d: string): nat
    requires forall i :: 0 <= i < |d| ==> IsHexDigit(d[i])
  {
    if d == [] then 0 else 16 * HexValue(d[..|d| - 1]) + HexDigitValue(d[|d| - 1])
  }

  function StripSign(t: string): string {
    if t != [] && (t[0] == '-' || t[0] == '+') then t[1..] else t
  }

  /** A "0x" or "0X" at the start. */
  predicate HasRadixPrefix(u: string) {
    |u| >= 2 && u[0] == '0' && (u[1] == 'x' || u[1] == 'X')
  }

  function StripRadixPrefix(u: string): string {
    if HasRadixPrefix(u) then u[2..] else u
  }
  predicate AllHex(s: string) {
    forall i :: 0 <= i < |s| ==> IsHexDigit(s[i])
  }

  lemma {:induction false} HexDigitsAll(s: string)
    requires AllHex(s)
    ensures HexDigits(s) == s
  {
    if s != [] {
      HexDigitsAll(s[1..]);
    }
  }

  /** parseInt(s) with no radix: as parseInt(s, 10), except that a "0x" or
      "0X" right after the optional sign switches to hexadecimal; with no
      hex digit after that prefix the result is NaN (None). */
  function ParseIntAutoOpt(s: string): Option<int> {
    var t := TrimStart(s);
    var body := StripSign(t);
    if HasRadixPrefix(body) then
      var d := HexDigits(body[2..]);
      if d == [] then None
      else if t != [] && t[0] == '-' then Some(-(HexValue(d) as int))
      else Some(HexValue(d))
    else ParseIntOpt(s)
  }

  /** parseInt(s) with no radix, as a JavaScript value: a number, or NaN. */
  function ParseIntAuto(s: string): (v: Json)
    ensures v.Num? || v.NaN?
  {
    match ParseIntAutoOpt(s)
    case Some(n) => Num(n)
    case None => NaN
  }

  /** Without a "0x" prefix the radix is 10. */
  lemma ParseIntAutoDecimal(s: string)
    requires !HasRadixPrefix(StripSign(TrimStart(s)))
    ensures ParseIntAutoOpt(s) == ParseIntOpt(s)
  {
  }

  /** With a "0x" prefix the hex digits are read, and the sign applies. */
  lemma ParseIntAutoHex(d: string)
    requires d != [] && AllHex(d)
    ensures ParseIntAutoOpt("0x" + d) == Some(HexValue(d))
    ensures ParseIntAutoOpt("-0x" + d) == Some(-(HexValue(d) as int))
  {
    HexDigitsAll(d);
    var p := "0x" + d;
    HexBody(p, d);
    var m := "-0x" + d;
    assert m[0] == '-' && !IsSpace(m[0]) && m[1..] == p;
    assert TrimStart(m) == m;
    assert StripSign(m) == p;
    HexRead(p, d);
    HexRead(m, d);
  }

  lemma HexRead(s: string, d: string)
    requires HasRadixPrefix(StripSign(TrimStart(s))) && HexDigits(StripSign(TrimStart(s))[2..]) == d && d != []
    ensures ParseIntAutoOpt(s) == if TrimStart(s)[0] == '-' then Some(-(HexValue(d) as int)) else Some(HexValue(d))
  {
  }

  lemma HexBody(p: string, d: string)
    requires p == "0x" + d
    ensures TrimStart(p) == p && StripSign(p) == p && HasRadixPrefix(p) && p[2..] == d
  {
    assert p[0] == '0' && p[1] == 'x';
    assert !IsSpace(p[0]);
  }

  /** A "0x" with no hex digit after it is NaN, although parseInt(s, 10)
      would read the "0". */
  lemma ParseIntAutoBarePrefix()
    ensures ParseIntAutoOpt("0x").None?
    ensures ParseIntOpt("0x") == Some(0)
  {
    assert TrimStart("0x") == "0x";
    assert "0x"[1..] == "x";
    assert DigitPrefix("x") == "";
    assert DigitPrefix("0x") == "0";
    assert "0"[..0] == "";
    assert DigitsValue("0") == 0;
  }

  /** parseInt("0x10") is 16. */
  lemma HexTen()
    ensures ParseIntAutoOpt("0x10") == Some(16)
  {
    assert "0x10" == "0x" + "10";
    assert AllHex("10");
    ParseIntAutoHex("10");
    assert "10"[..1] == "1" && "1"[..0] == "";
    assert HexValue("10") == 16;
  }

  /** The decimal form of a number reads back the same with no radix. */
  lemma ParseIntAutoRoundTrip(i: int)
    ensures ParseIntAutoOpt(IntToString(i)) == Some(i)
  {
    IntToStringRoundTrip(i);
    var s := IntToString(i);
    var digits := NatToString(if i < 0 then -i else i);
    assert !IsSpace(s[0]);
    assert TrimStart(s) == s;
    if i < 0 {
      assert s[1..] == digits;
      assert StripSign(s) == digits;
    } else {
      assert StripSign(s) == digits;
    }
    assert |digits| >= 2 ==> IsDigit(digits[1]);
  }

  // ---------------------------------------------------------------------
  // String(v) and template literals

  /** `String(v)`, which is also what `${v}` in a template literal produces.
      Array elements that are null or undefined print as empty strings. */
  function ToJsString(v: Json): string
    decreases v
  {
    match v
    case Undefined => "undefined"
    case Null => "null"
    case Bool(b) => if b then "true" else "false"
    case Num(n) => IntToString(n)
    case NaN => "NaN"
    case Str(s) => s
    case Arr(items) =>
      Join(seq(|items|, i requires 0 <= i < |items| =>
             if Nullish(items[i]) then "" else ToJsString(items[i])), ',')
    case Obj(_) => "[object Object]"
  }

  // ---------------------------------------------------------------------
  // URLSearchParams

  /** `url.searchParams.set(k, v)`: the first entry with the key takes the
      value and later ones are dropped; a new key is appended. */
  function SetParam(ps: seq<(string, string)>, k: string, v: string): seq<(string, string)> {
    if ps == [] then [(k, v)]
    else if ps[0].0 == k then [(k, v)] + DropKey(ps[1..], k)
    else [ps[0]] + SetParam(ps[1..], k, v)
  }

  function DropKey(ps: seq<(string, string)>, k: string): seq<(string, string)> {
    if ps == [] then [] else (if ps[0].0 == k then [] else [ps[0]]) + DropKey(ps[1..], k)
  }

  lemma {:induction false} SetParamFresh(ps: seq<(string, string)>, k: string, v: string)
    requires forall i :: 0 <= i < |ps| ==> ps[i].0 != k
    ensures SetParam(ps, k, v) == ps + [(k, v)]
  {
    if ps != [] {
      SetParamFresh(ps[1..], k, v);
    }
  }
}
