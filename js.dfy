/** JavaScript primitive values and the built-in operations the catalog code relies on:
    truthiness and `||`, `String(v)`, `parseInt`, `trim`, `toLowerCase`, `includes`
    and `split`. */
module Js {
  import opened Wrappers

  /** A primitive value as the catalog code meets it in product records, filters and
      query parameters. Numbers are integers: NaN, the infinities and fractions are not
      modelled (`parseInt` reports NaN as `None` instead). */
  datatype Value = Undefined | Null | Bool(b: bool) | Num(n: int) | Str(s: string)

  /** ToBoolean: the values that `if (v)` and `v || d` treat as true. */
  predicate Truthy(v: Value) {
    match v
    case Undefined => false
    case Null => false
    case Bool(b) => b
    case Num(n) => n != 0
    case Str(s) => s != ""
  }

  /** `a || b`. */
  function Or(a: Value, b: Value): Value {
    if Truthy(a) then a else b
  }

  /** An optional integer as a value: an absent number reads as `undefined`. */
  function OfInt(n: Option<int>): Value {
    match n
    case Some(k) => Num(k)
    case None => Undefined
  }

  // ---------------------------------------------------------------------------
  // Numbers as text

  predicate IsDecimalDigit(c: char) {
    '0' <= c <= '9'
  }

  function DigitChar(d: nat): (c: char)
    requires d < 10
    ensures IsDecimalDigit(c)
  {
    (48 + d) as char
  }

  /** The decimal digits of a natural number, most significant first. */
  function NatText(n: nat): (r: string)
    ensures |r| >= 1
    ensures forall i :: 0 <= i < |r| ==> IsDecimalDigit(r[i])
  {
    if n < 10 then [DigitChar(n)] else NatText(n / 10) + [DigitChar(n % 10)]
  }

  /** Number::toString of an integer. */
  function DecimalText(n: int): string {
    if n < 0 then "-" + NatText(-n) else NatText(n)
  }

  /** `String(v)`: how a value reads in a template literal or in `textContent`. */
  function ToText(v: Value): string {
    match v
    case Undefined => "undefined"
    case Null => "null"
    case Bool(b) => if b then "true" else "false"
    case Num(n) => DecimalText(n)
    case Str(s) => s
  }

  /** Only the empty string shows as empty text; in particular every truthy value
      shows as a non-empty label. */
  lemma TextEmptyExactlyForEmptyString(v: Value)
    ensures ToText(v) == "" <==> v == Str("")
    ensures Truthy(v) ==> ToText(v) != ""
  {
    if v.Num? {
      assert |NatText(if v.n < 0 then -v.n else v.n)| >= 1;
    }
  }

  // ---------------------------------------------------------------------------
  // White space and trim

  /** The WhiteSpace and LineTerminator code points of ECMAScript (sections 12.2 and
      12.3 of ECMA-262): the characters `trim` and `parseInt` skip. */
  predicate IsSpace(c: char) {
    var n := c as int;
    n == 0x09 || n == 0x0A || n == 0x0B || n == 0x0C || n == 0x0D || n == 0x20
    || n == 0xA0 || n == 0x1680 || (0x2000 <= n <= 0x200A) || n == 0x2028
    || n == 0x2029 || n == 0x202F || n == 0x205F || n == 0x3000 || n == 0xFEFF
  }

  /** `String.prototype.trimStart`. */
  function TrimStart(s: string): (r: string)
    ensures |r| <= |s| && r == s[|s| - |r|..]
    ensures r == [] || !IsSpace(r[0])
    ensures forall i :: 0 <= i < |s| - |r| ==> IsSpace(s[i])
  {
    if s != [] && IsSpace(s[0]) then TrimStart(s[1..]) else s
  }

  /** `String.prototype.trimEnd`. */
  function TrimEnd(s: string): (r: string)
    ensures |r| <= |s| && r == s[..|r|]
    ensures r == [] || !IsSpace(r[|r| - 1])
    ensures forall i :: |r| <= i < |s| ==> IsSpace(s[i])
  {
    if s != [] && IsSpace(s[|s| - 1]) then TrimEnd(s[..|s| - 1]) else s
  }

  /** `String.prototype.trim`: the text between the leading and the trailing white space. */
  function Trim(s: string): (r: string)
    ensures r == [] || (!IsSpace(r[0]) && !IsSpace(r[|r| - 1]))
    ensures exists i :: OccursAt(s, r, i)
  {
    var t := TrimStart(s);
    var r := TrimEnd(t);
    assert OccursAt(s, r, |s| - |t|);
    r
  }

  /** Trimming twice is trimming once. */
  lemma TrimIdempotent(s: string)
    ensures Trim(Trim(s)) == Trim(s)
  {
    var r := Trim(s);
    assert TrimStart(r) == r;
    assert TrimEnd(r) == r;
  }

  // ---------------------------------------------------------------------------
  // parseInt

  /** The value of a digit of radix up to 16, or -1 for any other character. */
  function DigitValue(c: char): int {
    if '0' <= c <= '9' then c as int - 48
    else if 'a' <= c <= 'f' then c as int - 87
    else if 'A' <= c <= 'F' then c as int - 55
    else -1
  }

  predicate IsRadixDigit(c: char, radix: nat) {
    0 <= DigitValue(c) < radix
  }

  /** The longest prefix of `s` made of digits of the radix. */
  function DigitPrefix(s: string, radix: nat): (r: string)
    ensures r <= s
    ensures forall i :: 0 <= i < |r| ==> IsRadixDigit(r[i], radix)
    ensures |r| < |s| ==> !IsRadixDigit(s[|r|], radix)
  {
    if s != [] && IsRadixDigit(s[0], radix) then [s[0]] + DigitPrefix(s[1..], radix) else []
  }

  /** The number a string of digits denotes, most significant digit first. */
  function DigitsValue(ds: string, radix: nat): nat {
    if ds == [] then 0
    else
      var d := DigitValue(ds[|ds| - 1]);
      DigitsValue(ds[..|ds| - 1], radix) * radix + (if d < 0 then 0 else d)
  }

  /** `parseInt(text)` with no radix (section 19.2.5 of ECMA-262): skip leading white
      space, read one optional sign, read a `0x`/`0X` prefix as radix 16, then the
      longest run of digits. `None` is NaN (no digit at all). */
  function ParseIntText(t: string): Option<int> {
    var s := TrimStart(t);
    var negative := s != [] && s[0] == '-';
    var unsigned := if s != [] && (s[0] == '-' || s[0] == '+') then s[1..] else s;
    match ParseMagnitude(unsigned)
    case None => None
    case Some(magnitude) => Some(if negative then -(magnitude as int) else magnitude)
  }

  /** The unsigned part of `parseInt`: a `0x`/`0X` prefix selects radix 16, then the
      longest run of digits is read; `None` when there is no digit. */
  function ParseMagnitude(unsigned: string): Option<nat> {
    var hex := |unsigned| >= 2 && unsigned[0] == '0' && (unsigned[1] == 'x' || unsigned[1] == 'X');
    var radix := if hex then 16 else 10;
    var digits := DigitPrefix(if hex then unsigned[2..] else unsigned, radix);
    if digits == [] then None else Some(DigitsValue(digits, radix))
  }

  /** `parseInt(v)`: the argument is first converted to text. */
  function ParseInt(v: Value): Option<int> {
    ParseIntText(ToText(v))
  }

  lemma {:induction false} WholeDigitPrefix(s: string, radix: nat)
    requires forall i :: 0 <= i < |s| ==> IsRadixDigit(s[i], radix)
    ensures DigitPrefix(s, radix) == s
  {
    if s != [] {
      WholeDigitPrefix(s[1..], radix);
    }
  }

  lemma {:induction false} NatTextValue(n: nat)
    ensures DigitsValue(NatText(n), 10) == n
  {
    if n >= 10 {
      var t := NatText(n);
      assert t[..|t| - 1] == NatText(n / 10);
      NatTextValue(n / 10);
    }
  }

  /** The digits of a decimal numeral never start a `0x` prefix. */
  lemma NotHexPrefix(digits: string)
    requires forall i :: 0 <= i < |digits| ==> IsDecimalDigit(digits[i])
    ensures !(|digits| >= 2 && digits[0] == '0' && (digits[1] == 'x' || digits[1] == 'X'))
  {
    if |digits| >= 2 {
      assert IsDecimalDigit(digits[1]);
    }
  }

  /** A run of decimal digits parses to its value. */
  lemma ParseDigits(digits: string)
    requires |digits| >= 1
    requires forall i :: 0 <= i < |digits| ==> IsDecimalDigit(digits[i])
    ensures ParseIntText(digits) == Some(DigitsValue(digits, 10))
  {
    assert !IsSpace(digits[0]);
    assert TrimStart(digits) == digits;
    MagnitudeOfDigits(digits);
  }

  /** A run of decimal digits is read whole, in radix 10. */
  lemma MagnitudeOfDigits(digits: string)
    requires |digits| >= 1
    requires forall i :: 0 <= i < |digits| ==> IsDecimalDigit(digits[i])
    ensures ParseMagnitude(digits) == Some(DigitsValue(digits, 10))
  {
    NotHexPrefix(digits);
    WholeDigitPrefix(digits, 10);
  }

  /** A minus sign followed by a run of decimal digits parses to the negated value. */
  lemma ParseNegativeDigits(m: string)
    requires |m| >= 2 && m[0] == '-'
    requires forall i :: 1 <= i < |m| ==> IsDecimalDigit(m[i])
    ensures ParseIntText(m) == Some(-(DigitsValue(m[1..], 10) as int))
  {
    var digits := m[1..];
    assert forall i :: 0 <= i < |digits| ==> IsDecimalDigit(digits[i]);
    assert !IsSpace(m[0]);
    assert TrimStart(m) == m;
    MagnitudeOfDigits(digits);
  }

  /** `parseInt` reads back every integer it is given as text: `parseInt(String(n)) == n`. */
  lemma ParseDecimalText(n: int)
    ensures ParseIntText(DecimalText(n)) == Some(n)
    ensures ParseInt(Num(n)) == Some(n)
  {
    var m := if n < 0 then -n else n;
    if n < 0 {
      ParseNegativeDigits("-" + NatText(m));
      assert ("-" + NatText(m))[1..] == NatText(m);
    } else {
      ParseDigits(NatText(m));
    }
    NatTextValue(m);
  }

  // ---------------------------------------------------------------------------
  // Case, search and split

  /** `toLowerCase` of one character, for the Latin and Cyrillic capitals. */
  function LowerChar(c: char): char {
    var n := c as int;
    if 0x41 <= n <= 0x5A then (n + 0x20) as char
    else if 0x410 <= n <= 0x42F then (n + 0x20) as char
    else if 0x400 <= n <= 0x40F then (n + 0x50) as char
    else c
  }

  /** `String.prototype.toLowerCase`, character by character. */
  function ToLower(s: string): (r: string)
    ensures |r| == |s|
    ensures forall i :: 0 <= i < |s| ==> r[i] == LowerChar(s[i])
  {
    if s == [] then [] else [LowerChar(s[0])] + ToLower(s[1..])
  }

  /** `s.includes(t)`. */
  predicate Includes(s: string, t: string)
    decreases |s|
  {
    t <= s || (s != [] && Includes(s[1..], t))
  }

  /** `t` occurs in `s` starting at index `i`. */
  predicate OccursAt(s: string, t: string, i: int) {
    0 <= i <= |s| - |t| && s[i..i + |t|] == t
  }

  /** `s.includes(t)` holds exactly when `t` occurs in `s` at some position. */
  lemma {:induction false} IncludesOccurs(s: string, t: string)
    ensures Includes(s, t) <==> exists i :: OccursAt(s, t, i)
    decreases |s|
  {
    if t <= s {
      assert OccursAt(s, t, 0);
    } else if s != [] {
      IncludesOccurs(s[1..], t);
      if Includes(s[1..], t) {
        var i :| OccursAt(s[1..], t, i);
        assert s[1..][i..i + |t|] == s[i + 1..i + 1 + |t|];
        assert OccursAt(s, t, i + 1);
      }
      if i :| OccursAt(s, t, i) {
        assert i != 0;
        assert s[1..][i - 1..i - 1 + |t|] == s[i..i + |t|];
        assert OccursAt(s[1..], t, i - 1);
      }
    }
  }

  /** `s.split(sep)` for a one-character separator: the pieces between separators. */
  function Split(s: string, sep: char): (parts: seq<string>)
    ensures |parts| >= 1
    ensures forall i, j :: 0 <= i < |parts| && 0 <= j < |parts[i]| ==> parts[i][j] != sep
  {
    if s == [] then [""]
    else
      var rest := Split(s[1..], sep);
      if s[0] == sep then [""] + rest else [[s[0]] + rest[0]] + rest[1..]
  }

  /** `parts.join(sep)`. */
  function Join(parts: seq<string>, sep: char): string
    requires |parts| >= 1
  {
    if |parts| == 1 then parts[0] else parts[0] + [sep] + Join(parts[1..], sep)
  }

  /** Joining the pieces of a split with the same separator gives the text back. */
  lemma {:induction false} SplitJoin(s: string, sep: char)
    ensures Join(Split(s, sep), sep) == s
  {
    if s != [] {
      var rest := Split(s[1..], sep);
      SplitJoin(s[1..], sep);
      if s[0] != sep {
        var parts := Split(s, sep);
        assert parts[1..] == rest[1..];
        if |rest| > 1 {
          assert Join(rest, sep) == rest[0] + [sep] + Join(rest[1..], sep);
        }
      }
    }
  }
}
