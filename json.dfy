/** `JSON.stringify` of a flat object of primitives (section 25.5.2 of ECMA-262): the
    text the products manager uses as the key of its result cache. */
module Json {
  import opened Wrappers
  import opened Js
  import opened OrderedMap

  function HexDigit(d: nat): char
    requires d < 16
  {
    "0123456789abcdef"[d]
  }

  /** QuoteJSONString's treatment of one character: the quote and the backslash are
      escaped, control characters get their short escape or `\u00XX`. */
  function EscapeChar(c: char): string {
    var n := c as int;
    if c == '"' then "\\\""
    else if c == '\\' then "\\\\"
    else if n == 0x08 then "\\b"
    else if n == 0x09 then "\\t"
    else if n == 0x0A then "\\n"
    else if n == 0x0C then "\\f"
    else if n == 0x0D then "\\r"
    else if n < 0x20 then "\\u00" + [HexDigit(n / 16), HexDigit(n % 16)]
    else [c]
  }

  function EscapeText(s: string): string {
    if s == [] then "" else EscapeChar(s[0]) + EscapeText(s[1..])
  }

  /** A JSON string literal. */
  function Quote(s: string): string {
    "\"" + EscapeText(s) + "\""
  }

  /** Characters that JSON writes as they are. */
  predicate IsPlain(c: char) {
    c != '"' && c != '\\' && c as int >= 0x20
  }

  /** Text without quotes, backslashes or control characters is written unchanged. */
  lemma {:induction false} PlainTextUnescaped(s: string)
    requires forall i :: 0 <= i < |s| ==> IsPlain(s[i])
    ensures EscapeText(s) == s
  {
    if s != [] {
      PlainTextUnescaped(s[1..]);
    }
  }

  /** SerializeJSONProperty of a primitive; `None` when the property is left out
      because its value is `undefined`. */
  function ValueText(v: Value): Option<string> {
    match v
    case Undefined => None
    case Null => Some("null")
    case Bool(b) => Some(if b then "true" else "false")
    case Num(n) => Some(DecimalText(n))
    case Str(s) => Some(Quote(s))
  }

  /** The `"key":value` members of an object in key order, leaving out undefined values. */
  function Members(keys: seq<string>, vals: map<string, Value>): seq<string> {
    if keys == [] then []
    else
      var k := keys[0];
      var rest := Members(keys[1..], vals);
      match ValueText(if k in vals then vals[k] else Undefined)
      case None => rest
      case Some(t) => [Quote(k) + ":" + t] + rest
  }

  function JoinComma(parts: seq<string>): string {
    if parts == [] then ""
    else if |parts| == 1 then parts[0]
    else parts[0] + "," + JoinComma(parts[1..])
  }

  /** `JSON.stringify(obj)`: members in the object's key order. */
  function Stringify(obj: OMap<string, Value>): string {
    "{" + JoinComma(Members(obj.keys, obj.vals)) + "}"
  }

  lemma {:induction false} MembersAppend(a: seq<string>, b: seq<string>, vals: map<string, Value>)
    ensures Members(a + b, vals) == Members(a, vals) + Members(b, vals)
  {
    if a != [] {
      assert (a + b)[0] == a[0] && (a + b)[1..] == a[1..] + b;
      MembersAppend(a[1..], b, vals);
      var k := a[0];
      match ValueText(if k in vals then vals[k] else Undefined)
      case None =>
      case Some(t) =>
        assert [Quote(k) + ":" + t] + (Members(a[1..], vals) + Members(b, vals))
            == ([Quote(k) + ":" + t] + Members(a[1..], vals)) + Members(b, vals);
    } else {
      assert a + b == b;
    }
  }

  lemma {:induction false} JoinCommaAppend(a: seq<string>, b: seq<string>)
    requires a != [] && b != []
    ensures JoinComma(a + b) == JoinComma(a) + "," + JoinComma(b)
  {
    if |a| > 1 {
      assert (a + b)[1..] == a[1..] + b;
      JoinCommaAppend(a[1..], b);
    }
  }
}
