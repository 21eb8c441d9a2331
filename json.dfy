/** JSON values as the component receives them (src/components/json.tsx:199), with the
    two ways the component turns a value into text: `JSON.stringify` (line 110) and
    template-literal interpolation (lines 138, 144, 153). */
module Json {
  import opened Wrappers
  import opened Chars

  /** `JSONType`. Numbers are integers here; an object is the list of its entries in
      the order `Object.entries` reports them. */
  datatype JVal =
    | JStr(s: string)
    | JNum(n: int)
    | JBool(b: bool)
    | JNull
    | JArr(items: seq<JVal>)
    | JObj(fields: seq<(string, JVal)>)

  /** A property read `o.k`: a value, or `undefined` when there is no such property. */
  datatype JsProp = Undefined | Defined(value: JVal)

  /** The value of the first entry named `key`. */
  function Lookup(fields: seq<(string, JVal)>, key: string): (r: JsProp)
    ensures r.Defined? <==> exists i | 0 <= i < |fields| :: fields[i].0 == key
    ensures r.Defined? ==> exists i | 0 <= i < |fields| :: fields[i] == (key, r.value)
  {
    if fields == [] then Undefined
    else if fields[0].0 == key then Defined(fields[0].1)
    else
      var r := Lookup(fields[1..], key);
      assert forall i | 0 <= i < |fields| - 1 :: fields[1..][i] == fields[i + 1];
      r
  }

  // ---------------------------------------------------------------------------
  // Decimal digits
  // ---------------------------------------------------------------------------

  function DigitChar(d: nat): (c: char)
    requires d < 10
    ensures IsDigit(c)
  {
    "0123456789"[d]
  }

  function DigitValue(c: char): int {
    c as int - '0' as int
  }

  /** Decimal digits of a natural number, without leading zeros. */
  function NatToString(n: nat): (s: string)
    ensures |s| >= 1
    ensures forall k | 0 <= k < |s| :: IsDigit(s[k])
    decreases n
  {
    if n < 10 then [DigitChar(n)] else NatToString(n / 10) + [DigitChar(n % 10)]
  }

  /** `String(n)` for an integer `n` (magnitude below 10^21, where JavaScript
      switches to exponent notation). */
  function IntToString(n: int): string {
    if n < 0 then "-" + NatToString(-n) else NatToString(n)
  }

  /** Value of a string of decimal digits. */
  function DigitsValue(s: string): int
    decreases |s|
  {
    if s == [] then 0 else DigitsValue(s[..|s| - 1]) * 10 + DigitValue(s[|s| - 1])
  }

  function ParseInt(s: string): int {
    if s != [] && s[0] == '-' then -DigitsValue(s[1..]) else DigitsValue(s)
  }

  lemma {:induction false} NatToStringRoundTrip(n: nat)
    ensures DigitsValue(NatToString(n)) == n
    ensures NatToString(n)[0] == '0' ==> n == 0
    decreases n
  {
    if n >= 10 {
      var s := NatToString(n);
      NatToStringRoundTrip(n / 10);
      assert s[..|s| - 1] == NatToString(n / 10);
      assert DigitValue(s[|s| - 1]) == n % 10;
    } else {
      assert DigitValue(DigitChar(n)) == n;
    }
  }

  /** Reading the decimal text back gives the number; the text has a sign only for
      negative numbers and no leading zero. */
  lemma IntToStringRoundTrip(n: int)
    ensures ParseInt(IntToString(n)) == n
    ensures IntToString(n)[0] == '-' <==> n < 0
    ensures IntToString(n)[0] == '-' || IsDigit(IntToString(n)[0])
    ensures n != 0 ==> IntToString(n)[0] != '0'
  {
    if n < 0 {
      NatToStringRoundTrip(-n);
      assert IntToString(n)[1..] == NatToString(-n);
    } else {
      NatToStringRoundTrip(n);
    }
  }

  // ---------------------------------------------------------------------------
  // JSON.stringify
  // ---------------------------------------------------------------------------

  function HexDigit(d: nat): char
    requires d < 16
  {
    "0123456789abcdef"[d]
  }

  /** The escape `JSON.stringify` writes for one character (QuoteJSONString in
      ECMA-262): the short escapes, `\u00xx` for other control characters, and the
      character itself otherwise. */
  function EscapeJsonChar(c: char): (e: string)
    ensures |e| >= 1
  {
    if c == '\U{08}' then "\\b"
    else if c == '\t' then "\\t"
    else if c == '\n' then "\\n"
    else if c == '\U{0C}' then "\\f"
    else if c == '\r' then "\\r"
    else if c == '"' then "\\\""
    else if c == '\\' then "\\\\"
    else if c < ' ' then "\\u00" + [HexDigit(c as int / 16), HexDigit(c as int % 16)]
    else [c]
  }

  /** The text between the quotes of `JSON.stringify(s)`. */
  function QuoteBody(s: string): string
    decreases |s|
  {
    if s == [] then [] else EscapeJsonChar(s[0]) + QuoteBody(s[1..])
  }

  function QuoteJsonString(s: string): string {
    "\"" + QuoteBody(s) + "\""
  }

  /** `JSON.stringify(v)` with no indentation. */
  function Stringify(v: JVal): (r: string)
    decreases v, 1
  {
    match v
    case JStr(s) => QuoteJsonString(s)
    case JNum(n) => IntToString(n)
    case JBool(b) => if b then "true" else "false"
    case JNull => "null"
    case JArr(xs) => "[" + StringifyItems(xs, 0) + "]"
    case JObj(fs) => "{" + StringifyFields(fs, 0) + "}"
  }

  function StringifyItems(xs: seq<JVal>, i: nat): string
    requires i <= |xs|
    decreases JArr(xs), 0, |xs| - i
  {
    if i == |xs| then ""
    else (if i == 0 then "" else ",") + Stringify(xs[i]) + StringifyItems(xs, i + 1)
  }

  function StringifyFields(fs: seq<(string, JVal)>, i: nat): string
    requires i <= |fs|
    decreases JObj(fs), 0, |fs| - i
  {
    if i == |fs| then ""
    else
      assert fs[i] in fs;
      (if i == 0 then "" else ",") + QuoteJsonString(fs[i].0) + ":" + Stringify(fs[i].1)
      + StringifyFields(fs, i + 1)
  }

  /** The serialisation starts with a quote exactly for strings. */
  lemma StringifyHead(v: JVal)
    ensures |Stringify(v)| >= 1
    ensures Stringify(v)[0] == '"' <==> v.JStr?
  {
    if v.JNum? {
      IntToStringRoundTrip(v.n);
    }
  }

  // ---------------------------------------------------------------------------
  // Reading a quoted body back
  // ---------------------------------------------------------------------------

  function HexValue(c: char): int {
    if '0' <= c <= '9' then c as int - '0' as int
    else if 'a' <= c <= 'f' then c as int - 'a' as int + 10
    else if 'A' <= c <= 'F' then c as int - 'A' as int + 10
    else 0
  }

  /** The character a two-character escape `\c` stands for in JSON text. */
  function ShortEscape(c: char): char {
    if c == 'b' then '\U{08}'
    else if c == 't' then '\t'
    else if c == 'n' then '\n'
    else if c == 'f' then '\U{0C}'
    else if c == 'r' then '\r'
    else c
  }

  /** The characters a JSON string body denotes (the `\uXXXX` escapes only below the
      surrogate range, which is all `JSON.stringify` writes for a character). */
  function UnquoteBody(t: string): string
    decreases |t|
  {
    if t == [] then []
    else if t[0] == '\\' && |t| >= 6 && t[1] == 'u' then
      var v := HexValue(t[2]) * 4096 + HexValue(t[3]) * 256 + HexValue(t[4]) * 16 + HexValue(t[5]);
      (if 0 <= v < 0xD800 then [v as char] else [t[0]]) + UnquoteBody(t[6..])
    else if t[0] == '\\' && |t| >= 2 && t[1] != 'u' then [ShortEscape(t[1])] + UnquoteBody(t[2..])
    else [t[0]] + UnquoteBody(t[1..])
  }

  lemma HexDigitValue(d: nat)
    requires d < 16
    ensures HexValue(HexDigit(d)) == d
  {
  }

  lemma UnquoteEscapeChar(c: char, rest: string)
    ensures UnquoteBody(EscapeJsonChar(c) + rest) == [c] + UnquoteBody(rest)
  {
    var e := EscapeJsonChar(c);
    if c < ' ' && c != '\U{08}' && c != '\t' && c != '\n' && c != '\U{0C}' && c != '\r' {
      HexDigitValue(c as int / 16);
      HexDigitValue(c as int % 16);
      assert (e + rest)[6..] == rest;
    } else if e == [c] {
      assert (e + rest)[1..] == rest;
    } else {
      assert (e + rest)[2..] == rest;
    }
  }

  /** Reading the body `JSON.stringify` writes gives back the string. */
  lemma {:induction false} QuoteBodyRoundTrip(s: string)
    ensures UnquoteBody(QuoteBody(s)) == s
    decreases |s|
  {
    if s != [] {
      UnquoteEscapeChar(s[0], QuoteBody(s[1..]));
      QuoteBodyRoundTrip(s[1..]);
    }
  }

  predicate NoLineTerminator(s: string) {
    forall k | 0 <= k < |s| :: !IsLineTerminator(s[k])
  }

  lemma NoLineTerminatorAppend(a: string, b: string)
    ensures NoLineTerminator(a + b) <==> NoLineTerminator(a) && NoLineTerminator(b)
  {
    if NoLineTerminator(a + b) {
      forall k | 0 <= k < |a|
        ensures !IsLineTerminator(a[k])
      {
        assert (a + b)[k] == a[k];
      }
      forall k | 0 <= k < |b|
        ensures !IsLineTerminator(b[k])
      {
        assert (a + b)[k + |a|] == b[k];
      }
    }
    if NoLineTerminator(a) && NoLineTerminator(b) {
      forall k | 0 <= k < |a + b|
        ensures !IsLineTerminator((a + b)[k])
      {
        if k >= |a| {
          assert (a + b)[k] == b[k - |a|];
        }
      }
    }
  }

  /** The two line terminators `JSON.stringify` leaves unescaped. */
  predicate IsSeparator(c: char) {
    c == '\U{2028}' || c == '\U{2029}'
  }

  predicate NoSeparator(s: string) {
    forall k | 0 <= k < |s| :: !IsSeparator(s[k])
  }

  lemma EscapeJsonCharLines(c: char)
    ensures NoLineTerminator(EscapeJsonChar(c)) <==> !IsSeparator(c)
  {
    var e := EscapeJsonChar(c);
    if c < ' ' && c != '\U{08}' && c != '\t' && c != '\n' && c != '\U{0C}' && c != '\r' {
      assert e == ['\\', 'u', '0', '0', e[4], e[5]];
    } else if e == [c] {
      assert |e| == 1 && e[0] == c;
      assert NoLineTerminator(e) <==> !IsLineTerminator(e[0]);
    } else {
      assert e == [e[0], e[1]] && e[0] == '\\' && !IsLineTerminator(e[1]);
    }
  }

  /** The body has no `\n` or `\r` (they are escaped), but U+2028 and U+2029 pass
      through unescaped; it is empty only for the empty string. */
  lemma {:induction false} QuoteBodyLines(s: string)
    ensures NoLineTerminator(QuoteBody(s)) <==> NoSeparator(s)
    ensures QuoteBody(s) == [] <==> s == []
    decreases |s|
  {
    if s != [] {
      QuoteBodyLines(s[1..]);
      NoLineTerminatorAppend(EscapeJsonChar(s[0]), QuoteBody(s[1..]));
      EscapeJsonCharLines(s[0]);
      if NoSeparator(s) {
        assert forall k | 0 <= k < |s| - 1 :: s[1..][k] == s[k + 1];
      }
      if !IsSeparator(s[0]) && NoSeparator(s[1..]) {
        forall k | 0 <= k < |s|
          ensures !IsSeparator(s[k])
        {
          if k > 0 {
            assert s[k] == s[1..][k - 1];
          }
        }
      }
    }
  }

  // ---------------------------------------------------------------------------
  // Template-literal interpolation `${x}`
  // ---------------------------------------------------------------------------

  /** The `TypeError` the JavaScript runtime throws. */
  datatype JsError = TypeError

  /** `String(x)` (ECMA-262 ToString): strings as they are, arrays through
      `Array.prototype.join` with commas and `null` elements left empty, and other
      objects through OrdinaryToPrimitive, which calls `Object.prototype.toString`
      ("[object Object]") unless the object has an own `toString` entry. A JSON entry
      is never callable, so then `toString` is skipped, the inherited `valueOf`
      returns the object itself, and the conversion throws. */
  function JsToString(v: JVal): Result<string, JsError>
    decreases v, 1
  {
    match v
    case JStr(s) => Success(s)
    case JNum(n) => Success(IntToString(n))
    case JBool(b) => Success(if b then "true" else "false")
    case JNull => Success("null")
    case JArr(xs) => JoinItems(xs, 0)
    case JObj(fs) => if Lookup(fs, "toString").Defined? then Failure(TypeError) else Success("[object Object]")
  }

  /** `join(",")` from index `i` on. */
  function JoinItems(xs: seq<JVal>, i: nat): Result<string, JsError>
    requires i <= |xs|
    decreases JArr(xs), 0, |xs| - i
  {
    if i == |xs| then Success("")
    else
      var head := if xs[i] == JNull then Success("") else JsToString(xs[i]);
      match head
      case Failure(e) => Failure(e)
      case Success(h) =>
        match JoinItems(xs, i + 1)
        case Failure(e) => Failure(e)
        case Success(t) => Success((if i == 0 then "" else ",") + h + t)
  }

  /** `String(p)` of a property read; `undefined` interpolates as "undefined". */
  function PropToString(p: JsProp): Result<string, JsError> {
    match p
    case Undefined => Success("undefined")
    case Defined(v) => JsToString(v)
  }

  /** Reference reading of when interpolation throws: the value is an object with an
      own `toString` entry, or an array with such a value among its elements. */
  predicate ToStringThrows(v: JVal)
    decreases v
  {
    match v
    case JObj(fs) => exists k | 0 <= k < |fs| :: fs[k].0 == "toString"
    case JArr(xs) => exists j | 0 <= j < |xs| :: ToStringThrows(xs[j])
    case _ => false
  }

  /** Interpolation throws exactly in the reference cases; otherwise primitives give
      their usual text. */
  lemma {:induction false} JsToStringFails(v: JVal)
    ensures JsToString(v).Failure? <==> ToStringThrows(v)
    ensures v.JStr? ==> JsToString(v) == Success(v.s)
    ensures v.JNum? ==> JsToString(v).Success? && ParseInt(JsToString(v).value) == v.n
    decreases v, 1
  {
    match v
    case JArr(xs) => JoinItemsFails(xs, 0);
    case JNum(n) => IntToStringRoundTrip(n);
    case _ =>
  }

  lemma {:induction false} JoinItemsFails(xs: seq<JVal>, i: nat)
    requires i <= |xs|
    ensures JoinItems(xs, i).Failure? <==> exists j | i <= j < |xs| :: ToStringThrows(xs[j])
    decreases JArr(xs), 0, |xs| - i
  {
    if i < |xs| {
      JsToStringFails(xs[i]);
      JoinItemsFails(xs, i + 1);
      if JoinItems(xs, i + 1).Failure? {
        var j :| i + 1 <= j < |xs| && ToStringThrows(xs[j]);
      }
    }
  }
}
