/** The token pass of `syntaxHighlight` (src/components/json.tsx:16-33): a global
    `replace` with the regular expression
      ("(\\u[a-zA-Z0-9]{4}|\\[^u]|[^\\"])*"(\s*:)?|\b(true|false|null)\b|-?\d+(?:\.\d*)?(?:[eE][+\-]?\d+)?)
    written out as an explicit left-to-right scanner, and the callback that wraps each
    match in a classed span. */
module Highlight {
  import opened Wrappers
  import opened Chars
  import opened Escape

  // ---------------------------------------------------------------------------
  // Classes (the callback, lines 18-32)
  // ---------------------------------------------------------------------------

  datatype Class = Key | Str | Boolean | Null | Number

  function ClassName(c: Class): string {
    match c
    case Key => "key"
    case Str => "string"
    case Boolean => "boolean"
    case Null => "null"
    case Number => "number"
  }

  /** The class the callback picks from the text of a match: `/^"/`, then `/:$/`, then
      `/true|false/`, then `/null/`, else the initial "number". */
  function ClassOf(m: string): Class {
    if StartsWith(m, "\"") then (if m != [] && m[|m| - 1] == ':' then Key else Str)
    else if Contains(m, "true") || Contains(m, "false") then Boolean
    else if Contains(m, "null") then Null
    else Number
  }

  // ---------------------------------------------------------------------------
  // The token grammar, stated independently of the scanner
  // ---------------------------------------------------------------------------

  /** `(\\u[a-zA-Z0-9]{4}|\\[^u]|[^\\"])*`: a sequence of units, each an escape `\uXXXX`,
      a backslash with any character but `u`, or a character other than `\` and `"`. */
  predicate IsStringBody(b: string)
    decreases |b|
  {
    || b == []
    || (|b| >= 6 && b[0] == '\\' && b[1] == 'u'
        && IsAlnum(b[2]) && IsAlnum(b[3]) && IsAlnum(b[4]) && IsAlnum(b[5])
        && IsStringBody(b[6..]))
    || (|b| >= 2 && b[0] == '\\' && b[1] != 'u' && IsStringBody(b[2..]))
    || (b[0] != '\\' && b[0] != '"' && IsStringBody(b[1..]))
  }

  /** A quoted string not followed by a colon. */
  predicate IsStringToken(m: string) {
    |m| >= 2 && m[0] == '"' && m[|m| - 1] == '"' && IsStringBody(m[1..|m| - 1])
  }

  predicate AllSpaces(s: string) {
    forall k | 0 <= k < |s| :: IsSpace(s[k])
  }

  /** A quoted string followed by optional whitespace and a colon, all in one match. */
  predicate IsKeyToken(m: string) {
    exists e | 1 <= e < |m| - 1 ::
      m[0] == '"' && m[e] == '"' && IsStringBody(m[1..e]) && AllSpaces(m[e + 1..|m| - 1])
      && m[|m| - 1] == ':'
  }

  predicate IsKeyword(m: string) {
    m == "true" || m == "false" || m == "null"
  }

  predicate AllDigits(s: string) {
    forall k | 0 <= k < |s| :: IsDigit(s[k])
  }

  predicate IsFraction(s: string) {
    s == [] || (s[0] == '.' && AllDigits(s[1..]))
  }

  predicate IsExponent(s: string) {
    || s == []
    || (|s| >= 2 && (s[0] == 'e' || s[0] == 'E')
        && ((s[1..] != [] && AllDigits(s[1..]))
            || ((s[1] == '+' || s[1] == '-') && s[2..] != [] && AllDigits(s[2..]))))
  }

  /** `-?\d+(?:\.\d*)?(?:[eE][+\-]?\d+)?`: sign, integer part, fraction, exponent. */
  predicate IsNumberToken(m: string) {
    exists a, b, c | 0 <= a <= b <= c <= |m| ::
      (a == 0 || (a == 1 && m[0] == '-')) && a < b && AllDigits(m[a..b])
      && IsFraction(m[b..c]) && IsExponent(m[c..])
  }

  /** A text one of the regular expression's alternatives can match. */
  predicate IsToken(m: string) {
    IsKeyToken(m) || IsStringToken(m) || IsKeyword(m) || IsNumberToken(m)
  }

  /** The class table the callback is meant to implement. */
  predicate ClassTable(cls: Class, m: string) {
    && (IsKeyToken(m) ==> cls == Key)
    && (IsStringToken(m) ==> cls == Str)
    && ((m == "true" || m == "false") ==> cls == Boolean)
    && (m == "null" ==> cls == Null)
    && (IsNumberToken(m) ==> cls == Number)
  }

  // ---------------------------------------------------------------------------
  // The scanner
  // ---------------------------------------------------------------------------

  /** One iteration of the string body group at position `p`, if any alternative matches. */
  function UnitEnd(t: string, p: nat): (r: Option<nat>)
    requires p <= |t|
    ensures r.Some? ==> p < r.value <= |t|
  {
    if p < |t| && t[p] == '\\' then
      if p + 1 < |t| && t[p + 1] == 'u' then
        if p + 6 <= |t| && IsAlnum(t[p + 2]) && IsAlnum(t[p + 3]) && IsAlnum(t[p + 4]) && IsAlnum(t[p + 5])
        then Some(p + 6)
        else None
      else if p + 1 < |t| then Some(p + 2)
      else None
    else if p < |t| && t[p] != '"' then Some(p + 1)
    else None
  }

  /** The greedy `*` over the body group. The units never overlap in what they accept, so
      no backtracking is needed. */
  function BodyEnd(t: string, p: nat): (e: nat)
    requires p <= |t|
    ensures p <= e <= |t|
    decreases |t| - p
  {
    match UnitEnd(t, p)
    case Some(q) => BodyEnd(t, q)
    case None => p
  }

  /** Greedy `\s*`. */
  function SpacesEnd(t: string, p: nat): (e: nat)
    requires p <= |t|
    ensures p <= e <= |t| && AllSpaces(t[p..e])
    ensures e == |t| || !IsSpace(t[e])
    decreases |t| - p
  {
    if p < |t| && IsSpace(t[p]) then SpacesEnd(t, p + 1) else p
  }

  /** First alternative: `"` body `"` then, when present, `\s*:`. */
  function StringMatch(t: string, i: nat): (r: Option<nat>)
    requires i <= |t|
    ensures r.Some? ==> i < r.value <= |t|
  {
    if i < |t| && t[i] == '"' then
      var b := BodyEnd(t, i + 1);
      if b < |t| && t[b] == '"' then
        var w := SpacesEnd(t, b + 1);
        Some(if w < |t| && t[w] == ':' then w + 1 else b + 1)
      else None
    else None
  }

  predicate IsWordAt(t: string, k: int) {
    0 <= k < |t| && IsWordChar(t[k])
  }

  /** `\b` at position `k`: the characters on either side differ in being word characters. */
  predicate Boundary(t: string, k: int) {
    IsWordAt(t, k - 1) != IsWordAt(t, k)
  }

  /** Second alternative: `\b(true|false|null)\b`. */
  function KeywordMatch(t: string, i: nat): (r: Option<nat>)
    requires i <= |t|
    ensures r.Some? ==> i < r.value <= |t|
  {
    if !Boundary(t, i) then None
    else if StartsWith(t[i..], "true") && Boundary(t, i + 4) then Some(i + 4)
    else if StartsWith(t[i..], "false") && Boundary(t, i + 5) then Some(i + 5)
    else if StartsWith(t[i..], "null") && Boundary(t, i + 4) then Some(i + 4)
    else None
  }

  /** Greedy `\d*`: the end of the longest run of digits from `p`. */
  function DigitsEnd(t: string, p: nat): (e: nat)
    requires p <= |t|
    ensures p <= e <= |t| && AllDigits(t[p..e])
    ensures e == |t| || !IsDigit(t[e])
    decreases |t| - p
  {
    if p < |t| && IsDigit(t[p]) then DigitsEnd(t, p + 1) else p
  }

  /** `(?:\.\d*)?`. */
  function FractionEnd(t: string, d: nat): (f: nat)
    requires d <= |t|
    ensures d <= f <= |t|
  {
    if d < |t| && t[d] == '.' then DigitsEnd(t, d + 1) else d
  }

  /** `(?:[eE][+\-]?\d+)?`: taken only when digits follow the marker and optional sign. */
  function ExponentEnd(t: string, f: nat): (e: nat)
    requires f <= |t|
    ensures f <= e <= |t|
  {
    if f < |t| && (t[f] == 'e' || t[f] == 'E') then
      var s := if f + 1 < |t| && (t[f + 1] == '+' || t[f + 1] == '-') then f + 2 else f + 1;
      var d := DigitsEnd(t, s);
      if d > s then d else f
    else f
  }

  /** Third alternative: `-?\d+(?:\.\d*)?(?:[eE][+\-]?\d+)?`, with no boundary check. */
  function NumberMatch(t: string, i: nat): (r: Option<nat>)
    requires i <= |t|
    ensures r.Some? ==> i < r.value <= |t|
  {
    var p := if i < |t| && t[i] == '-' then i + 1 else i;
    var d := DigitsEnd(t, p);
    if d == p then None
    else
      Some(ExponentEnd(t, FractionEnd(t, d)))
  }

  /** The alternatives tried in order at position `i`. */
  function MatchAt(t: string, i: nat): (r: Option<nat>)
    requires i <= |t|
    ensures r.Some? ==> i < r.value <= |t|
  {
    var s := StringMatch(t, i);
    if s.Some? then s
    else
      var k := KeywordMatch(t, i);
      if k.Some? then k else NumberMatch(t, i)
  }

  /** What the global replace does with each stretch of the text: a character no alternative
      matches at its position, or a match with the class the callback chose. */
  datatype Piece = Unmatched(c: char) | Span(cls: Class, text: string)

  /** The global search from position `i`: a match at `i` is replaced and the search resumes
      at its end; otherwise the character at `i` is kept and the search moves on by one. */
  function Scan(t: string, i: nat): seq<Piece>
    requires i <= |t|
    decreases |t| - i
  {
    if i == |t| then []
    else match MatchAt(t, i)
      case Some(j) => [Span(ClassOf(t[i..j]), t[i..j])] + Scan(t, j)
      case None => [Unmatched(t[i])] + Scan(t, i + 1)
  }

  function PieceText(p: Piece): string {
    match p
    case Unmatched(c) => [c]
    case Span(_, m) => m
  }

  function Texts(ps: seq<Piece>): string {
    if ps == [] then [] else PieceText(ps[0]) + Texts(ps[1..])
  }

  function OpenTag(c: Class): string {
    "<span class=\"" + ClassName(c) + "\">"
  }

  const CloseTag: string := "</span>"

  function PieceHtml(p: Piece): string {
    match p
    case Unmatched(c) => [c]
    case Span(cls, m) => OpenTag(cls) + m + CloseTag
  }

  function Html(ps: seq<Piece>): string {
    if ps == [] then [] else PieceHtml(ps[0]) + Html(ps[1..])
  }

  /** `syntaxHighlight`: escape, then wrap every token in a classed span. */
  function SyntaxHighlight(json: string): string {
    Html(Scan(EscapeHtml(json), 0))
  }

  // ---------------------------------------------------------------------------
  // Removing markup: an independent reading of the output
  // ---------------------------------------------------------------------------

  /** Drops everything up to and including the first `>`. */
  function SkipTag(s: string): (r: string)
    ensures |r| <= |s|
  {
    if s == [] then [] else if s[0] == '>' then s[1..] else SkipTag(s[1..])
  }

  /** Deletes every `<...>` tag from `s`. */
  function StripTags(s: string): string
    decreases |s|
  {
    if s == [] then []
    else if s[0] == '<' then StripTags(SkipTag(s[1..]))
    else [s[0]] + StripTags(s[1..])
  }
}
