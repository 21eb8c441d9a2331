/** The text a key label copies (src/components/json.tsx:110): the value's
    `JSON.stringify` form with `.replace(/^"(.+)"$/, "$1")` applied. */
module CopyText {
  import opened Chars
  import opened Json

  /** The pattern `^"(.+)"$` matches the whole text: a quote, at least one character
      that `.` accepts (anything but a line terminator, quotes included), a quote. */
  predicate IsQuoted(ser: string) {
    |ser| >= 3 && ser[0] == '"' && ser[|ser| - 1] == '"' && NoLineTerminator(ser[1..|ser| - 1])
  }

  /** The replacement: the captured middle when the pattern matches, the text itself
      otherwise. */
  function CopyText(ser: string): (r: string)
    ensures IsQuoted(ser) ==> |r| == |ser| - 2
  {
    if IsQuoted(ser) then ser[1..|ser| - 1] else ser
  }

  /** The text a label copies for a value. */
  function CopiedText(v: JVal): string {
    CopyText(Stringify(v))
  }

  /** Stripping happens exactly when the pattern matches, and it removes the first and
      the last character and nothing else. */
  lemma CopyTextStrips(ser: string)
    ensures CopyText(ser) != ser <==> IsQuoted(ser)
    ensures IsQuoted(ser) ==> ser == "\"" + CopyText(ser) + "\""
    ensures !IsQuoted(ser) ==> CopyText(ser) == ser
  {
  }

  /** A string value copies as its JSON-escaped body without the quotes, unless it is
      empty or holds U+2028 or U+2029, which `JSON.stringify` writes raw and `.`
      refuses: then the quotes stay. Reading the copied body back gives the string. */
  lemma CopiedString(s: string)
    ensures s != [] && NoSeparator(s) ==> CopiedText(JStr(s)) == QuoteBody(s)
    ensures s == [] || !NoSeparator(s) ==> CopiedText(JStr(s)) == "\"" + QuoteBody(s) + "\""
    ensures s != [] && NoSeparator(s) ==> UnquoteBody(CopiedText(JStr(s))) == s
  {
    var ser := Stringify(JStr(s));
    QuoteBodyLines(s);
    QuoteBodyRoundTrip(s);
    assert ser[1..|ser| - 1] == QuoteBody(s);
    if s != [] {
      assert |QuoteBody(s)| >= 1;
    }
  }

  /** Numbers, booleans, null, arrays and objects copy as their full serialisation. */
  lemma CopiedNonString(v: JVal)
    requires !v.JStr?
    ensures CopiedText(v) == Stringify(v)
  {
    StringifyHead(v);
  }

  /** Examples: `"hi"` copies `hi`, `42` copies `42`, `""` copies `""`. */
  lemma CopiedExamples()
    ensures CopiedText(JStr("hi")) == "hi"
    ensures CopiedText(JNum(42)) == "42"
    ensures CopiedText(JStr("")) == "\"\""
  {
    CopiedWord();
    CopiedNumber();
    CopiedString("");
  }

  lemma CopiedWord()
    ensures CopiedText(JStr("hi")) == "hi"
  {
    CopiedString("hi");
    assert QuoteBody("hi") == "hi";
  }

  lemma CopiedNumber()
    ensures CopiedText(JNum(42)) == "42"
  {
    CopiedNonString(JNum(42));
    assert NatToString(42) == NatToString(4) + [DigitChar(2)];
  }
}
