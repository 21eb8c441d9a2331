/** The HTML-escaping pass of `syntaxHighlight` (src/components/json.tsx:14): three global
    replacements, `&` first, then `<`, then `>`. */
module Escape {
  import opened Chars

  /** `s.replace(/c/g, rep)` for a one-character pattern. */
  function ReplaceChar(s: string, c: char, rep: string): string {
    if s == [] then [] else (if s[0] == c then rep else [s[0]]) + ReplaceChar(s[1..], c, rep)
  }

  /** The escape pass as the source chains it. */
  function EscapeHtml(s: string): string {
    ReplaceChar(ReplaceChar(ReplaceChar(s, '&', "&amp;"), '<', "&lt;"), '>', "&gt;")
  }

  /** Reference definition: each character escaped on its own. */
  function EscapeChar(c: char): string {
    if c == '&' then "&amp;" else if c == '<' then "&lt;" else if c == '>' then "&gt;" else [c]
  }

  function EscapeEach(s: string): string {
    if s == [] then [] else EscapeChar(s[0]) + EscapeEach(s[1..])
  }

  /** Inverse of the escape pass: the three entities back to their characters. */
  function UnescapeHtml(t: string): string
    decreases |t|
  {
    if t == [] then []
    else if StartsWith(t, "&amp;") then "&" + UnescapeHtml(t[5..])
    else if StartsWith(t, "&lt;") then "<" + UnescapeHtml(t[4..])
    else if StartsWith(t, "&gt;") then ">" + UnescapeHtml(t[4..])
    else [t[0]] + UnescapeHtml(t[1..])
  }

  /** The entity `&amp;`, `&lt;` or `&gt;` begins at position `k` of `t`. */
  predicate EntityAt(t: string, k: nat)
    requires k <= |t|
  {
    StartsWith(t[k..], "&amp;") || StartsWith(t[k..], "&lt;") || StartsWith(t[k..], "&gt;")
  }

  lemma {:induction false} ReplaceCharAppend(a: string, b: string, c: char, rep: string)
    ensures ReplaceChar(a + b, c, rep) == ReplaceChar(a, c, rep) + ReplaceChar(b, c, rep)
  {
    if a == [] {
      assert a + b == b;
    } else {
      assert (a + b)[1..] == a[1..] + b;
      ReplaceCharAppend(a[1..], b, c, rep);
    }
  }

  /** The three chained replacements escape each character independently: replacing `&`
      first means the `&` of the later entities is never escaped again. */
  lemma {:induction false} EscapeHtmlIsPerCharacter(s: string)
    ensures EscapeHtml(s) == EscapeEach(s)
  {
    if s != [] {
      var x := s[0];
      var rest := s[1..];
      var amp := if x == '&' then "&amp;" else [x];
      assert ReplaceChar(s, '&', "&amp;") == amp + ReplaceChar(rest, '&', "&amp;");
      ReplaceCharAppend(amp, ReplaceChar(rest, '&', "&amp;"), '<', "&lt;");
      var lt := if x == '<' then "&lt;" else amp;
      assert ReplaceChar(amp, '<', "&lt;") == lt;
      ReplaceCharAppend(lt, ReplaceChar(ReplaceChar(rest, '&', "&amp;"), '<', "&lt;"), '>', "&gt;");
      assert ReplaceChar(lt, '>', "&gt;") == EscapeChar(x);
      EscapeHtmlIsPerCharacter(rest);
    }
  }

  /** Un-escaping reads one escaped character back and goes on with the rest. */
  lemma UnescapeEscapeChar(c: char, rest: string)
    ensures UnescapeHtml(EscapeChar(c) + rest) == [c] + UnescapeHtml(rest)
  {
    if c == '&' {
      UnescapeEntity("&amp;", "&", rest);
    } else if c == '<' {
      UnescapeEntity("&lt;", "<", rest);
    } else if c == '>' {
      UnescapeEntity("&gt;", ">", rest);
    } else {
      var t := [c] + rest;
      assert t[0] == c && t[1..] == rest;
    }
  }

  lemma UnescapeEntity(entity: string, c: string, rest: string)
    requires (entity, c) in {("&amp;", "&"), ("&lt;", "<"), ("&gt;", ">")}
    ensures UnescapeHtml(entity + rest) == c + UnescapeHtml(rest)
  {
    var t := entity + rest;
    assert t[..|entity|] == entity && t[|entity|..] == rest;
    assert t[1] == entity[1];
  }

  /** Un-escaping the escaped text gives back the original input. */
  lemma {:induction false} UnescapeEscapeEach(s: string)
    ensures UnescapeHtml(EscapeEach(s)) == s
  {
    if s != [] {
      assert EscapeEach(s) == EscapeChar(s[0]) + EscapeEach(s[1..]);
      UnescapeEscapeChar(s[0], EscapeEach(s[1..]));
      UnescapeEscapeEach(s[1..]);
      assert s == [s[0]] + s[1..];
    }
  }

  lemma UnescapeEscape(s: string)
    ensures UnescapeHtml(EscapeHtml(s)) == s
  {
    EscapeHtmlIsPerCharacter(s);
    UnescapeEscapeEach(s);
  }

  lemma {:induction false} EscapeEachNoAngles(s: string)
    ensures '<' !in EscapeEach(s) && '>' !in EscapeEach(s)
  {
    if s != [] {
      EscapeEachNoAngles(s[1..]);
      assert EscapeEach(s) == EscapeChar(s[0]) + EscapeEach(s[1..]);
    }
  }

  /** After the escape pass the text holds no `<` and no `>`. */
  lemma EscapeHtmlNoAngles(s: string)
    ensures '<' !in EscapeHtml(s) && '>' !in EscapeHtml(s)
  {
    EscapeHtmlIsPerCharacter(s);
    EscapeEachNoAngles(s);
  }

  lemma {:induction false} EscapeEachEntities(s: string)
    ensures forall k | 0 <= k < |EscapeEach(s)| && EscapeEach(s)[k] == '&' :: EntityAt(EscapeEach(s), k)
  {
    if s != [] {
      var e := EscapeChar(s[0]);
      var rest := EscapeEach(s[1..]);
      var t := EscapeEach(s);
      assert t == e + rest;
      EscapeEachEntities(s[1..]);
      forall k | 0 <= k < |t| && t[k] == '&'
        ensures EntityAt(t, k)
      {
        if k < |e| {
          if s[0] == '&' {
            assert t[..5] == "&amp;";
          } else if s[0] == '<' {
            assert t[..4] == "&lt;";
          } else {
            assert t[..4] == "&gt;";
          }
        } else {
          assert rest[k - |e|] == '&';
          assert EntityAt(rest, k - |e|);
          assert t[k..] == rest[k - |e|..];
        }
      }
    }
  }

  /** Every `&` left by the escape pass begins `&amp;`, `&lt;` or `&gt;`. */
  lemma EscapeHtmlEntities(s: string)
    ensures forall k | 0 <= k < |EscapeHtml(s)| && EscapeHtml(s)[k] == '&' :: EntityAt(EscapeHtml(s), k)
  {
    EscapeHtmlIsPerCharacter(s);
    EscapeEachEntities(s);
  }

  /** The order of the chain matters: escaping `<` before `&` would escape the `&` of `&lt;`
      a second time. */
  lemma AmpersandMustComeFirst()
    ensures ReplaceChar(ReplaceChar("<", '<', "&lt;"), '&', "&amp;") == "&amp;lt;"
    ensures EscapeHtml("<") == "&lt;"
  {
    assert ReplaceChar("<", '<', "&lt;") == "&lt;";
    assert ReplaceChar("&lt;", '&', "&amp;") == "&amp;lt;" by {
      assert "&lt;"[1..] == "lt;";
      assert ReplaceChar("lt;", '&', "&amp;") == "lt;" by {
        assert "lt;"[1..] == "t;";
        assert "t;"[1..] == ";";
        assert ";"[1..] == [];
      }
    }
    EscapeHtmlIsPerCharacter("<");
    assert "<"[1..] == [];
  }

  lemma {:induction false} EscapeEachIdentity(s: string)
    requires '&' !in s && '<' !in s && '>' !in s
    ensures EscapeEach(s) == s
  {
    if s != [] {
      EscapeEachIdentity(s[1..]);
      assert s == [s[0]] + s[1..];
    }
  }

  /** Text with no `&`, `<` or `>` passes through the escape pass unchanged. */
  lemma EscapeHtmlIdentity(s: string)
    requires '&' !in s && '<' !in s && '>' !in s
    ensures EscapeHtml(s) == s
  {
    EscapeHtmlIsPerCharacter(s);
    EscapeEachIdentity(s);
  }
}
