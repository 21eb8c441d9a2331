/** What `syntaxHighlight` (src/components/json.tsx:13-34) promises, proved about the
    scanner of module Highlight. */
module HighlightLemmas {
  import opened Wrappers
  import opened Chars
  import opened Escape
  import opened Highlight

  // ---------------------------------------------------------------------------
  // String alternative: the greedy scan is the only way the regex can match
  // ---------------------------------------------------------------------------

  /** What the greedy body scan consumes is a sequence of units of the grammar. */
  lemma {:induction false} BodyEndSound(t: string, p: nat)
    requires p <= |t|
    ensures IsStringBody(t[p..BodyEnd(t, p)])
    decreases |t| - p
  {
    match UnitEnd(t, p)
    case None =>
      assert t[p..p] == [];
    case Some(q) =>
      BodyEndSound(t, q);
      var e := BodyEnd(t, q);
      var b := t[p..e];
      assert b[q - p..] == t[q..e];
      if t[p] == '\\' && t[p + 1] == 'u' {
        assert q == p + 6 && b[0] == '\\' && b[1] == 'u';
        assert b[2] == t[p + 2] && b[3] == t[p + 3] && b[4] == t[p + 4] && b[5] == t[p + 5];
      } else if t[p] == '\\' {
        assert q == p + 2 && b[0] == '\\' && b[1] != 'u';
      } else {
        assert q == p + 1 && b[0] == t[p];
      }
  }

  /** No backtracking is needed: any body the grammar accepts that is followed by the closing
      quote is exactly the one the greedy scan finds. */
  lemma {:induction false} BodyEndUnique(t: string, p: nat, e: nat)
    requires p <= e < |t| && t[e] == '"' && IsStringBody(t[p..e])
    ensures BodyEnd(t, p) == e
    decreases e - p
  {
    var b := t[p..e];
    if b == [] {
      assert p == e;
      assert UnitEnd(t, p) == None;
    } else if |b| >= 6 && b[0] == '\\' && b[1] == 'u' && IsAlnum(b[2]) && IsAlnum(b[3])
                && IsAlnum(b[4]) && IsAlnum(b[5]) && IsStringBody(b[6..]) {
      assert UnitEnd(t, p) == Some(p + 6);
      assert b[6..] == t[p + 6..e];
      BodyEndUnique(t, p + 6, e);
    } else if |b| >= 2 && b[0] == '\\' && b[1] != 'u' && IsStringBody(b[2..]) {
      assert UnitEnd(t, p) == Some(p + 2);
      assert b[2..] == t[p + 2..e];
      BodyEndUnique(t, p + 2, e);
    } else {
      assert b[0] != '\\' && b[0] != '"' && IsStringBody(b[1..]);
      assert UnitEnd(t, p) == Some(p + 1);
      assert b[1..] == t[p + 1..e];
      BodyEndUnique(t, p + 1, e);
    }
  }

  lemma KeyTokenIntro(m: string, e: nat)
    requires 1 <= e < |m| - 1 && m[0] == '"' && m[e] == '"' && m[|m| - 1] == ':'
    requires IsStringBody(m[1..e]) && AllSpaces(m[e + 1..|m| - 1])
    ensures IsKeyToken(m)
  {
  }

  lemma StringTokenAt(t: string, i: nat, b: nat)
    requires i < b < |t| && t[i] == '"' && t[b] == '"' && IsStringBody(t[i + 1..b])
    ensures IsStringToken(t[i..b + 1])
  {
    SliceOfSlice(t, i, b + 1, 1, b - i);
  }

  lemma KeyTokenAt(t: string, i: nat, b: nat, w: nat)
    requires i < b < w < |t| && t[i] == '"' && t[b] == '"' && t[w] == ':'
    requires IsStringBody(t[i + 1..b]) && AllSpaces(t[b + 1..w])
    ensures IsKeyToken(t[i..w + 1])
  {
    SliceOfSlice(t, i, w + 1, 1, b - i);
    SliceOfSlice(t, i, w + 1, b - i + 1, w - i);
    KeyTokenIntro(t[i..w + 1], b - i);
  }

  /** A string match is a quoted string, or a quoted string with whitespace and a colon. */
  lemma StringMatchSound(t: string, i: nat)
    requires i <= |t| && StringMatch(t, i).Some?
    ensures IsStringToken(t[i..StringMatch(t, i).value]) || IsKeyToken(t[i..StringMatch(t, i).value])
  {
    var b := BodyEnd(t, i + 1);
    BodyEndSound(t, i + 1);
    var w := SpacesEnd(t, b + 1);
    if w < |t| && t[w] == ':' {
      KeyTokenAt(t, i, b, w);
    } else {
      StringTokenAt(t, i, b);
    }
  }

  /** Whenever the text at `i` is a quoted string the grammar accepts, the first alternative
      matches there, through at least the closing quote. */
  lemma StringMatchComplete(t: string, i: nat, e: nat)
    requires i < e < |t| && t[i] == '"' && t[e] == '"' && IsStringBody(t[i + 1..e])
    ensures StringMatch(t, i).Some? && StringMatch(t, i).value > e
  {
    BodyEndUnique(t, i + 1, e);
  }

  // ---------------------------------------------------------------------------
  // Keyword alternative
  // ---------------------------------------------------------------------------

  /** The second alternative matches exactly a keyword with a word boundary on each side. */
  lemma KeywordMatchIff(t: string, i: nat, j: nat)
    requires i <= j <= |t|
    ensures KeywordMatch(t, i) == Some(j) <==> IsKeyword(t[i..j]) && Boundary(t, i) && Boundary(t, j)
  {
    if KeywordMatch(t, i) == Some(j) {
      assert t[i..j] == t[i..][..j - i];
    }
    if IsKeyword(t[i..j]) && Boundary(t, i) && Boundary(t, j) {
      assert t[i..][..j - i] == t[i..j];
      if t[i..j] == "false" {
        assert t[i] == 'f';
        assert !StartsWith(t[i..], "true");
      } else if t[i..j] == "null" {
        assert t[i] == 'n';
        assert !StartsWith(t[i..], "true") && !StartsWith(t[i..], "false");
      }
    }
  }

  // ---------------------------------------------------------------------------
  // Number alternative: the scan returns a number token, the longest one
  // ---------------------------------------------------------------------------

  lemma {:induction false} DigitsEndAtLeast(t: string, p: nat, q: nat)
    requires p <= q <= |t| && AllDigits(t[p..q])
    ensures DigitsEnd(t, p) >= q
    decreases q - p
  {
    if p < q {
      assert t[p] == t[p..q][0];
      assert t[p + 1..q] == t[p..q][1..];
      DigitsEndAtLeast(t, p + 1, q);
    }
  }

  lemma NumberTokenIntro(m: string, a: nat, b: nat, c: nat)
    requires a <= b <= c <= |m| && (a == 0 || (a == 1 && m[0] == '-')) && a < b
    requires AllDigits(m[a..b]) && IsFraction(m[b..c]) && IsExponent(m[c..])
    ensures IsNumberToken(m)
  {
  }

  lemma FractionEndSound(t: string, d: nat)
    requires d <= |t|
    ensures IsFraction(t[d..FractionEnd(t, d)])
  {
    var f := FractionEnd(t, d);
    if f > d {
      SliceOfSlice(t, d, f, 1, f - d);
    }
  }

  lemma ExponentEndSound(t: string, f: nat)
    requires f <= |t|
    ensures IsExponent(t[f..ExponentEnd(t, f)])
  {
    var j := ExponentEnd(t, f);
    if j > f {
      var s := if f + 1 < |t| && (t[f + 1] == '+' || t[f + 1] == '-') then f + 2 else f + 1;
      SliceOfSlice(t, f, j, s - f, j - f);
      if s == f + 1 {
        assert t[f..j][1..] == t[f..j][1..j - f];
      } else {
        assert t[f..j][2..] == t[f..j][2..j - f];
      }
    }
  }

  lemma DigitsWithin(t: string, i: nat, j: nat, a: nat, b: nat)
    requires i <= j <= |t| && a <= b <= j - i
    ensures AllDigits(t[i..j][a..b]) <==> AllDigits(t[i + a..i + b])
  {
    SliceOfSlice(t, i, j, a, b);
  }

  lemma FractionWithin(t: string, i: nat, j: nat, a: nat, b: nat)
    requires i <= j <= |t| && a <= b <= j - i
    ensures IsFraction(t[i..j][a..b]) <==> IsFraction(t[i + a..i + b])
  {
    SliceOfSlice(t, i, j, a, b);
  }

  lemma ExponentWithin(t: string, i: nat, j: nat, c: nat)
    requires i <= j <= |t| && c <= j - i
    ensures IsExponent(t[i..j][c..]) <==> IsExponent(t[i + c..j])
  {
    SliceOfSlice(t, i, j, c, j - i);
    assert t[i..j][c..] == t[i..j][c..j - i];
  }

  lemma NumberTokenAt(t: string, i: nat, p: nat, d: nat, f: nat, j: nat)
    requires i <= p <= i + 1 && p < d <= f <= j <= |t| && (p == i || t[i] == '-')
    requires AllDigits(t[p..d]) && IsFraction(t[d..f]) && IsExponent(t[f..j])
    ensures IsNumberToken(t[i..j])
  {
    DigitsWithin(t, i, j, p - i, d - i);
    FractionWithin(t, i, j, d - i, f - i);
    ExponentWithin(t, i, j, f - i);
    NumberTokenIntro(t[i..j], p - i, d - i, f - i);
  }

  /** The third alternative's match is a number token. */
  lemma NumberMatchSound(t: string, i: nat)
    requires i <= |t| && NumberMatch(t, i).Some?
    ensures IsNumberToken(t[i..NumberMatch(t, i).value])
  {
    var p := if i < |t| && t[i] == '-' then i + 1 else i;
    var d := DigitsEnd(t, p);
    var f := FractionEnd(t, d);
    FractionEndSound(t, d);
    ExponentEndSound(t, f);
    NumberTokenAt(t, i, p, d, f, ExponentEnd(t, f));
  }

  lemma FractionEndLongest(t: string, d: nat, c: nat)
    requires d <= c <= |t| && IsFraction(t[d..c])
    ensures FractionEnd(t, d) >= c
  {
    if c > d {
      assert t[d] == t[d..c][0];
      SliceOfSlice(t, d, c, 1, c - d);
      DigitsEndAtLeast(t, d + 1, c);
    }
  }

  lemma FractionEndChars(t: string, d: nat, k: nat)
    requires d <= k && d <= |t| && k < FractionEnd(t, d)
    ensures t[k] == '.' || IsDigit(t[k])
  {
    if k > d {
      assert t[k] == t[d + 1..FractionEnd(t, d)][k - d - 1];
    }
  }

  lemma ExponentEndLongest(t: string, f: nat, j: nat)
    requires f <= j <= |t| && IsExponent(t[f..j])
    ensures ExponentEnd(t, f) >= j
  {
    var x := t[f..j];
    if x != [] {
      assert t[f] == x[0];
      if x[1..] != [] && AllDigits(x[1..]) {
        SliceOfSlice(t, f, j, 1, j - f);
        assert x[1..] == x[1..j - f];
        assert IsDigit(t[f + 1]) by { assert t[f + 1] == x[1..][0]; }
        DigitsEndAtLeast(t, f + 1, j);
      } else {
        SliceOfSlice(t, f, j, 2, j - f);
        assert x[2..] == x[2..j - f];
        assert t[f + 1] == x[1];
        DigitsEndAtLeast(t, f + 2, j);
      }
    }
  }

  lemma NumberTokenParts(m: string) returns (a: nat, b: nat, c: nat)
    requires IsNumberToken(m)
    ensures a <= b <= c <= |m| && (a == 0 || (a == 1 && m[0] == '-')) && a < b
    ensures AllDigits(m[a..b]) && IsFraction(m[b..c]) && IsExponent(m[c..])
  {
    a, b, c :| 0 <= a <= b <= c <= |m| && (a == 0 || (a == 1 && m[0] == '-')) && a < b
      && AllDigits(m[a..b]) && IsFraction(m[b..c]) && IsExponent(m[c..]);
  }

  /** The parts of a number token, as positions in the scanned text. */
  lemma NumberTokenSplit(t: string, i: nat, j: nat) returns (p: nat, B: nat, C: nat)
    requires i <= j <= |t| && IsNumberToken(t[i..j])
    ensures i <= p <= i + 1 && p < B <= C <= j
    ensures (p == i + 1 ==> t[i] == '-') && (p == i ==> IsDigit(t[i]))
    ensures AllDigits(t[p..B]) && IsFraction(t[B..C]) && IsExponent(t[C..j])
  {
    var a, b, c := NumberTokenParts(t[i..j]);
    p, B, C := PartsInText(t, i, j, a, b, c);
  }

  lemma PartsInText(t: string, i: nat, j: nat, a: nat, b: nat, c: nat) returns (p: nat, B: nat, C: nat)
    requires i <= j <= |t| && a <= b <= c <= j - i && (a == 0 || (a == 1 && t[i..j][0] == '-')) && a < b
    requires AllDigits(t[i..j][a..b]) && IsFraction(t[i..j][b..c]) && IsExponent(t[i..j][c..])
    ensures p == i + a && B == i + b && C == i + c
    ensures (p == i + 1 ==> t[i] == '-') && (p == i ==> IsDigit(t[i]))
    ensures AllDigits(t[p..B]) && IsFraction(t[B..C]) && IsExponent(t[C..j])
  {
    p, B, C := i + a, i + b, i + c;
    DigitsWithin(t, i, j, a, b);
    FractionWithin(t, i, j, b, c);
    ExponentWithin(t, i, j, c);
    assert IsDigit(t[p]) by { assert t[p] == t[p..B][0]; }
  }

  lemma NoFractionAt(t: string, b: nat, c: nat)
    requires b <= c <= |t| && IsFraction(t[b..c]) && (b < |t| ==> t[b] != '.')
    ensures c == b
  {
  }

  lemma NoExponentAt(t: string, c: nat, j: nat)
    requires c <= j <= |t| && IsExponent(t[c..j]) && (c < |t| ==> t[c] != 'e' && t[c] != 'E')
    ensures j == c
  {
  }

  /** Whenever a number token starts at `i`, the third alternative matches there and takes
      at least all of it: greedy matching is longest matching for this alternative. */
  lemma NumberMatchLongest(t: string, i: nat, j: nat)
    requires i <= j <= |t| && IsNumberToken(t[i..j])
    ensures NumberMatch(t, i).Some? && NumberMatch(t, i).value >= j
  {
    var p, B, C := NumberTokenSplit(t, i, j);
    NumberMatchCovers(t, i, p, B, C, j);
  }

  lemma NumberMatchCovers(t: string, i: nat, p: nat, B: nat, C: nat, j: nat)
    requires i <= p <= i + 1 && p < B <= C <= j <= |t|
    requires (p == i + 1 ==> t[i] == '-') && (p == i ==> IsDigit(t[i]))
    requires AllDigits(t[p..B]) && IsFraction(t[B..C]) && IsExponent(t[C..j])
    ensures NumberMatch(t, i).Some? && NumberMatch(t, i).value >= j
  {
    DigitsEndAtLeast(t, p, B);
    var d := DigitsEnd(t, p);
    var f := FractionEnd(t, d);
    assert NumberMatch(t, i) == Some(ExponentEnd(t, f));
    if d > B {
      // A digit follows the token's integer part: the token has no fraction and no exponent.
      assert IsDigit(t[B]) by { assert t[B] == t[p..d][B - p]; }
      NoFractionAt(t, B, C);
      NoExponentAt(t, C, j);
    } else {
      FractionEndLongest(t, d, C);
      if f > C {
        FractionEndChars(t, d, C);
        NoExponentAt(t, C, j);
      } else {
        ExponentEndLongest(t, C, j);
      }
    }
  }

  // ---------------------------------------------------------------------------
  // The callback's class table
  // ---------------------------------------------------------------------------

  predicate NumberChar(c: char) {
    IsDigit(c) || c == '-' || c == '+' || c == '.' || c == 'e' || c == 'E'
  }

  predicate AllNumberChars(s: string) {
    forall k | 0 <= k < |s| :: NumberChar(s[k])
  }

  lemma FractionNumberChars(s: string)
    requires IsFraction(s)
    ensures AllNumberChars(s)
  {
    forall k | 0 <= k < |s| ensures NumberChar(s[k]) {
      if k > 0 {
        assert s[k] == s[1..][k - 1];
      }
    }
  }

  lemma ExponentNumberChars(s: string)
    requires IsExponent(s)
    ensures AllNumberChars(s)
  {
    forall k | 0 <= k < |s| ensures NumberChar(s[k]) {
      if k > 1 {
        if s[1..] != [] && AllDigits(s[1..]) {
          assert s[k] == s[1..][k - 1];
        } else {
          assert s[k] == s[2..][k - 2];
        }
      } else if k == 1 && s[1..] != [] && AllDigits(s[1..]) {
        assert s[k] == s[1..][0];
      }
    }
  }

  lemma NumberTokenShape(m: string)
    requires IsNumberToken(m)
    ensures |m| > 0 && (m[0] == '-' || IsDigit(m[0]))
    ensures AllNumberChars(m)
  {
    var a, b, c := NumberTokenParts(m);
    assert a == 0 ==> m[0] == m[a..b][0];
    FractionNumberChars(m[b..c]);
    ExponentNumberChars(m[c..]);
    PartsNumberChars(m, a, b, c);
  }

  lemma PartsNumberChars(m: string, a: nat, b: nat, c: nat)
    requires a <= b <= c <= |m| && (a == 0 || (a == 1 && m[0] == '-'))
    requires AllDigits(m[a..b]) && AllNumberChars(m[b..c]) && AllNumberChars(m[c..])
    ensures AllNumberChars(m)
  {
    forall k | 0 <= k < |m| ensures NumberChar(m[k]) {
      if k < a {
      } else if k < b {
        assert m[k] == m[a..b][k - a];
      } else if k < c {
        assert m[k] == m[b..c][k - b];
      } else {
        assert m[k] == m[c..][k - c];
      }
    }
  }

  /** On every text the regular expression can match, the callback's tests pick the class of
      the table: `key` for a quoted string with its colon, `string` for any other quoted
      string, `boolean` for true and false, `null` for null, `number` for numbers. */
  lemma ClassOfFollowsTable(m: string)
    requires IsToken(m)
    ensures ClassTable(ClassOf(m), m)
  {
    if IsNumberToken(m) {
      NumberTokenShape(m);
      assert !StartsWith(m, "\"") by {
        assert m[0] != '"';
      }
      assert 't' !in m && 'f' !in m && 'n' !in m;
      NotContainsWithout(m, "true", 't');
      NotContainsWithout(m, "false", 'f');
      NotContainsWithout(m, "null", 'n');
    }
    if m == "true" {
      assert m[0] == 't' && !StartsWith(m, "\"");
      assert StartsWith(m, "true");
      assert !IsStringToken(m) && !IsKeyToken(m);
    } else if m == "false" {
      assert m[0] == 'f' && !StartsWith(m, "\"");
      assert StartsWith(m, "false");
      assert !IsStringToken(m) && !IsKeyToken(m);
    } else if m == "null" {
      assert m[0] == 'n' && !StartsWith(m, "\"");
      assert 't' !in m && 'f' !in m;
      NotContainsWithout(m, "true", 't');
      NotContainsWithout(m, "false", 'f');
      assert StartsWith(m, "null");
      assert !IsStringToken(m) && !IsKeyToken(m);
    }
    if IsKeyToken(m) || IsStringToken(m) {
      assert m[..1] == "\"";
      if IsKeyToken(m) {
        assert m[|m| - 1] == ':';
      }
    }
  }

  /** Every match of the alternatives, tried in order, is a token of the grammar. */
  lemma MatchAtIsToken(t: string, i: nat)
    requires i <= |t| && MatchAt(t, i).Some?
    ensures IsToken(t[i..MatchAt(t, i).value])
  {
    if StringMatch(t, i).Some? {
      StringMatchSound(t, i);
    } else if KeywordMatch(t, i).Some? {
      KeywordMatchIff(t, i, KeywordMatch(t, i).value);
    } else {
      NumberMatchSound(t, i);
    }
  }

  // ---------------------------------------------------------------------------
  // The scan as a whole
  // ---------------------------------------------------------------------------

  lemma {:induction false} TextsAppend(a: seq<Piece>, b: seq<Piece>)
    ensures Texts(a + b) == Texts(a) + Texts(b)
  {
    if a == [] {
      assert a + b == b;
    } else {
      assert (a + b)[1..] == a[1..] + b;
      TextsAppend(a[1..], b);
    }
  }

  lemma TextsCons(x: Piece, rest: seq<Piece>)
    ensures Texts([x] + rest) == PieceText(x) + Texts(rest)
  {
    assert ([x] + rest)[1..] == rest;
  }

  /** One step of the search, where an alternative matches. */
  lemma ScanMatched(t: string, i: nat)
    requires i < |t| && MatchAt(t, i).Some?
    ensures var j := MatchAt(t, i).value;
      Scan(t, i) == [Span(ClassOf(t[i..j]), t[i..j])] + Scan(t, j)
  {
  }

  /** One step of the search, where no alternative matches. */
  lemma ScanUnmatched(t: string, i: nat)
    requires i < |t| && MatchAt(t, i).None?
    ensures Scan(t, i) == [Unmatched(t[i])] + Scan(t, i + 1)
  {
  }

  /** The first piece of the search from `i` holds the text from `i` to some `j`. */
  lemma ScanFirst(t: string, i: nat) returns (j: nat)
    requires i < |t|
    ensures i < j <= |t| && Texts(Scan(t, i)) == t[i..j] + Texts(Scan(t, j))
  {
    if MatchAt(t, i).Some? {
      j := MatchAt(t, i).value;
      ScanMatched(t, i);
      TextsCons(Span(ClassOf(t[i..j]), t[i..j]), Scan(t, j));
    } else {
      j := i + 1;
      ScanUnmatched(t, i);
      TextsCons(Unmatched(t[i]), Scan(t, i + 1));
      assert [t[i]] == t[i..i + 1];
    }
  }

  /** Unmatched characters are kept and matches are neither reordered nor changed: the texts
      of the pieces, in order, are the scanned text. */
  lemma {:induction false} ScanCovers(t: string, i: nat)
    requires i <= |t|
    ensures Texts(Scan(t, i)) == t[i..]
    decreases |t| - i
  {
    if i == |t| {
      assert Scan(t, i) == [];
    } else {
      var j := ScanFirst(t, i);
      ScanCovers(t, j);
      assert t[i..] == t[i..j] + t[j..];
    }
  }

  /** Every span wraps a non-empty token of the grammar and carries the class the table
      gives it. */
  lemma {:induction false} ScanSpansFollowTable(t: string, i: nat)
    requires i <= |t|
    ensures forall k | 0 <= k < |Scan(t, i)| && Scan(t, i)[k].Span? ::
      Scan(t, i)[k].text != [] && IsToken(Scan(t, i)[k].text)
      && ClassTable(Scan(t, i)[k].cls, Scan(t, i)[k].text)
    decreases |t| - i
  {
    var ps := Scan(t, i);
    if i == |t| {
      assert ps == [];
    } else if MatchAt(t, i).Some? {
      var j := MatchAt(t, i).value;
      ScanMatched(t, i);
      ScanSpansFollowTable(t, j);
      MatchAtIsToken(t, i);
      ClassOfFollowsTable(t[i..j]);
      forall k | 0 <= k < |ps| && ps[k].Span?
        ensures ps[k].text != [] && IsToken(ps[k].text) && ClassTable(ps[k].cls, ps[k].text)
      {
        if k > 0 {
          assert ps[k] == Scan(t, j)[k - 1];
        }
      }
    } else {
      ScanUnmatched(t, i);
      ScanSpansFollowTable(t, i + 1);
      forall k | 0 <= k < |ps| && ps[k].Span?
        ensures ps[k].text != [] && IsToken(ps[k].text) && ClassTable(ps[k].cls, ps[k].text)
      {
        assert ps[k] == Scan(t, i + 1)[k - 1];
      }
    }
  }

  /** The highlighter's spans, in order, as they appear in its output. */
  lemma HighlightSpans(json: string)
    ensures var ps := Scan(EscapeHtml(json), 0);
      && SyntaxHighlight(json) == Html(ps)
      && Texts(ps) == EscapeHtml(json)
      && forall k | 0 <= k < |ps| && ps[k].Span? ::
           ps[k].text != [] && IsToken(ps[k].text) && ClassTable(ps[k].cls, ps[k].text)
  {
    ScanCovers(EscapeHtml(json), 0);
    ScanSpansFollowTable(EscapeHtml(json), 0);
  }

  // ---------------------------------------------------------------------------
  // Deleting the inserted spans gives back the escaped input
  // ---------------------------------------------------------------------------

  predicate Angleless(s: string) {
    '<' !in s && '>' !in s
  }

  lemma {:induction false} SkipTagPast(x: string, y: string)
    requires '>' !in x
    ensures SkipTag(x + ">" + y) == y
  {
    if x == [] {
      assert x + ">" + y == ">" + y;
    } else {
      assert (x + ">" + y)[1..] == x[1..] + ">" + y;
      SkipTagPast(x[1..], y);
    }
  }

  lemma {:induction false} StripTagsPrefix(x: string, y: string)
    requires '<' !in x
    ensures StripTags(x + y) == x + StripTags(y)
  {
    if x == [] {
      assert x + y == y;
    } else {
      assert (x + y)[1..] == x[1..] + y;
      StripTagsPrefix(x[1..], y);
    }
  }

  /** A whole tag followed by `z` strips to what `z` strips to. */
  lemma StripTagThen(x: string, z: string)
    requires '>' !in x
    ensures StripTags("<" + x + ">" + z) == StripTags(z)
  {
    var s := "<" + x + ">" + z;
    assert s[0] == '<' && s[1..] == x + ">" + z;
    SkipTagPast(x, z);
  }

  lemma OpenTagParts(cls: Class) returns (inner: string)
    ensures OpenTag(cls) == "<" + inner + ">" && '>' !in inner
  {
    inner := "span class=\"" + ClassName(cls) + "\"";
  }

  lemma StripSpan(cls: Class, m: string, y: string)
    requires Angleless(m)
    ensures StripTags(OpenTag(cls) + m + CloseTag + y) == m + StripTags(y)
  {
    var inner := OpenTagParts(cls);
    var rest := m + (CloseTag + y);
    assert OpenTag(cls) + m + CloseTag + y == "<" + inner + ">" + rest;
    StripTagThen(inner, rest);
    StripTagsPrefix(m, CloseTag + y);
    assert CloseTag + y == "<" + "/span" + ">" + y;
    StripTagThen("/span", y);
  }

  lemma {:induction false} StripHtml(ps: seq<Piece>)
    requires Angleless(Texts(ps))
    ensures StripTags(Html(ps)) == Texts(ps)
  {
    if ps != [] {
      var rest := Html(ps[1..]);
      assert Texts(ps) == PieceText(ps[0]) + Texts(ps[1..]);
      StripHtml(ps[1..]);
      match ps[0]
      case Unmatched(c) =>
        assert Html(ps) == [c] + rest;
        StripTagsPrefix([c], rest);
      case Span(cls, m) =>
        assert Html(ps) == OpenTag(cls) + m + CloseTag + rest;
        StripSpan(cls, m, rest);
    }
  }

  /** Deleting every inserted `<span class="...">` and `</span>` from the output gives exactly
      the escaped input, and un-escaping that gives back the input. */
  lemma SpanRoundTrip(json: string)
    ensures StripTags(SyntaxHighlight(json)) == EscapeHtml(json)
    ensures UnescapeHtml(StripTags(SyntaxHighlight(json))) == json
  {
    var t := EscapeHtml(json);
    ScanCovers(t, 0);
    EscapeHtmlNoAngles(json);
    assert t[0..] == t;
    StripHtml(Scan(t, 0));
    UnescapeEscape(json);
  }

  // ---------------------------------------------------------------------------
  // A worked example: `{"a":1}`
  // ---------------------------------------------------------------------------

  const ExampleText: string := "{\"a\":1}"

  lemma ExampleScanFrom5()
    ensures Scan(ExampleText, 5) == [Span(Number, "1"), Unmatched('}')]
  {
    assert MatchAt(ExampleText, 5) == Some(6);
    ScanMatched(ExampleText, 5);
    assert ExampleText[5..6] == "1";
    assert MatchAt(ExampleText, 6) == None;
    ScanUnmatched(ExampleText, 6);
  }

  lemma ExampleScanFrom1()
    ensures Scan(ExampleText, 1) == [Span(Key, "\"a\":"), Span(Number, "1"), Unmatched('}')]
  {
    assert StringMatch(ExampleText, 1) == Some(5);
    ScanMatched(ExampleText, 1);
    assert ExampleText[1..5] == "\"a\":";
    ExampleScanFrom5();
  }

  lemma ExampleScan()
    ensures Scan(ExampleText, 0)
         == [Unmatched('{'), Span(Key, "\"a\":"), Span(Number, "1"), Unmatched('}')]
  {
    assert MatchAt(ExampleText, 0) == None;
    ScanUnmatched(ExampleText, 0);
    ExampleScanFrom1();
  }

  lemma HtmlCons(x: Piece, rest: seq<Piece>)
    ensures Html([x] + rest) == PieceHtml(x) + Html(rest)
  {
    assert ([x] + rest)[1..] == rest;
  }

  lemma ExampleHtml()
    ensures Html([Unmatched('{'), Span(Key, "\"a\":"), Span(Number, "1"), Unmatched('}')])
         == "{" + (OpenTag(Key) + "\"a\":" + CloseTag + (OpenTag(Number) + "1" + CloseTag + "}"))
  {
    var last := [Unmatched('}')];
    HtmlCons(Unmatched('}'), []);
    assert [Unmatched('}')] + [] == last;
    var number := [Span(Number, "1")] + last;
    HtmlCons(Span(Number, "1"), last);
    var key := [Span(Key, "\"a\":")] + number;
    HtmlCons(Span(Key, "\"a\":"), number);
    HtmlCons(Unmatched('{'), key);
    assert [Unmatched('{')] + key == [Unmatched('{'), Span(Key, "\"a\":"), Span(Number, "1"), Unmatched('}')];
  }

  lemma ExampleUnescaped()
    ensures SyntaxHighlight(ExampleText) == Html(Scan(ExampleText, 0))
  {
    assert '&' !in ExampleText && '<' !in ExampleText && '>' !in ExampleText;
    EscapeHtmlIdentity(ExampleText);
  }

  /** `syntaxHighlight('{"a":1}')` puts `"a":` in a `key` span and `1` in a `number` span. */
  lemma KeyAndNumberExample()
    ensures SyntaxHighlight(ExampleText)
         == "{" + (OpenTag(Key) + "\"a\":" + CloseTag + (OpenTag(Number) + "1" + CloseTag + "}"))
  {
    ExampleUnescaped();
    ExampleScan();
    ExampleHtml();
  }

  /** The opening tags carry the class names of the stylesheet. */
  lemma OpenTagExamples()
    ensures OpenTag(Key) == "<span class=\"key\">" && OpenTag(Number) == "<span class=\"number\">"
  {
  }
}
