/** Properties of the string renderer: the whitespace split and the link rules. */
module TokensLemmas {
  import opened Chars
  import opened Tokens

  // ---------------------------------------------------------------------------
  // The split
  // ---------------------------------------------------------------------------

  /** The parts of `split(/(\s)/)` spell the string again, alternate between runs
      without whitespace and single whitespace characters, and start and end with a run. */
  lemma {:induction false} SplitWsShape(s: string)
    ensures IsWsSplit(s, SplitWs(s))
    decreases |s|
  {
    if s == [] {
      assert Concat([""]) == "" + Concat([]);
    } else {
      SplitWsShape(s[1..]);
      if IsSpace(s[0]) {
        SpaceThenSplit(s, SplitWs(s[1..]));
      } else {
        CharThenSplit(s, SplitWs(s[1..]));
      }
    }
  }

  /** A whitespace character in front of a split adds an empty run and itself. */
  lemma SpaceThenSplit(s: string, rest: seq<string>)
    requires s != [] && IsSpace(s[0]) && IsWsSplit(s[1..], rest)
    ensures IsWsSplit(s, ["", [s[0]]] + rest)
  {
    var parts := ["", [s[0]]] + rest;
    var head := ["", [s[0]]];
    ConcatAppend(head, rest);
    assert Concat(head) == "" + ([s[0]] + Concat([]));
    assert s == [s[0]] + s[1..];
    forall i | 0 <= i < |parts| && i % 2 == 0
      ensures NoSpace(parts[i])
    {
      if i >= 2 {
        assert parts[i] == rest[i - 2];
      }
    }
    forall i | 0 <= i < |parts| && i % 2 == 1
      ensures |parts[i]| == 1 && IsSpace(parts[i][0])
    {
      if i >= 2 {
        assert parts[i] == rest[i - 2];
      }
    }
  }

  /** Any other character in front of a split joins its first run. */
  lemma CharThenSplit(s: string, rest: seq<string>)
    requires s != [] && !IsSpace(s[0]) && IsWsSplit(s[1..], rest)
    ensures IsWsSplit(s, [[s[0]] + rest[0]] + rest[1..])
  {
    var parts := [[s[0]] + rest[0]] + rest[1..];
    assert Concat(rest) == rest[0] + Concat(rest[1..]);
    assert Concat(parts) == ([s[0]] + rest[0]) + Concat(rest[1..]);
    assert s == [s[0]] + s[1..];
    forall i | 0 <= i < |parts| && i % 2 == 0
      ensures NoSpace(parts[i])
    {
      if i == 0 {
        assert NoSpace(rest[0]);
        forall k | 0 <= k < |parts[0]|
          ensures !IsSpace(parts[0][k])
        {
          if k > 0 {
            assert parts[0][k] == rest[0][k - 1];
          }
        }
      } else {
        assert parts[i] == rest[i];
      }
    }
    forall i | 0 <= i < |parts| && i % 2 == 1
      ensures |parts[i]| == 1 && IsSpace(parts[i][0])
    {
      assert parts[i] == rest[i];
    }
  }

  lemma ConcatTwo(parts: seq<string>)
    requires |parts| >= 2
    ensures Concat(parts) == parts[0] + (parts[1] + Concat(parts[2..]))
  {
    assert parts[1..][1..] == parts[2..];
  }

  /** The split is the only sequence of that shape: any alternation of runs and
      single whitespace characters that spells `s` is `SplitWs(s)`. */
  lemma {:induction false} SplitWsUnique(s: string, parts: seq<string>)
    requires IsWsSplit(s, parts)
    ensures parts == SplitWs(s)
    decreases |s|
  {
    if s == [] {
      EmptySplitUnique(parts);
    } else if IsSpace(s[0]) {
      SplitAfterSpace(s, parts);
      SplitWsUnique(s[1..], parts[2..]);
    } else {
      var q := SplitAfterChar(s, parts);
      SplitWsUnique(s[1..], q);
    }
  }

  lemma EmptySplitUnique(parts: seq<string>)
    requires IsWsSplit("", parts)
    ensures parts == [""]
  {
    if |parts| >= 3 {
      // The single whitespace character at position 1 would make the text non-empty.
      ConcatTwo(parts);
      assert false;
    }
  }

  /** A split of a text that starts with whitespace opens with an empty run and that
      character, and what follows is a split of the rest. */
  lemma SplitAfterSpace(s: string, parts: seq<string>)
    requires s != [] && IsSpace(s[0]) && IsWsSplit(s, parts)
    ensures |parts| >= 3 && parts == ["", [s[0]]] + parts[2..] && IsWsSplit(s[1..], parts[2..])
  {
    assert NoSpace(parts[0]);
    if |parts| >= 3 {
      ConcatTwo(parts);
      assert |parts[1]| == 1 && IsSpace(parts[1][0]);
    }
    assert parts[0] == [];
    assert |parts| >= 3;
    var tail := parts[2..];
    assert s == parts[1] + Concat(tail);
    assert s[1..] == Concat(tail);
    forall i | 0 <= i < |tail| && i % 2 == 0
      ensures NoSpace(tail[i])
    {
      assert tail[i] == parts[i + 2];
    }
    forall i | 0 <= i < |tail| && i % 2 == 1
      ensures |tail[i]| == 1 && IsSpace(tail[i][0])
    {
      assert tail[i] == parts[i + 2];
    }
    assert parts[1][0] == s[0];
    assert parts[1] == [s[0]];
    assert parts == [parts[0], parts[1]] + tail;
  }

  /** A split of a text that starts with any other character opens with a run holding
      that character; without it, the parts are a split of the rest. */
  lemma SplitAfterChar(s: string, parts: seq<string>) returns (q: seq<string>)
    requires s != [] && !IsSpace(s[0]) && IsWsSplit(s, parts)
    ensures q != [] && parts == [[s[0]] + q[0]] + q[1..] && IsWsSplit(s[1..], q)
  {
    assert NoSpace(parts[0]);
    if |parts| >= 3 {
      ConcatTwo(parts);
      assert |parts[1]| == 1 && IsSpace(parts[1][0]);
    }
    assert parts[0] != [];
    assert s == parts[0] + Concat(parts[1..]);
    assert s[0] == parts[0][0];
    q := [parts[0][1..]] + parts[1..];
    assert q[1..] == parts[1..];
    assert s[1..] == parts[0][1..] + Concat(parts[1..]);
    assert Concat(q) == s[1..];
    forall i | 0 <= i < |q| && i % 2 == 0
      ensures NoSpace(q[i])
    {
      if i == 0 {
        forall k | 0 <= k < |q[0]|
          ensures !IsSpace(q[0][k])
        {
          assert q[0][k] == parts[0][k + 1];
        }
      } else {
        assert q[i] == parts[i];
      }
    }
    forall i | 0 <= i < |q| && i % 2 == 1
      ensures |q[i]| == 1 && IsSpace(q[i][0])
    {
      assert q[i] == parts[i];
    }
    assert [s[0]] + q[0] == parts[0];
  }

  /** `split(/(\s)/)` gives one part per whitespace character and one more run than that. */
  lemma {:induction false} SplitWsCount(s: string)
    ensures |SplitWs(s)| == 2 * SpaceCount(s) + 1
    decreases |s|
  {
    if s != [] {
      SplitWsCount(s[1..]);
    }
  }

  // ---------------------------------------------------------------------------
  // Classification
  // ---------------------------------------------------------------------------

  lemma SplitLengthOne(s: string, c: char)
    ensures SplitLength(s, c) == 1 <==> c !in s
  {
  }

  lemma PrefixesExclusive(part: string)
    ensures !(StartsWith(part, "at://") && StartsWith(part, "did:"))
  {
    if StartsWith(part, "at://") {
      assert part[0] == part[..5][0] == 'a';
    }
  }

  /** The table of lines 53-73, each row in both directions: which segment a part
      becomes, in terms of what the part contains. The text shown is always the part. */
  lemma ClassifyTable(part: string, url: UrlParser)
    ensures Classify(part, url).text == part
    ensures Classify(part, url) == InternalLink("/" + part, part)
        <==> StartsWith(part, "at://") && ' ' !in part
    ensures Classify(part, url) == InternalLink("/at://" + part, part)
        <==> StartsWith(part, "did:") && ' ' !in part && Count(part, ':') == 2
    ensures Classify(part, url).ExternalLink?
        <==> && !(StartsWith(part, "at://") && ' ' !in part)
             && !(StartsWith(part, "did:") && ' ' !in part && Count(part, ':') == 2)
             && url.canParse(part) && url.protocol(part) in LinkProtocols && '\n' !in part
    ensures Classify(part, url).ExternalLink? ==> Classify(part, url) == ExternalLink(part, part, RelAsWritten)
    ensures Classify(part, url) == Plain(part)
        <==> && !(StartsWith(part, "at://") && ' ' !in part)
             && !(StartsWith(part, "did:") && ' ' !in part && Count(part, ':') == 2)
             && !(url.canParse(part) && url.protocol(part) in LinkProtocols && '\n' !in part)
  {
    SplitLengthOne(part, ' ');
    SplitLengthOne(part, '\n');
    PrefixesExclusive(part);
    assert |"/" + part| != |"/at://" + part|;
  }

  /** Priority: an `at://` part without a space is an internal link whatever the URL
      parser says of it, and a `did:` part with three segments is one too. */
  lemma InternalLinksIgnoreUrlParser(part: string, url1: UrlParser, url2: UrlParser)
    requires Classify(part, url1).InternalLink?
    ensures Classify(part, url2) == Classify(part, url1)
  {
  }

  /** For the runs the split produces, the `split(" ")` and `split("\n")` tests never
      decide anything. */
  lemma ClassifyRunAgrees(part: string, url: UrlParser)
    requires NoSpace(part)
    ensures Classify(part, url) == ClassifyRun(part, url)
  {
    SplitLengthOne(part, ' ');
    SplitLengthOne(part, '\n');
  }

  /** A whitespace part is never an internal link, and a newline is never a link at all. */
  lemma SpaceIsNotInternal(c: char, url: UrlParser)
    requires IsSpace(c)
    ensures !Classify([c], url).InternalLink?
    ensures c == '\n' ==> Classify([c], url) == Plain([c])
  {
    assert Count([c], c) == 1;
  }

  /** As written, every external link asks the browser for `noopener noreferer`: it
      opens without access to the opener, but the misspelt keyword is ignored and the
      Referer header is still sent. */
  lemma ExternalLinksSendReferrer(part: string, url: UrlParser)
    requires Classify(part, url).ExternalLink?
    ensures RelAttribute(Classify(part, url).rel) == "noopener noreferer"
    ensures OpensWithoutOpener(Classify(part, url).rel)
    ensures !WithholdsReferrer(Classify(part, url).rel)
  {
    RelAsWrittenSendsReferrer();
  }

  /** With the keyword spelt `noreferrer`, the parts are classified the same way and
      every external link withholds both the referrer and the opener. */
  lemma CorrectedLinksAreIsolated(part: string, url: UrlParser)
    ensures var c := Classify(part, url);
      ClassifyCorrected(part, url) == if c.ExternalLink? then c.(rel := Rel) else c
    ensures ClassifyCorrected(part, url).ExternalLink? ==>
      && RelAttribute(ClassifyCorrected(part, url).rel) == "noopener noreferrer"
      && WithholdsReferrer(ClassifyCorrected(part, url).rel)
      && OpensWithoutOpener(ClassifyCorrected(part, url).rel)
  {
    RelCorrected();
  }

  /** As written, line 70 spells the keyword `noreferer`, which browsers ignore: the
      link still sends the Referer header. */
  lemma RelAsWrittenSendsReferrer()
    ensures RelAttribute(RelAsWritten) == "noopener noreferer"
    ensures !WithholdsReferrer(RelAsWritten)
    ensures OpensWithoutOpener(RelAsWritten)
  {
    assert RelAsWritten[0] != "noreferrer";
    assert RelAsWritten[1] != "noreferrer";
  }

  lemma RelCorrected()
    ensures RelAttribute(Rel) == "noopener noreferrer"
    ensures WithholdsReferrer(Rel) && OpensWithoutOpener(Rel)
  {
    assert Rel[1] == "noreferrer";
  }

  // ---------------------------------------------------------------------------
  // The whole string
  // ---------------------------------------------------------------------------

  /** The segments shown for a string spell the string: nothing is dropped, added
      or reordered. */
  lemma RenderStringTexts(data: string, url: UrlParser)
    ensures Concat(SegmentTexts(RenderString(data, url))) == data
  {
    var parts := SplitWs(data);
    var segs := RenderString(data, url);
    forall i | 0 <= i < |parts|
      ensures SegmentTexts(segs)[i] == parts[i]
    {
      ClassifyTable(parts[i], url);
    }
    assert SegmentTexts(segs) == parts;
    SplitWsShape(data);
  }

  /** Every link target is derived from the text it shows: `/` + text or `/at://` +
      text inside the site, the text itself outside. */
  lemma RenderStringLinks(data: string, url: UrlParser, i: nat)
    requires i < |RenderString(data, url)|
    ensures RenderString(data, url)[i].InternalLink? ==>
      var t := RenderString(data, url)[i].text;
      RenderString(data, url)[i].href in {"/" + t, "/at://" + t}
    ensures RenderString(data, url)[i].ExternalLink? ==>
      RenderString(data, url)[i].href == RenderString(data, url)[i].text
  {
    var parts := SplitWs(data);
    ClassifyTable(parts[i], url);
  }

  /** The spaces of a string are shown as plain text, except that the URL parser is
      consulted for whitespace other than a newline. */
  lemma RenderStringSpaces(data: string, url: UrlParser, i: nat)
    requires i < |RenderString(data, url)| && i % 2 == 1
    ensures |RenderString(data, url)[i].text| == 1
    ensures IsSpace(RenderString(data, url)[i].text[0])
    ensures !RenderString(data, url)[i].InternalLink?
  {
    var parts := SplitWs(data);
    ClassifyTable(parts[i], url);
    SplitWsShape(data);
    assert |parts[i]| == 1 && IsSpace(parts[i][0]);
    assert parts[i] == [parts[i][0]];
    SpaceIsNotInternal(parts[i][0], url);
  }

  /** The segments at even positions follow the simpler rules of `ClassifyRun`. */
  lemma RenderStringRuns(data: string, url: UrlParser, i: nat)
    requires i < |RenderString(data, url)| && i % 2 == 0
    ensures RenderString(data, url)[i] == ClassifyRun(SplitWs(data)[i], url)
  {
    SplitWsShape(data);
    ClassifyRunAgrees(SplitWs(data)[i], url);
  }
}
