/** The string renderer `JSONString` (src/components/json.tsx:36-79): the string is
    split around single whitespace characters, keeping them, and every part is
    classified as an internal link, an external link or plain text. */
module Tokens {
  import opened Chars

  // ---------------------------------------------------------------------------
  // `data.split(/(\s)/)` (line 50)
  // ---------------------------------------------------------------------------

  /** The parts of `data.split(/(\s)/)`: because the separator is captured, every
      whitespace character appears as a part of its own between the runs around it,
      and two adjacent whitespace characters leave an empty run between them. */
  function SplitWs(s: string): (parts: seq<string>)
    ensures |parts| % 2 == 1
    decreases |s|
  {
    if s == [] then [""]
    else if IsSpace(s[0]) then ["", [s[0]]] + SplitWs(s[1..])
    else
      var rest := SplitWs(s[1..]);
      [[s[0]] + rest[0]] + rest[1..]
  }

  predicate NoSpace(s: string) {
    forall k | 0 <= k < |s| :: !IsSpace(s[k])
  }

  /** The shape of a split: runs without whitespace at the even positions, single
      whitespace characters at the odd ones, and together they spell `s`. */
  predicate IsWsSplit(s: string, parts: seq<string>) {
    && |parts| % 2 == 1
    && Concat(parts) == s
    && (forall i | 0 <= i < |parts| && i % 2 == 0 :: NoSpace(parts[i]))
    && (forall i | 0 <= i < |parts| && i % 2 == 1 :: |parts[i]| == 1 && IsSpace(parts[i][0]))
  }

  /** Number of whitespace characters in `s`. */
  function SpaceCount(s: string): (n: nat)
    ensures n <= |s|
  {
    if s == [] then 0 else (if IsSpace(s[0]) then 1 else 0) + SpaceCount(s[1..])
  }

  // ---------------------------------------------------------------------------
  // Classification of one part (lines 53-73)
  // ---------------------------------------------------------------------------

  /** `URL.canParse` (or the `new URL` fallback, lines 37-46) and `new URL(s).protocol`:
      the browser's URL parser, supplied by the caller. */
  datatype UrlParser = UrlParser(canParse: string -> bool, protocol: string -> string)

  /** The `rel` keywords of an external link. */
  const RelAsWritten: seq<string> := ["noopener", "noreferer"]
  const Rel: seq<string> := ["noopener", "noreferrer"]

  /** Space-separated attribute value of a keyword list. */
  function RelAttribute(keywords: seq<string>): string {
    if keywords == [] then ""
    else if |keywords| == 1 then keywords[0]
    else keywords[0] + " " + RelAttribute(keywords[1..])
  }

  /** The browser withholds the Referer header only for the `noreferrer` keyword;
      unknown keywords are ignored. */
  predicate WithholdsReferrer(keywords: seq<string>) {
    "noreferrer" in keywords
  }

  predicate OpensWithoutOpener(keywords: seq<string>) {
    "noopener" in keywords || "noreferrer" in keywords
  }

  datatype Segment =
    | InternalLink(href: string, text: string)
    | ExternalLink(href: string, text: string, rel: seq<string>)
    | Plain(text: string)

  const LinkProtocols: seq<string> := ["http:", "https:", "web+at:"]

  /** The three tests of lines 53-68, in order, with `s.split(c).length === n`
      read as a count of `c`; `rel` is the keyword list an external link carries. */
  function ClassifyWith(part: string, url: UrlParser, rel: seq<string>): Segment {
    if StartsWith(part, "at://") && SplitLength(part, ' ') == 1 then
      InternalLink("/" + part, part)
    else if StartsWith(part, "did:") && SplitLength(part, ' ') == 1 && SplitLength(part, ':') == 3 then
      InternalLink("/at://" + part, part)
    else if url.canParse(part) && url.protocol(part) in LinkProtocols && SplitLength(part, '\n') == 1 then
      ExternalLink(part, part, rel)
    else
      Plain(part)
  }

  /** One part as the component renders it, with the keywords of line 70 as written. */
  function Classify(part: string, url: UrlParser): Segment {
    ClassifyWith(part, url, RelAsWritten)
  }

  /** One part with the keywords line 70 evidently means. */
  function ClassifyCorrected(part: string, url: UrlParser): Segment {
    ClassifyWith(part, url, Rel)
  }

  /** The rendered segments of a string value. */
  function RenderString(data: string, url: UrlParser): seq<Segment> {
    var parts := SplitWs(data);
    seq(|parts|, i requires 0 <= i < |parts| => Classify(parts[i], url))
  }

  function SegmentTexts(segs: seq<Segment>): seq<string> {
    seq(|segs|, i requires 0 <= i < |segs| => segs[i].text)
  }

  /** The rules of lines 53-68 as they read for a part without whitespace, where
      the `split(" ")` and `split("\n")` tests always pass. */
  function ClassifyRun(part: string, url: UrlParser): Segment {
    if StartsWith(part, "at://") then InternalLink("/" + part, part)
    else if StartsWith(part, "did:") && Count(part, ':') == 2 then InternalLink("/at://" + part, part)
    else if url.canParse(part) && url.protocol(part) in LinkProtocols then ExternalLink(part, part, RelAsWritten)
    else Plain(part)
  }
}
