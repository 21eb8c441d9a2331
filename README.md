# A verified model of the JSON viewer's string and tree rules

`src/components/json.tsx` renders a JSON record of the AT Protocol browser as
interactive markup. Underneath the SolidJS view code it follows a small set of
pure rules. This project states those rules in Dafny and proves what they promise:

- **`syntaxHighlight`** (lines 13-34) first HTML-escapes `&`, `<` and `>`. It then
  runs a global `replace` with one regular expression, which this model writes out
  as an explicit left-to-right scanner. Each match is wrapped in
  `<span class="key|string|boolean|null|number">`.
  Modules: `Escape`, `Highlight`, `HighlightLemmas`.
- **`JSONString`** (lines 36-79) splits a string with `split(/(\s)/)`. Each part
  becomes an internal link, an external link or plain text.
  Modules: `Tokens`, `TokensLemmas`.
- **The copy text of a key label** (line 110) is `JSON.stringify(value)` with
  `^"(.+)"$` stripped. Modules: `Json` (values, `JSON.stringify`, `String(x)`) and
  `CopyText`.
- **`JSONValue`, `JSONArray` and `JSONObject`** (lines 81-197) are modelled as a
  function from a JSON value to an abstract render tree. The tree records which
  renderer each value gets and the layout flags of array items and object entries.
  It also records the blob preview row with its URLs, and the `TypeError` a
  malformed blob throws. Modules: `View`, `ViewLemmas`.

The browser's URL parser is a parameter of type `Tokens.UrlParser`. The `pds()`
signal of the navigation bar is a parameter too: an `Option<string>` in `View.Env`.
`Chars` holds the ECMAScript character classes (`\s`, `\w`, `\d`, and the line
terminators that `.` refuses), written out exactly. `Wrappers` holds `Option` and
`Result`.

Three points where the code behaves differently from what a reader might expect:

- Rendering has an error path. The code throws a `TypeError` when a blob's
  `mimeType` is not a string. It also throws when the row shows a part that reads
  `ref.$link` while `ref` is missing or `null`. And it throws when a thumbnail or a
  download link interpolates a `ref.$link` that is an object with its own
  `toString` entry, or an array holding one. `View.Render` returns
  `Failure(TypeError)` in exactly those cases (`ViewLemmas.RenderFails`).
- Line 70 spells the `rel` keyword `noreferer`. The model renders the attribute
  as written (`Tokens.Classify`). The corrected keyword is kept beside it as
  `Tokens.ClassifyCorrected` (see Findings).
- The video player (line 148) and the thumbnail (line 136) sit in two independent
  `Show` blocks, not an if/else. Their conditions exclude each other, so at most
  one of them appears (`ViewLemmas.BlobPreviewRules`).

## Model

| member | source | states |
|---|---|---|
| `Escape.EscapeHtml` | src/components/json.tsx:14 | The escape pass: `&`, then `<`, then `>` replaced globally. Its properties are the `Escape` lemmas below |
| `Escape.EscapeHtmlIsPerCharacter` | src/components/json.tsx:14 | The three chained `replace` calls, `&` first, are the same as escaping each character on its own |
| `Escape.EscapeHtmlNoAngles` | src/components/json.tsx:14 | The escaped text contains no `<` and no `>` |
| `Escape.EscapeHtmlEntities` | src/components/json.tsx:14 | Every `&` in the escaped text begins `&amp;`, `&lt;` or `&gt;` |
| `Escape.UnescapeEscape` | src/components/json.tsx:14 | Un-escaping the escaped text gives back the input |
| `Escape.AmpersandMustComeFirst` | src/components/json.tsx:14 | Replacing `&` after `<` would turn `<` into `&amp;lt;`; the order used gives `&lt;` |
| `Escape.EscapeHtmlIdentity` | src/components/json.tsx:14 | Text without `&`, `<` and `>` is unchanged by escaping |
| `Highlight.MatchAt` | src/components/json.tsx:17 | The three alternatives of the regular expression, tried in order at one position. It is sound and longest-matching by the lemmas below |
| `Highlight.Scan` | src/components/json.tsx:16-33 | The global `replace`: a match is replaced and the search resumes after it, otherwise one character is kept. See `ScanCovers` and `ScanSpansFollowTable` |
| `Highlight.ClassOf` | src/components/json.tsx:18-32 | The callback's class choice: `/^"/` then `/:$/`, then the test for `true` or `false`, then `/null/`, else `number`. See `ClassOfFollowsTable` |
| `Highlight.SyntaxHighlight` | src/components/json.tsx:13-34 | `syntaxHighlight`: escape, scan, and wrap each match in a classed span. See `HighlightSpans` and `SpanRoundTrip` |
| `HighlightLemmas.BodyEndSound` | src/components/json.tsx:17 | The greedy scan of a string body stops at the end of a run of `\uXXXX`, `\<non-u>` and plain units |
| `HighlightLemmas.BodyEndUnique` | src/components/json.tsx:17 | A string body that ends before a quote is exactly where the greedy scan stops, so the regular expression never needs to backtrack |
| `HighlightLemmas.StringMatchSound` | src/components/json.tsx:17 | A string match is a quoted string, or a quoted string followed by whitespace and `:` |
| `HighlightLemmas.StringMatchComplete` | src/components/json.tsx:17 | A well-formed quoted string at a position is always matched, and the match reaches at least its closing quote |
| `HighlightLemmas.KeywordMatchIff` | src/components/json.tsx:17 | The keyword alternative matches `true`, `false` or `null` exactly when both ends are `\b` word boundaries |
| `HighlightLemmas.NumberMatchSound` | src/components/json.tsx:17 | A number match is sign, digits, optional fraction `.\d*` and optional exponent |
| `HighlightLemmas.NumberMatchLongest` | src/components/json.tsx:17 | The number alternative takes the longest number at its position |
| `HighlightLemmas.NumberTokenShape` | src/components/json.tsx:17 | A number match starts with `-` or a digit and contains only number characters |
| `HighlightLemmas.MatchAtIsToken` | src/components/json.tsx:17 | Whatever the three alternatives match is a token of the grammar |
| `HighlightLemmas.ClassOfFollowsTable` | src/components/json.tsx:19-30 | The class the callback picks from a token follows the table: key, string, boolean, null, number |
| `HighlightLemmas.ScanCovers` | src/components/json.tsx:16-33 | The pieces of the global replace spell the scanned text: nothing is dropped, changed or reordered |
| `HighlightLemmas.ScanSpansFollowTable` | src/components/json.tsx:16-33 | Every span wraps a non-empty token and carries the class the table gives it |
| `HighlightLemmas.HighlightSpans` | src/components/json.tsx:13-34 | The output is the escaped text with its tokens wrapped in classed spans |
| `HighlightLemmas.StripHtml` | src/components/json.tsx:31 | Deleting the tags of the wrapped pieces gives back their text |
| `HighlightLemmas.SpanRoundTrip` | src/components/json.tsx:13-34 | Deleting every tag of the output gives the escaped input, and un-escaping that gives the input |
| `HighlightLemmas.KeyAndNumberExample` | src/components/json.tsx:13-34 | `{"a":1}` becomes `{`, a `key` span around `"a":`, a `number` span around `1`, and `}` |
| `Tokens.SplitWs` | src/components/json.tsx:50 | `split(/(\s)/)`: it always has an odd number of parts. `SplitWsShape` and `SplitWsUnique` show it is exactly that split |
| `Tokens.Classify` | src/components/json.tsx:53-73 | One part as rendered, with the `rel` keywords as written. See `ClassifyTable` |
| `Tokens.ClassifyCorrected` | src/components/json.tsx:70 | One part with the `rel` keywords corrected. See `CorrectedLinksAreIsolated` |
| `TokensLemmas.SplitWsShape` | src/components/json.tsx:50 | The parts of `split(/(\s)/)` spell the string; runs without whitespace alternate with single whitespace characters, and the first and last parts are runs |
| `TokensLemmas.SplitWsUnique` | src/components/json.tsx:50 | The split is the only list of that shape that spells the string |
| `TokensLemmas.SplitWsCount` | src/components/json.tsx:50 | There are twice as many parts as whitespace characters, plus one |
| `TokensLemmas.ClassifyTable` | src/components/json.tsx:53-73 | In both directions: `at://` without a space gives a link to `/` + part; otherwise `did:` with exactly two colons gives a link to `/at://` + part; otherwise a parsable URL with protocol `http:`, `https:` or `web+at:` and no newline gives an external link to the part; otherwise plain text; the text shown is always the part |
| `TokensLemmas.InternalLinksIgnoreUrlParser` | src/components/json.tsx:53-64 | An internal link is chosen whatever the URL parser says of the part |
| `TokensLemmas.ClassifyRunAgrees` | src/components/json.tsx:53-68 | For parts without whitespace, the `split(" ")` and `split("\n")` tests never decide anything |
| `TokensLemmas.SpaceIsNotInternal` | src/components/json.tsx:53-68 | A whitespace part is never an internal link, and a newline is plain text |
| `TokensLemmas.ExternalLinksSendReferrer` | src/components/json.tsx:65-72 | As written, every external link carries `rel="noopener noreferer"`: it opens without access to the opener, but it does not withhold the referrer |
| `TokensLemmas.CorrectedLinksAreIsolated` | src/components/json.tsx:53-73 | With `noreferrer` spelt correctly, every part is classified as before, and every external link withholds both the referrer and the opener |
| `TokensLemmas.RelAsWrittenSendsReferrer` | src/components/json.tsx:70 | As written, the `rel` value is `noopener noreferer`, which does not withhold the referrer |
| `TokensLemmas.RelCorrected` | src/components/json.tsx:70 | The corrected `rel` value `noopener noreferrer` withholds both the referrer and the opener |
| `TokensLemmas.RenderStringTexts` | src/components/json.tsx:50-76 | The texts of the rendered segments spell the string |
| `TokensLemmas.RenderStringLinks` | src/components/json.tsx:53-73 | An internal link points to `/` + text or `/at://` + text; an external link points to its text |
| `TokensLemmas.RenderStringSpaces` | src/components/json.tsx:50-73 | The segments at odd positions show a single whitespace character and are never internal links |
| `TokensLemmas.RenderStringRuns` | src/components/json.tsx:50-73 | The segments at even positions follow the simpler rules without the space and newline tests |
| `Json.Stringify` | src/components/json.tsx:110 | `JSON.stringify` of a value. See `StringifyHead`, `QuoteBodyRoundTrip` and `QuoteBodyLines` |
| `Json.JsToString` | src/components/json.tsx:138 | Template-literal interpolation `${x}`, which can throw. See `JsToStringFails` |
| `Json.Lookup` | src/components/json.tsx:132 | A property is defined exactly when an entry has that key, and its value is that entry's value |
| `Json.IntToStringRoundTrip` | src/components/json.tsx:82 | The decimal text of a number reads back as the number; it has a sign only when the number is negative, and no leading zero |
| `Json.StringifyHead` | src/components/json.tsx:110 | `JSON.stringify` output starts with a quote exactly for strings |
| `Json.QuoteBodyRoundTrip` | src/components/json.tsx:110 | Reading back the quoted body `JSON.stringify` writes gives the string |
| `Json.QuoteBodyLines` | src/components/json.tsx:110 | The quoted body has a line terminator exactly when the string holds U+2028 or U+2029, and it is empty exactly for the empty string |
| `Json.JsToStringFails` | src/components/json.tsx:138 | `${x}` throws exactly for an object with its own `toString` entry, or an array holding such a value at any depth; a string interpolates as itself, and a number's text reads back as the number |
| `CopyText.CopyText` | src/components/json.tsx:110 | `.replace(/^"(.+)"$/, "$1")`: when the pattern matches, the result is two characters shorter. See `CopyTextStrips` |
| `CopyText.CopiedText` | src/components/json.tsx:110 | The text a key label copies. See `CopiedString` and `CopiedNonString` |
| `CopyText.CopyTextStrips` | src/components/json.tsx:110 | The text changes exactly when `^"(.+)"$` matches, and then only the first and last characters are removed |
| `CopyText.CopiedString` | src/components/json.tsx:110 | A non-empty string without U+2028 or U+2029 copies as its escaped body without quotes, which reads back as the string; other strings keep their quotes |
| `CopyText.CopiedNonString` | src/components/json.tsx:110 | Numbers, booleans, null, arrays and objects copy as their full serialisation |
| `CopyText.CopiedExamples` | src/components/json.tsx:110 | `"hi"` copies `hi`, `42` copies `42`, and `""` copies `""` |
| `View.Dispatch` | src/components/json.tsx:190-196 | `JSONValue`'s ordered tests. See `DispatchTable` |
| `View.IsObject` | src/components/json.tsx:101 | `value === Object(value)`. See `BlockIffCompound` |
| `View.Render` | src/components/json.tsx:190-197 | `JSONValue` as a render tree, or the `TypeError` it throws. See `ScalarNodes`, `ArrayLayout`, `ObjectLayout` and `RenderFails` |
| `View.RenderItems` | src/components/json.tsx:171-188 | `JSONArray`'s rows from index `i` on. See `RenderItemsShape` and `RenderItemsFail` |
| `View.RenderFields` | src/components/json.tsx:93-128 | `JSONObject`'s entries from index `i` on. See `RenderFieldsShape` and `RenderFieldsFail` |
| `View.BlobPreview` | src/components/json.tsx:130-166 | The blob preview row, or the `TypeError` it throws. See `BlobPreviewRules` and `BlobPreviewFails` |
| `ViewLemmas.DispatchTable` | src/components/json.tsx:190-197 | In both directions: the ordered tests send strings, numbers, booleans, null, arrays and objects each to their own renderer |
| `ViewLemmas.BlockIffCompound` | src/components/json.tsx:101 | `value === Object(value)` holds exactly for arrays and objects, not for null |
| `ViewLemmas.ScalarNodes` | src/components/json.tsx:81-91 | A string renders as segments that spell it; a number's text reads back as the number; booleans and null render as their literal |
| `ViewLemmas.RenderItemsShape` | src/components/json.tsx:173-186 | From index `i` on, each element is rendered in order, and the spacing flag is set exactly for compound elements other than the last |
| `ViewLemmas.ArrayLayout` | src/components/json.tsx:171-188 | An array renders every element in order; element `j` is spaced exactly when it is an array or object and `j` is not the last index |
| `ViewLemmas.RenderFieldsShape` | src/components/json.tsx:96-127 | From index `i` on, each entry keeps its key, copy text, block flag and rendered value |
| `ViewLemmas.ObjectLayout` | src/components/json.tsx:93-168 | Every entry is listed in order with its key, copy text, rendered value and a block layout exactly for compound values; the preview row is present exactly for blobs |
| `ViewLemmas.BlobPreviewRules` | src/components/json.tsx:132-162 | Thumbnail exactly for `image/` types, at the CDN address built from the interpolated `ref.$link`; video player exactly for `video/mp4`, so never both, with `did` the repository and `cid` the raw `ref.$link`; download link exactly when a PDS host is known, at its `getBlob` address |
| `ViewLemmas.BlobRowRules` | src/components/json.tsx:132-166 | The same rules, `cid` prop included, hold for the preview row of a rendered blob object |
| `ViewLemmas.ImageBlobExample` | src/components/json.tsx:136-147 | An `image/jpeg` blob with link `cid123` in repository `did:plc:xyz` gets the thumbnail `https://cdn.bsky.app/img/feed_thumbnail/plain/did:plc:xyz/cid123@jpeg` |
| `ViewLemmas.BlobPreviewFails` | src/components/json.tsx:136-153 | The preview throws exactly when the MIME type is not a string; or when something shown reads `ref.$link` while `ref` is missing or null; or when a thumbnail or download link interpolates a `ref.$link` whose conversion to text throws |
| `ViewLemmas.ToStringLinkExample` | src/components/json.tsx:136-139 | An `image/png` blob whose `ref.$link` is `{"toString":1}` throws a `TypeError` |
| `ViewLemmas.RenderFails` | src/components/json.tsx:123-196 | Rendering throws exactly when a broken blob sits somewhere inside the value |
| `ViewLemmas.RenderItemsFail` | src/components/json.tsx:173-186 | The elements from index `i` on throw exactly when one of them holds a broken blob |
| `ViewLemmas.RenderFieldsFail` | src/components/json.tsx:96-127 | The entries from index `i` on throw exactly when one of their values holds a broken blob |
| `ViewLemmas.BrokenItemSomewhere` | src/components/json.tsx:173-186 | "Some element from index `i` on holds a broken blob" holds exactly when one such element exists |
| `ViewLemmas.BrokenFieldSomewhere` | src/components/json.tsx:96-127 | "Some entry from index `i` on holds a broken blob" holds exactly when one such entry exists |

## Left out

- SolidJS rendering is not modelled: `For`, `Show`, JSX, `classList`, the markup and the colour and CSS classes. The render tree keeps only the information the rules decide.
- The `clip` signal, the clipboard write and the icon it toggles are not modelled (lines 94, 107-118). They are UI state and an asynchronous browser call. Only the copied text is modelled.
- `URL.canParse`, its `new URL` fallback and `new URL(part).protocol` are the browser's URL parser. They are the `UrlParser` parameter, and nothing is assumed about their answers.
- `VideoPlayer`, `Tooltip` and the router's `A` are external components. The tree records the link addresses and the video player's `did` and `cid` props. It does not record the `Tooltip` text, `target="_blank"` or any class. The model assumes the video player reads its `cid` prop.
- Numbers are integers. Floating point, the exponent notation JavaScript uses from 10^21 on, and `-0` are not modelled.
- Strings are sequences of Unicode scalar values, not UTF-16 code units. Lone surrogates cannot occur, so the `\uXXXX` escapes `JSON.stringify` writes for them are not modelled.
- An object is the list of its entries in the order `Object.entries` reports them. Property ordering and duplicate keys are the JSON parser's business and are not modelled.
- Only the fact that a `TypeError` is thrown is modelled. Which element throws first, and the error boundary that catches it, are not modelled.

## Findings

| source | as written | input that shows it | evidently intended | confidence | as-written member | corrected member |
|---|---|---|---|---|---|---|
| src/components/json.tsx:70 | external links get `rel="noopener noreferer"`; browsers ignore the unknown keyword `noreferer`, so the Referer header is still sent | any string part such as `https://example.com` that the URL parser accepts with protocol `https:` | `rel="noopener noreferrer"`: `noopener` next to it shows the link is meant to be isolated, and `noreferer` is no keyword browsers know | high; not executed | `TokensLemmas.ExternalLinksSendReferrer` | `TokensLemmas.CorrectedLinksAreIsolated` |
