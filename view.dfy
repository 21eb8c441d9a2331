/** The renderers of src/components/json.tsx:81-197 as a function from a JSON value to
    an abstract render tree: which renderer a value gets, the layout flags of array
    items and object fields, the text each key label copies, and the preview row of a
    blob object. Markup, styling and the click handlers are not part of the tree. */
module View {
  import opened Wrappers
  import opened Chars
  import opened Json
  import opened Tokens
  import opened CopyText

  /** What a render reads besides the value: the repository (`repo` prop), the
      `pds()` signal of the navigation bar, and the browser's URL parser. */
  datatype Env = Env(repo: string, pds: Option<string>, url: UrlParser)

  datatype Renderer =
    | StringRenderer | NumberRenderer | BooleanRenderer | NullRenderer | ArrayRenderer | ObjectRenderer

  datatype VideoPlayer = VideoPlayer(did: string, cid: JsProp)

  /** The preview row of a blob (lines 135-162): thumbnail link, video player and
      blob download link, each present or not. */
  datatype BlobRow = BlobRow(thumbnail: Option<string>, video: Option<VideoPlayer>, blobLink: Option<string>)

  datatype Node =
    | StringNode(segments: seq<Segment>)
    | NumberNode(text: string)
    | BooleanNode(text: string)
    | NullNode
    | ArrayNode(items: seq<Item>)
    | ObjectNode(preview: Option<BlobRow>, fields: seq<Field>)

  /** One array element (lines 175-184); `spaced` is the `mb-2` class. */
  datatype Item = Item(spaced: bool, body: Node)

  /** One object entry (lines 98-125): the key label, the text its click copies, the
      block layout flag (`flex-col` on the row and `ml-[2ch]` on the value), the value. */
  datatype Field = Field(key: string, copyText: string, block: bool, body: Node)

  // ---------------------------------------------------------------------------
  // Dispatch (lines 190-197)
  // ---------------------------------------------------------------------------

  /** `typeof v`. */
  function TypeOf(v: JVal): string {
    match v
    case JStr(_) => "string"
    case JNum(_) => "number"
    case JBool(_) => "boolean"
    case _ => "object"
  }

  /** `v === Object(v)`: ToObject returns its argument only when that is already an
      object; a primitive gets a fresh wrapper and `null` a fresh empty object. */
  predicate IsObject(v: JVal) {
    TypeOf(v) == "object" && v != JNull
  }

  function Dispatch(v: JVal): Renderer {
    if TypeOf(v) == "string" then StringRenderer
    else if TypeOf(v) == "number" then NumberRenderer
    else if TypeOf(v) == "boolean" then BooleanRenderer
    else if v == JNull then NullRenderer
    else if v.JArr? then ArrayRenderer
    else ObjectRenderer
  }

  // ---------------------------------------------------------------------------
  // Blob preview (lines 130-166)
  // ---------------------------------------------------------------------------

  function ThumbnailUrl(repo: string, cid: string): string {
    "https://cdn.bsky.app/img/feed_thumbnail/plain/" + repo + "/" + cid + "@jpeg"
  }

  function BlobUrl(host: string, repo: string, cid: string): string {
    "https://" + host + "/xrpc/com.atproto.sync.getBlob?did=" + repo + "&cid=" + cid
  }

  predicate IsBlob(fields: seq<(string, JVal)>) {
    Lookup(fields, "$type") == Defined(JStr("blob"))
  }

  /** `<Show when={pds()}>`: the empty string is falsy. */
  predicate PdsKnown(pds: Option<string>) {
    pds.Some? && pds.value != ""
  }

  /** `blob.ref.$link`: reading a property of `undefined` or `null` throws; other
      primitives and arrays have no `$link`. */
  function RefLink(ref: JsProp): Result<JsProp, JsError> {
    match ref
    case Undefined => Failure(TypeError)
    case Defined(JNull) => Failure(TypeError)
    case Defined(JObj(gs)) => Success(Lookup(gs, "$link"))
    case Defined(_) => Success(Undefined)
  }

  /** The row: `blob.mimeType.startsWith` throws unless the MIME type is a string;
      `blob.ref.$link` is read only by the parts the row shows, and interpolated into
      the thumbnail and download addresses, which can throw too; the video player
      receives it as it is. */
  function BlobPreview(fields: seq<(string, JVal)>, env: Env): Result<BlobRow, JsError> {
    var mime := Lookup(fields, "mimeType");
    if !(mime.Defined? && mime.value.JStr?) then Failure(TypeError)
    else
      var m := mime.value.s;
      var image := StartsWith(m, "image/");
      var video := m == "video/mp4";
      var link := PdsKnown(env.pds);
      if !image && !video && !link then Success(BlobRow(None, None, None))
      else
        match RefLink(Lookup(fields, "ref"))
        case Failure(e) => Failure(e)
        case Success(cid) =>
          var text := PropToString(cid);
          if (image || link) && text.Failure? then Failure(text.error)
          else
            Success(BlobRow(
              if image then Some(ThumbnailUrl(env.repo, text.value)) else None,
              if video then Some(VideoPlayer(env.repo, cid)) else None,
              if link then Some(BlobUrl(env.pds.value, env.repo, text.value)) else None))
  }

  // ---------------------------------------------------------------------------
  // The renderers
  // ---------------------------------------------------------------------------

  function Render(v: JVal, env: Env): Result<Node, JsError>
    decreases v, 1
  {
    var r := Dispatch(v);
    if r == StringRenderer then Success(StringNode(RenderString(v.s, env.url)))
    else if r == NumberRenderer then Success(NumberNode(IntToString(v.n)))
    else if r == BooleanRenderer then Success(BooleanNode(if v.b then "true" else "false"))
    else if r == NullRenderer then Success(NullNode)
    else if r == ArrayRenderer then
      match RenderItems(v.items, 0, env)
      case Failure(e) => Failure(e)
      case Success(items) => Success(ArrayNode(items))
    else
      match RenderFields(v.fields, 0, env)
      case Failure(e) => Failure(e)
      case Success(fields) =>
        if IsBlob(v.fields) then
          match BlobPreview(v.fields, env)
          case Failure(e) => Failure(e)
          case Success(row) => Success(ObjectNode(Some(row), fields))
        else Success(ObjectNode(None, fields))
  }

  /** The elements from index `i` on (`JSONArray`, lines 171-188). */
  function RenderItems(xs: seq<JVal>, i: nat, env: Env): Result<seq<Item>, JsError>
    requires i <= |xs|
    decreases JArr(xs), 0, |xs| - i
  {
    if i == |xs| then Success([])
    else
      match Render(xs[i], env)
      case Failure(e) => Failure(e)
      case Success(body) =>
        match RenderItems(xs, i + 1, env)
        case Failure(e) => Failure(e)
        case Success(rest) => Success([Item(IsObject(xs[i]) && i != |xs| - 1, body)] + rest)
  }

  /** The entries from index `i` on (`JSONObject`, lines 95-128). */
  function RenderFields(fs: seq<(string, JVal)>, i: nat, env: Env): Result<seq<Field>, JsError>
    requires i <= |fs|
    decreases JObj(fs), 0, |fs| - i
  {
    if i == |fs| then Success([])
    else
      assert fs[i] in fs;
      match Render(fs[i].1, env)
      case Failure(e) => Failure(e)
      case Success(body) =>
        match RenderFields(fs, i + 1, env)
        case Failure(e) => Failure(e)
        case Success(rest) =>
          Success([Field(fs[i].0, CopiedText(fs[i].1), IsObject(fs[i].1), body)] + rest)
  }
}
