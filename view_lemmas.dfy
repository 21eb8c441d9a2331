/** Properties of the render tree: dispatch, layout flags, the blob preview row and
    exactly when rendering throws. */
module ViewLemmas {
  import opened Wrappers
  import opened Chars
  import opened Json
  import opened Tokens
  import opened TokensLemmas
  import opened CopyText
  import opened View

  // ---------------------------------------------------------------------------
  // Dispatch and layout
  // ---------------------------------------------------------------------------

  /** The `typeof` tests of lines 191-193 pick out strings, numbers and booleans;
      `null` and arrays, whose `typeof` is "object" as well, are caught by the two
      tests after them, and everything left is an object. */
  lemma DispatchTable(v: JVal)
    ensures Dispatch(v) == StringRenderer <==> v.JStr?
    ensures Dispatch(v) == NumberRenderer <==> v.JNum?
    ensures Dispatch(v) == BooleanRenderer <==> v.JBool?
    ensures Dispatch(v) == NullRenderer <==> v.JNull?
    ensures Dispatch(v) == ArrayRenderer <==> v.JArr?
    ensures Dispatch(v) == ObjectRenderer <==> v.JObj?
  {
  }

  /** `value === Object(value)` holds exactly for arrays and objects; `null` is not
      laid out as a block. */
  lemma BlockIffCompound(v: JVal)
    ensures IsObject(v) <==> v.JArr? || v.JObj?
  {
  }

  /** Scalars render as their text: the string's segments spell it, a number's text
      reads back as the number. */
  lemma ScalarNodes(v: JVal, env: Env)
    ensures v.JStr? ==>
      && Render(v, env).Success? && Render(v, env).value.StringNode?
      && Concat(SegmentTexts(Render(v, env).value.segments)) == v.s
    ensures v.JNum? ==>
      && Render(v, env).Success? && Render(v, env).value.NumberNode?
      && ParseInt(Render(v, env).value.text) == v.n
    ensures v.JBool? ==> Render(v, env) == Success(BooleanNode(if v.b then "true" else "false"))
    ensures v.JNull? ==> Render(v, env) == Success(NullNode)
  {
    if v.JStr? {
      RenderStringTexts(v.s, env.url);
    }
    if v.JNum? {
      IntToStringRoundTrip(v.n);
    }
  }

  lemma RenderItemsStep(xs: seq<JVal>, i: nat, env: Env)
    requires i < |xs| && RenderItems(xs, i, env).Success?
    ensures Render(xs[i], env).Success? && RenderItems(xs, i + 1, env).Success?
    ensures RenderItems(xs, i, env).value
      == [Item(IsObject(xs[i]) && i != |xs| - 1, Render(xs[i], env).value)] + RenderItems(xs, i + 1, env).value
  {
  }

  lemma {:induction false} RenderItemsShape(xs: seq<JVal>, i: nat, env: Env)
    requires i <= |xs| && RenderItems(xs, i, env).Success?
    ensures |RenderItems(xs, i, env).value| == |xs| - i
    ensures forall j | i <= j < |xs| ::
      && Render(xs[j], env) == Success(RenderItems(xs, i, env).value[j - i].body)
      && (RenderItems(xs, i, env).value[j - i].spaced <==> (xs[j].JArr? || xs[j].JObj?) && j != |xs| - 1)
    decreases |xs| - i
  {
    if i < |xs| {
      RenderItemsStep(xs, i, env);
      RenderItemsShape(xs, i + 1, env);
      var items := RenderItems(xs, i, env).value;
      var rest := RenderItems(xs, i + 1, env).value;
      forall j | i <= j < |xs|
        ensures Render(xs[j], env) == Success(items[j - i].body)
        ensures items[j - i].spaced <==> (xs[j].JArr? || xs[j].JObj?) && j != |xs| - 1
      {
        BlockIffCompound(xs[j]);
        if j > i {
          assert items[j - i] == rest[j - (i + 1)];
        }
      }
    }
  }

  /** Every element is rendered, in order, and element `j` gets the extra spacing
      exactly when it is an array or object and not the last one (line 178). */
  lemma ArrayLayout(xs: seq<JVal>, env: Env)
    requires Render(JArr(xs), env).Success?
    ensures Render(JArr(xs), env).value.ArrayNode?
    ensures |Render(JArr(xs), env).value.items| == |xs|
    ensures forall j | 0 <= j < |xs| ::
      && Render(xs[j], env) == Success(Render(JArr(xs), env).value.items[j].body)
      && (Render(JArr(xs), env).value.items[j].spaced <==> (xs[j].JArr? || xs[j].JObj?) && j != |xs| - 1)
  {
    RenderItemsShape(xs, 0, env);
  }

  lemma RenderFieldsStep(fs: seq<(string, JVal)>, i: nat, env: Env)
    requires i < |fs| && RenderFields(fs, i, env).Success?
    ensures Render(fs[i].1, env).Success? && RenderFields(fs, i + 1, env).Success?
    ensures RenderFields(fs, i, env).value
      == [Field(fs[i].0, CopiedText(fs[i].1), IsObject(fs[i].1), Render(fs[i].1, env).value)]
         + RenderFields(fs, i + 1, env).value
  {
  }

  lemma {:induction false} RenderFieldsShape(fs: seq<(string, JVal)>, i: nat, env: Env)
    requires i <= |fs| && RenderFields(fs, i, env).Success?
    ensures |RenderFields(fs, i, env).value| == |fs| - i
    ensures forall j | i <= j < |fs| ::
      var f := RenderFields(fs, i, env).value[j - i];
      && f.key == fs[j].0
      && f.copyText == CopiedText(fs[j].1)
      && (f.block <==> fs[j].1.JArr? || fs[j].1.JObj?)
      && Render(fs[j].1, env) == Success(f.body)
    decreases |fs| - i
  {
    if i < |fs| {
      RenderFieldsStep(fs, i, env);
      RenderFieldsShape(fs, i + 1, env);
      var fields := RenderFields(fs, i, env).value;
      var rest := RenderFields(fs, i + 1, env).value;
      forall j | i <= j < |fs|
        ensures fields[j - i].key == fs[j].0
        ensures fields[j - i].copyText == CopiedText(fs[j].1)
        ensures fields[j - i].block <==> fs[j].1.JArr? || fs[j].1.JObj?
        ensures Render(fs[j].1, env) == Success(fields[j - i].body)
      {
        BlockIffCompound(fs[j].1);
        if j > i {
          assert fields[j - i] == rest[j - (i + 1)];
        }
      }
    }
  }

  /** Every entry is listed, in order, with its key, the text its label copies, the
      block layout exactly for array and object values (lines 101, 122) and its
      rendered value; the preview row is there exactly for blobs, and the listing is
      complete with or without it. */
  lemma ObjectLayout(fs: seq<(string, JVal)>, env: Env)
    requires Render(JObj(fs), env).Success?
    ensures Render(JObj(fs), env).value.ObjectNode?
    ensures Render(JObj(fs), env).value.preview.Some? <==> IsBlob(fs)
    ensures |Render(JObj(fs), env).value.fields| == |fs|
    ensures forall j | 0 <= j < |fs| ::
      var f := Render(JObj(fs), env).value.fields[j];
      && f.key == fs[j].0
      && f.copyText == CopiedText(fs[j].1)
      && (f.block <==> fs[j].1.JArr? || fs[j].1.JObj?)
      && Render(fs[j].1, env) == Success(f.body)
  {
    RenderFieldsShape(fs, 0, env);
  }

  // ---------------------------------------------------------------------------
  // The blob row
  // ---------------------------------------------------------------------------

  /** `blob.ref.$link` when `blob.ref` can be read. */
  function LinkProp(fs: seq<(string, JVal)>): JsProp {
    match Lookup(fs, "ref")
    case Defined(JObj(gs)) => Lookup(gs, "$link")
    case _ => Undefined
  }

  lemma RenderObjectStep(fs: seq<(string, JVal)>, env: Env)
    requires Render(JObj(fs), env).Success?
    ensures RenderFields(fs, 0, env).Success?
    ensures IsBlob(fs) ==>
      && BlobPreview(fs, env).Success?
      && Render(JObj(fs), env).value == ObjectNode(Some(BlobPreview(fs, env).value), RenderFields(fs, 0, env).value)
    ensures !IsBlob(fs) ==> Render(JObj(fs), env).value == ObjectNode(None, RenderFields(fs, 0, env).value)
  {
  }

  /** The rules of the row itself, whenever it can be built. */
  lemma BlobPreviewRules(fs: seq<(string, JVal)>, env: Env)
    requires BlobPreview(fs, env).Success?
    ensures Lookup(fs, "mimeType").Defined? && Lookup(fs, "mimeType").value.JStr?
    ensures
      var m := Lookup(fs, "mimeType").value.s;
      var row := BlobPreview(fs, env).value;
      && (row.thumbnail.Some? <==> StartsWith(m, "image/"))
      && (row.video.Some? <==> m == "video/mp4")
      && (row.blobLink.Some? <==> PdsKnown(env.pds))
      && !(row.thumbnail.Some? && row.video.Some?)
      && (row.thumbnail.Some? || row.blobLink.Some? ==> PropToString(LinkProp(fs)).Success?)
      && (row.thumbnail.Some? ==> row.thumbnail.value == ThumbnailUrl(env.repo, PropToString(LinkProp(fs)).value))
      && (row.video.Some? ==> row.video.value == VideoPlayer(env.repo, LinkProp(fs)))
      && (row.blobLink.Some? ==> row.blobLink.value == BlobUrl(env.pds.value, env.repo, PropToString(LinkProp(fs)).value))
  {
    var m := Lookup(fs, "mimeType").value.s;
    if StartsWith(m, "image/") {
      assert m[0] == m[..6][0] == 'i';
    }
  }

  /** Thumbnail exactly for `image/` types, at the CDN address of the repository and
      link; video player exactly for `video/mp4`, so never both; the download link
      exactly when a PDS host is known, at that host's `getBlob` endpoint. */
  lemma BlobRowRules(fs: seq<(string, JVal)>, env: Env)
    requires IsBlob(fs) && Render(JObj(fs), env).Success?
    ensures Lookup(fs, "mimeType").Defined? && Lookup(fs, "mimeType").value.JStr?
    ensures Render(JObj(fs), env).value.ObjectNode? && Render(JObj(fs), env).value.preview.Some?
    ensures
      var m := Lookup(fs, "mimeType").value.s;
      var row := Render(JObj(fs), env).value.preview.value;
      && (row.thumbnail.Some? <==> StartsWith(m, "image/"))
      && (row.video.Some? <==> m == "video/mp4")
      && (row.blobLink.Some? <==> PdsKnown(env.pds))
      && !(row.thumbnail.Some? && row.video.Some?)
      && (row.thumbnail.Some? || row.blobLink.Some? ==> PropToString(LinkProp(fs)).Success?)
      && (row.thumbnail.Some? ==> row.thumbnail.value == ThumbnailUrl(env.repo, PropToString(LinkProp(fs)).value))
      && (row.video.Some? ==> row.video.value == VideoPlayer(env.repo, LinkProp(fs)))
      && (row.blobLink.Some? ==> row.blobLink.value == BlobUrl(env.pds.value, env.repo, PropToString(LinkProp(fs)).value))
  {
    RenderObjectStep(fs, env);
    BlobPreviewRules(fs, env);
  }

  // ---------------------------------------------------------------------------
  // When rendering throws
  // ---------------------------------------------------------------------------

  /** A blob whose preview throws: its MIME type is not a string, or the row shows
      something that reads `ref.$link` while `ref` is missing or `null`, or it shows a
      thumbnail or download link and interpolating `ref.$link` throws. */
  predicate BlobBroken(fs: seq<(string, JVal)>, env: Env) {
    var mime := Lookup(fs, "mimeType");
    var ref := Lookup(fs, "ref");
    var link := LinkProp(fs);
    || !(mime.Defined? && mime.value.JStr?)
    || ((StartsWith(mime.value.s, "image/") || mime.value.s == "video/mp4" || PdsKnown(env.pds))
        && (ref == Undefined || ref == Defined(JNull)))
    || ((StartsWith(mime.value.s, "image/") || PdsKnown(env.pds))
        && link.Defined? && ToStringThrows(link.value))
  }

  /** Some object inside `v` is a broken blob. */
  predicate Broken(v: JVal, env: Env)
    decreases v, 1
  {
    match v
    case JArr(xs) => BrokenItem(xs, 0, env)
    case JObj(fs) => (IsBlob(fs) && BlobBroken(fs, env)) || BrokenField(fs, 0, env)
    case _ => false
  }

  /** Some element from index `i` on holds a broken blob. */
  predicate BrokenItem(xs: seq<JVal>, i: nat, env: Env)
    requires i <= |xs|
    decreases JArr(xs), 0, |xs| - i
  {
    i < |xs| && (Broken(xs[i], env) || BrokenItem(xs, i + 1, env))
  }

  /** Some entry from index `i` on has a value that holds a broken blob. */
  predicate BrokenField(fs: seq<(string, JVal)>, i: nat, env: Env)
    requires i <= |fs|
    decreases JObj(fs), 0, |fs| - i
  {
    i < |fs| && (assert fs[i] in fs; Broken(fs[i].1, env) || BrokenField(fs, i + 1, env))
  }

  lemma {:induction false} BrokenItemSomewhere(xs: seq<JVal>, i: nat, env: Env)
    requires i <= |xs|
    ensures BrokenItem(xs, i, env) <==> exists j | i <= j < |xs| :: Broken(xs[j], env)
    decreases |xs| - i
  {
    if i < |xs| {
      BrokenItemSomewhere(xs, i + 1, env);
    }
  }

  lemma {:induction false} BrokenFieldSomewhere(fs: seq<(string, JVal)>, i: nat, env: Env)
    requires i <= |fs|
    ensures BrokenField(fs, i, env) <==> exists j | i <= j < |fs| :: Broken(fs[j].1, env)
    decreases |fs| - i
  {
    if i < |fs| {
      BrokenFieldSomewhere(fs, i + 1, env);
    }
  }

  lemma BlobPreviewFails(fs: seq<(string, JVal)>, env: Env)
    ensures BlobPreview(fs, env).Failure? <==> BlobBroken(fs, env)
  {
    if LinkProp(fs).Defined? {
      JsToStringFails(LinkProp(fs).value);
    }
  }

  /** Rendering throws exactly when the value holds a broken blob at any depth; every
      other value renders. */
  lemma {:induction false} RenderFails(v: JVal, env: Env)
    ensures Render(v, env).Failure? <==> Broken(v, env)
    decreases v, 1
  {
    match v
    case JArr(xs) =>
      RenderItemsFail(xs, 0, env);
    case JObj(fs) =>
      RenderFieldsFail(fs, 0, env);
      BlobPreviewFails(fs, env);
    case _ =>
  }

  lemma {:induction false} RenderItemsFail(xs: seq<JVal>, i: nat, env: Env)
    requires i <= |xs|
    ensures RenderItems(xs, i, env).Failure? <==> BrokenItem(xs, i, env)
    decreases JArr(xs), 0, |xs| - i
  {
    if i < |xs| {
      RenderFails(xs[i], env);
      RenderItemsFail(xs, i + 1, env);
    }
  }

  lemma RenderFieldsFailStep(fs: seq<(string, JVal)>, i: nat, env: Env)
    requires i < |fs|
    ensures RenderFields(fs, i, env).Failure?
        <==> Render(fs[i].1, env).Failure? || RenderFields(fs, i + 1, env).Failure?
  {
  }

  lemma {:induction false} RenderFieldsFail(fs: seq<(string, JVal)>, i: nat, env: Env)
    requires i <= |fs|
    ensures RenderFields(fs, i, env).Failure? <==> BrokenField(fs, i, env)
    decreases JObj(fs), 0, |fs| - i
  {
    if i < |fs| {
      assert fs[i] in fs;
      RenderFieldsFailStep(fs, i, env);
      RenderFails(fs[i].1, env);
      RenderFieldsFail(fs, i + 1, env);
    }
  }

  /** An image blob with a string link gets the thumbnail
      `https://cdn.bsky.app/img/feed_thumbnail/plain/did:plc:xyz/cid123@jpeg`, and no
      download link while no PDS host is known. */
  lemma ImageBlobExample(url: UrlParser)
    ensures
      var blob := [("$type", JStr("blob")), ("mimeType", JStr("image/jpeg")),
                   ("ref", JObj([("$link", JStr("cid123"))]))];
      && IsBlob(blob)
      && BlobPreview(blob, Env("did:plc:xyz", None, url))
         == Success(BlobRow(Some(ThumbnailUrl("did:plc:xyz", "cid123")), None, None))
  {
    var blob := [("$type", JStr("blob")), ("mimeType", JStr("image/jpeg")),
                 ("ref", JObj([("$link", JStr("cid123"))]))];
    assert Lookup(blob, "mimeType") == Defined(JStr("image/jpeg"));
    assert Lookup(blob, "ref") == Defined(JObj([("$link", JStr("cid123"))]));
    assert StartsWith("image/jpeg", "image/");
  }

  /** An image blob whose link is an object with its own `toString` entry throws while
      its thumbnail address is built. */
  lemma ToStringLinkExample(env: Env)
    ensures
      var blob := [("$type", JStr("blob")), ("mimeType", JStr("image/png")),
                   ("ref", JObj([("$link", JObj([("toString", JNum(1))]))]))];
      && IsBlob(blob)
      && BlobPreview(blob, env) == Failure(TypeError)
  {
    var link := JObj([("toString", JNum(1))]);
    var blob := [("$type", JStr("blob")), ("mimeType", JStr("image/png")), ("ref", JObj([("$link", link)]))];
    assert Lookup(blob, "mimeType") == Defined(JStr("image/png"));
    assert blob[1..][1..] == [("ref", JObj([("$link", link)]))];
    assert blob[0].0 != "ref" && blob[1..][0].0 != "ref";
    assert Lookup(blob[1..][1..], "ref") == Defined(JObj([("$link", link)]));
    assert Lookup(blob, "ref") == Defined(JObj([("$link", link)]));
    assert Lookup([("$link", link)], "$link") == Defined(link);
    assert Lookup(link.fields, "toString").Defined?;
    assert StartsWith("image/png", "image/");
  }
}
