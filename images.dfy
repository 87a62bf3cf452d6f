/** add_image_to_product: the image list is cleaned, each image becomes an
    attachment id (fetched from a remote server, found by title, or given as
    an id), and the first id becomes the thumbnail and all of them the
    gallery. */
module Images {
  import opened Wrappers
  import opened PhpValues
  import opened Store

  /** The error code every image error is recorded under. */
  const ImageErrorCode := "add_image_to_product"

  // ---------------------------------------------------------------------
  // The fetch mode and the list of images
  // ---------------------------------------------------------------------

  datatype FetchMode = Remote | ByTitle | ById | NoMode

  /** PHP's loose comparison `$v == 'text'` under PHP 7 rules: null is '',
      a boolean compares with the string's truth value, an integer with the
      string read as an integer, a string as LooseEqStr says. */
  predicate LooseEqualsText(v: Value, s: string) {
    match v
    case Null => s == ""
    case Bool(b) => b == Truthy(Str(s))
    case Int(i) => i == ParseInt(s)
    case Str(u) => LooseEqStr(u, s)
    case Arr(_) => false
  }

  /** The case of `switch ( $fetch )` that is taken: the cases are tried in
      order with loose comparison. */
  function FetchModeOf(fetch: Value): FetchMode {
    if LooseEqualsText(fetch, "remote") then Remote
    else if LooseEqualsText(fetch, "title") then ByTitle
    else if LooseEqualsText(fetch, "id") then ById
    else NoMode
  }

  /** Loose matching sends the integer 0 and true to the remote case, as
      well as 'remote' itself. */
  lemma FetchModeRemoteCases()
    ensures FetchModeOf(Str("remote")) == Remote
    ensures FetchModeOf(Int(0)) == Remote && FetchModeOf(Bool(true)) == Remote
  {
    RemoteIsText();
    assert LooseEqualsText(Str("remote"), "remote");
    assert LooseEqualsText(Int(0), "remote");
    assert LooseEqualsText(Bool(true), "remote");
  }

  /** 'remote' is not numeric: read as an integer it is 0. */
  lemma RemoteIsText()
    ensures !IsNumericString("remote") && ParseInt("remote") == 0 && Truthy(Str("remote"))
  {
    var s := "remote";
    assert SkipSpace(s) == s by { assert !IsSpace(s[0]); }
    assert Unsigned(s) == s;
    assert !IsDigit(s[0]);
    assert LeadingDigits(s) == [];
  }

  /** `array_filter` without a callback: the truthy values, in order. */
  function Truthies(xs: seq<Value>): seq<Value>
    decreases |xs|
  {
    if xs == [] then []
    else
      var init := Truthies(xs[..|xs| - 1]);
      var x := xs[|xs| - 1];
      if Truthy(x) then init + [x] else init
  }

  /** The filter keeps exactly the truthy values, and no more values than
      it is given. */
  lemma {:induction false} TruthiesKeepsTruthy(xs: seq<Value>)
    ensures |Truthies(xs)| <= |xs|
    ensures forall i :: 0 <= i < |Truthies(xs)| ==> Truthy(Truthies(xs)[i])
    ensures forall x :: x in Truthies(xs) <==> x in xs && Truthy(x)
    decreases |xs|
  {
    if xs != [] {
      var x := xs[|xs| - 1];
      TruthiesKeepsTruthy(xs[..|xs| - 1]);
      assert xs == xs[..|xs| - 1] + [x];
    }
  }

  /** The filter keeps order and multiplicity: it distributes over
      concatenation, and TruthiesSingle says what it does to one value. */
  lemma {:induction false} TruthiesAppend(xs: seq<Value>, ys: seq<Value>)
    ensures Truthies(xs + ys) == Truthies(xs) + Truthies(ys)
    decreases |ys|
  {
    if ys == [] {
      assert xs + ys == xs;
    } else {
      var init, y := ys[..|ys| - 1], ys[|ys| - 1];
      TruthiesAppend(xs, init);
      var zs := xs + ys;
      assert zs[..|zs| - 1] == xs + init && zs[|zs| - 1] == y;
      assert Truthies(zs) == Truthies(xs + init) + (if Truthy(y) then [y] else []);
      assert Truthies(ys) == Truthies(init) + (if Truthy(y) then [y] else []);
    }
  }

  /** A single value is kept exactly when it is truthy. */
  lemma TruthiesSingle(x: Value)
    ensures Truthies([x]) == if Truthy(x) then [x] else []
  {
    assert [x][..0] == [];
  }

  /** `array_values( array_filter( $images ) )`; anything but an array gives
      no images. */
  function CleanImages(images: Value): seq<Value> {
    Truthies(Values(images))
  }

  // ---------------------------------------------------------------------
  // Names
  // ---------------------------------------------------------------------

  function TrimSlashes(s: string): string {
    if s != [] && s[|s| - 1] == '/' then TrimSlashes(s[..|s| - 1]) else s
  }

  function AfterLastSlash(s: string): string {
    if s == [] || s[|s| - 1] == '/' then [] else AfterLastSlash(s[..|s| - 1]) + [s[|s| - 1]]
  }

  /** basename: the last path component, trailing slashes ignored. */
  function Basename(s: string): string {
    AfterLastSlash(TrimSlashes(s))
  }

  /** The position of the last '.' in s, if any. */
  function LastDot(s: string): (r: Option<nat>)
    ensures r.Some? ==> r.value < |s| && s[r.value] == '.' && forall i :: r.value < i < |s| ==> s[i] != '.'
    ensures r.None? ==> forall i :: 0 <= i < |s| ==> s[i] != '.'
    decreases |s|
  {
    if s == [] then None
    else if s[|s| - 1] == '.' then Some(|s| - 1)
    else LastDot(s[..|s| - 1])
  }

  /** `preg_replace( '/\.[^.]+$/', '', s )`: a final dot followed by at least
      one character that is not a dot is removed, and when there is no such
      suffix s stays as it is. */
  function StripExtension(s: string): (r: string)
    ensures r <= s
    ensures r != s ==> |s| - |r| >= 2 && s[|r|] == '.' && forall i :: |r| < i < |s| ==> s[i] != '.'
    ensures r == s ==> (forall i :: 0 <= i < |s| ==> s[i] != '.') || s[|s| - 1] == '.'
  {
    match LastDot(s)
    case Some(i) => if i < |s| - 1 then s[..i] else s
    case None => s
  }

  /** The name of a remote image: the derived name, or the product title when
      it is empty; when it equals the previous image's name, '_' and the
      index are appended. It never equals the previous name, even under
      PHP's numeric comparison of strings. */
  function ImageName(derived: string, title: string, previous: string, index: nat): (name: string)
    ensures !LooseEqStr(name, previous)
  {
    var base := if LooseEqStr(derived, "") then title else derived;
    if LooseEqStr(base, previous) then
      AppendedNameDiffers(base, previous, index);
      base + "_" + NatToString(index)
    else base
  }

  /** Appending '_' and an index makes a name differ from the one it was
      equal to: the underscore keeps it from being numeric. */
  lemma AppendedNameDiffers(base: string, previous: string, index: nat)
    requires LooseEqStr(base, previous)
    ensures !LooseEqStr(base + "_" + NatToString(index), previous)
  {
    var name := base + "_" + NatToString(index);
    assert name[|base|] == '_';
    UnderscoreNotNumeric(name, |base|);
    assert !IsNumericString(previous) ==> base == previous;
  }

  /** An empty derived name falls back to the product title, and a new name
      is kept as it is. */
  lemma ImageNameFallback(derived: string, title: string, previous: string, index: nat)
    ensures derived == "" && !LooseEqStr(title, previous) ==> ImageName(derived, title, previous, index) == title
    ensures derived != "" && !LooseEqStr(derived, previous) ==> ImageName(derived, title, previous, index) == derived
    ensures derived != "" && LooseEqStr(derived, previous) ==>
              ImageName(derived, title, previous, index) == derived + "_" + NatToString(index)
  {
    assert !IsNumericString("") by { assert Unsigned(SkipSpace("")) == ""; }
  }

  /** The extensions the title case strips. */
  predicate HasImageExtension(s: string) {
    |s| >= 5 && s[|s| - 5] != '.' && s[|s| - 4] == '.'
    && s[|s| - 3..] in {"jpg", "gif", "png", "bmp", "tga"}
  }

  /** The title an image is looked up by in the title case: the name with a
      final known image extension removed. */
  function DropImageExtension(s: string): string {
    if HasImageExtension(s) then s[..|s| - 4] else s
  }

  /** The extension an uploaded image gets from its content type; the
      supported types are image/jpg, image/jpeg, image/gif and image/png. */
  function MimeExtension(ctype: string): (r: Option<string>)
    ensures r.Some? <==> ctype in {"image/jpg", "image/jpeg", "image/gif", "image/png"}
    ensures ctype == "image/jpg" || ctype == "image/jpeg" ==> r == Some("jpg")
    ensures ctype == "image/gif" ==> r == Some("gif")
    ensures ctype == "image/png" ==> r == Some("png")
  {
    if ctype == "image/jpg" || ctype == "image/jpeg" then Some("jpg")
    else if ctype == "image/gif" then Some("gif")
    else if ctype == "image/png" then Some("png")
    else None
  }

  // ---------------------------------------------------------------------
  // The loop over the images
  // ---------------------------------------------------------------------

  /** What the loop threads from one image to the next. */
  datatype ImageState = ImageState(t: Tables, errors: seq<WpError>, ids: seq<Value>, previous: string)

  /** The attachment post created for an uploaded image. */
  function AttachmentPost(host: Host, slug: string, ctype: string, url: string, pid: nat): Post {
    Post(Int(host.currentUser), Str(slug), host.sanitizeTitle(slug), Str("inherit"), Str(""), Str(""),
         "", "", "attachment", pid, ctype, url)
  }

  /** What one image may change in the tables: attachments and new posts,
      and of the meta rows only the product's `_thumbnail_id`. */
  ghost predicate ImageFrame(a: Tables, b: Tables, pid: nat) {
    && b.terms == a.terms && b.objectTerms == a.objectTerms && b.nextTermId == a.nextTermId
    && (forall s :: s in a.attachments ==> s in b.attachments && b.attachments[s] == a.attachments[s])
    && (forall k :: k != (pid, "_thumbnail_id") ==> (k in b.meta <==> k in a.meta))
    && (forall k :: k != (pid, "_thumbnail_id") && k in a.meta ==> b.meta[k] == a.meta[k])
    && b.nextPostId >= a.nextPostId
    && (forall id :: id < a.nextPostId ==> (id in b.posts <==> id in a.posts))
    && (forall id :: id < a.nextPostId && id in a.posts ==> b.posts[id] == a.posts[id])
  }

  lemma ImageFrameTrans(a: Tables, b: Tables, c: Tables, pid: nat)
    requires ImageFrame(a, b, pid) && ImageFrame(b, c, pid)
    ensures ImageFrame(a, c, pid)
  {
  }

  /** How one image changes the state: the tables within the frame, at most
      one more id and one more error, and the tables only along with an id. */
  ghost predicate StepShape(a: ImageState, b: ImageState, pid: nat) {
    && ImageFrame(a.t, b.t, pid)
    && (Valid(a.t) ==> Valid(b.t))
    && a.ids <= b.ids && |b.ids| <= |a.ids| + 1
    && a.errors <= b.errors
    && (|b.ids| == |a.ids| ==> b.t == a.t)
  }

  /** One error message more, recorded under the image error code. */
  predicate AddsImageError(before: seq<WpError>, after: seq<WpError>) {
    |after| == |before| + 1 && after[..|before|] == before && after[|before|].code == ImageErrorCode
  }

  /** Downloading and uploading an image that is not yet an attachment: a
      missing or unsupported content type or a failed upload is recorded as
      an error; otherwise a new attachment is created and its id pushed. */
  function Download(st: ImageState, host: Host, pid: nat, url: string, slug: string): (r: ImageState)
    requires slug !in st.t.attachments
    ensures StepShape(st, r, pid)
    ensures |r.ids| > |st.ids| ==> NamesAttachment(r.ids[|st.ids|], r.t)
    ensures |r.ids| + |r.errors| == |st.ids| + |st.errors| + 1
    ensures r.previous == st.previous
    ensures var response := host.remoteGet(url);
            var ctype := response.contentType;
            !Truthy(Str(ctype)) || MimeExtension(ctype).None?
            || Truthy(host.uploadBits(slug + "." + MimeExtension(ctype).value, response.body).error)
            ==> r.t == st.t && r.ids == st.ids && AddsImageError(st.errors, r.errors)
    ensures var response := host.remoteGet(url);
            var ctype := response.contentType;
            Truthy(Str(ctype)) && MimeExtension(ctype).Some? ==>
              var upload := host.uploadBits(slug + "." + MimeExtension(ctype).value, response.body);
              !Truthy(upload.error) ==>
                && r.errors == st.errors && r.ids == st.ids + [Int(st.t.nextPostId)]
                && r.t == InsertAttachment(st.t, slug, AttachmentPost(host, slug, ctype, upload.url, pid))
  {
    var response := host.remoteGet(url);
    var ctype := response.contentType;
    if !Truthy(Str(ctype)) then
      st.(errors := st.errors + [WpError(ImageErrorCode, "Mime type not found: " + url)])
    else
      match MimeExtension(ctype)
      case None =>
        st.(errors := st.errors + [WpError(ImageErrorCode, "Mime type " + ctype + " invalid: " + url)])
      case Some(ext) =>
        var upload := host.uploadBits(slug + "." + ext, response.body);
        if Truthy(upload.error) then
          st.(errors := st.errors + [WpError(ImageErrorCode, ToStr(upload.error) + " Image:" + url)])
        else
          var t' := InsertAttachment(st.t, slug, AttachmentPost(host, slug, ctype, upload.url, pid));
          assert t'.attachments[slug] == st.t.nextPostId;
          st.(t := t', ids := st.ids + [Int(st.t.nextPostId)])
  }

  /** A successful download files exactly one new post under the slug: an
      attachment of the product, titled by the slug, with the content type
      and the uploaded file's url, under the next free post id. Every other
      post, meta row and term stays as it was. */
  lemma DownloadCreatesAttachment(st: ImageState, host: Host, pid: nat, url: string, slug: string)
    requires slug !in st.t.attachments
    ensures var response := host.remoteGet(url);
            var ctype := response.contentType;
            var r := Download(st, host, pid, url, slug);
            var id := st.t.nextPostId;
            Truthy(Str(ctype)) && MimeExtension(ctype).Some? ==>
              var upload := host.uploadBits(slug + "." + MimeExtension(ctype).value, response.body);
              !Truthy(upload.error) ==>
                && r.t.attachments == st.t.attachments[slug := id]
                && r.t.posts.Keys == st.t.posts.Keys + {id} && r.t.nextPostId == id + 1
                && (forall q :: q in st.t.posts && q != id ==> r.t.posts[q] == st.t.posts[q])
                && r.t.posts[id].postType == "attachment"
                && r.t.posts[id].title == Str(slug)
                && r.t.posts[id].mimeType == ctype
                && r.t.posts[id].guid == upload.url
                && r.t.posts[id].parent == pid
                && r.t.meta == st.t.meta && r.t.terms == st.t.terms && r.t.objectTerms == st.t.objectTerms
  {
  }

  /** One image in the remote case: its name is derived and remembered, an
      attachment already filed under the sanitised name is reused, and any
      other image is downloaded. */
  function RemoteStep(st: ImageState, host: Host, pid: nat, image: Value, index: nat): (r: ImageState)
    ensures StepShape(st, r, pid)
    ensures |r.ids| > |st.ids| ==> NamesAttachment(r.ids[|st.ids|], r.t)
    ensures |r.ids| + |r.errors| == |st.ids| + |st.errors| + 1
    ensures var name := ImageName(StripExtension(Basename(ToStr(image))), PostTitle(st.t, pid), st.previous, index);
            var slug := host.sanitizeTitle(name);
            && r.previous == name
            && (slug in st.t.attachments ==>
                  r.t == st.t && r.errors == st.errors && r.ids == st.ids + [Int(st.t.attachments[slug])])
            && (slug !in st.t.attachments ==> r == Download(st.(previous := name), host, pid, ToStr(image), slug))
  {
    var url := ToStr(image);
    var name := ImageName(StripExtension(Basename(url)), PostTitle(st.t, pid), st.previous, index);
    var slug := host.sanitizeTitle(name);
    if slug in st.t.attachments then
      st.(previous := name, ids := st.ids + [Int(st.t.attachments[slug])])
    else
      Download(st.(previous := name), host, pid, url, slug)
  }

  /** One image in the title case: the first image, when found, is also set
      as the thumbnail at once. */
  function TitleStep(st: ImageState, pid: nat, image: Value, index: nat): (r: ImageState)
    ensures StepShape(st, r, pid)
    ensures |r.ids| > |st.ids| ==> NamesAttachment(r.ids[|st.ids|], r.t)
    ensures |r.ids| + |r.errors| == |st.ids| + |st.errors| + 1
    ensures var title := DropImageExtension(ToStr(image));
            title in st.t.attachments ==>
              var id := st.t.attachments[title];
              && r.errors == st.errors && r.ids == st.ids + [Int(id)]
              && (index == 0 && pid != 0 ==>
                    (pid, "_thumbnail_id") in r.t.meta && r.t.meta[(pid, "_thumbnail_id")] == Int(id))
              && (index == 0 ==> r.t == PutMeta(st.t, pid, "_thumbnail_id", Int(id)))
              && (index != 0 ==> r.t == st.t)
    ensures DropImageExtension(ToStr(image)) !in st.t.attachments ==>
              r.t == st.t && r.ids == st.ids && AddsImageError(st.errors, r.errors)
  {
    var title := DropImageExtension(ToStr(image));
    if title in st.t.attachments then
      var id := st.t.attachments[title];
      st.(t := if index == 0 then PutMeta(st.t, pid, "_thumbnail_id", Int(id)) else st.t,
          ids := st.ids + [Int(id)])
    else
      st.(errors := st.errors + [WpError(ImageErrorCode, "Image missing in DB")])
  }

  function ImageStep(st: ImageState, host: Host, pid: nat, mode: FetchMode, image: Value, index: nat): (r: ImageState)
    ensures StepShape(st, r, pid)
    ensures (mode == Remote || mode == ByTitle) ==> |r.ids| + |r.errors| == |st.ids| + |st.errors| + 1
    ensures (mode == Remote || mode == ByTitle) && |r.ids| > |st.ids| ==> NamesAttachment(r.ids[|st.ids|], r.t)
  {
    match mode
    case Remote => RemoteStep(st, host, pid, image, index)
    case ByTitle => TitleStep(st, pid, image, index)
    case ById => st.(ids := st.ids + [image])
    case NoMode => st
  }

  /** What the loop guarantees after n images: the tables change within the
      frame and stay valid, ids and errors only grow, the tables change only
      along with an id, in the remote and title cases each image yields an id
      or an error, and there every id names an attachment. */
  ghost predicate LoopShape(s: ImageState, r: ImageState, pid: nat, mode: FetchMode, n: nat) {
    && ImageFrame(s.t, r.t, pid)
    && (Valid(s.t) ==> Valid(r.t))
    && s.ids <= r.ids && s.errors <= r.errors
    && (|r.ids| == |s.ids| ==> r.t == s.t)
    && ((mode == Remote || mode == ByTitle) ==> |r.ids| + |r.errors| == |s.ids| + |s.errors| + n)
    && ((mode == Remote || mode == ByTitle) && AllNameAttachments(s.ids, s.t) ==> AllNameAttachments(r.ids, r.t))
  }

  /** One more image keeps the loop's guarantees. */
  lemma LoopShapeStep(s: ImageState, before: ImageState, r: ImageState, pid: nat, mode: FetchMode, n: nat)
    requires LoopShape(s, before, pid, mode, n)
    requires StepShape(before, r, pid)
    requires (mode == Remote || mode == ByTitle) ==> |r.ids| + |r.errors| == |before.ids| + |before.errors| + 1
    requires (mode == Remote || mode == ByTitle) && |r.ids| > |before.ids| ==> NamesAttachment(r.ids[|before.ids|], r.t)
    ensures LoopShape(s, r, pid, mode, n + 1)
  {
    ImageFrameTrans(s.t, before.t, r.t, pid);
    AttachmentsKept(before.ids, before.t, r.t);
    assert r.ids == before.ids || r.ids == before.ids + [r.ids[|before.ids|]];
  }

  /** The loop after the first n images. */
  function RunImages(s: ImageState, host: Host, pid: nat, mode: FetchMode, images: seq<Value>, n: nat): (r: ImageState)
    requires n <= |images|
    ensures LoopShape(s, r, pid, mode, n)
    decreases n
  {
    if n == 0 then s
    else
      var before := RunImages(s, host, pid, mode, images, n - 1);
      var r := ImageStep(before, host, pid, mode, images[n - 1], n - 1);
      LoopShapeStep(s, before, r, pid, mode, n - 1);
      r
  }

  /** The loop after n + 1 images is one more step after n. */
  lemma RunImagesUnfold(s: ImageState, host: Host, pid: nat, mode: FetchMode, images: seq<Value>, n: nat)
    requires n < |images|
    ensures RunImages(s, host, pid, mode, images, n + 1)
         == ImageStep(RunImages(s, host, pid, mode, images, n), host, pid, mode, images[n], n)
  {
  }

  /** The id is that of an attachment. */
  ghost predicate NamesAttachment(id: Value, t: Tables) {
    id.Int? && id.i in t.attachments.Values
  }

  ghost predicate AllNameAttachments(ids: seq<Value>, t: Tables) {
    forall k :: 0 <= k < |ids| ==> NamesAttachment(ids[k], t)
  }

  /** Attachments that stay filed under their titles keep naming their ids. */
  lemma AttachmentsKept(ids: seq<Value>, a: Tables, b: Tables)
    requires forall s :: s in a.attachments ==> s in b.attachments && b.attachments[s] == a.attachments[s]
    ensures AllNameAttachments(ids, a) ==> AllNameAttachments(ids, b)
  {
    forall k | 0 <= k < |ids| && NamesAttachment(ids[k], a) ensures NamesAttachment(ids[k], b) {
      var s :| s in a.attachments && a.attachments[s] == ids[k].i;
      assert b.attachments[s] == ids[k].i;
    }
  }

  /** The thumbnail is the first id and the gallery all ids joined by ',';
      with no id nothing is written. */
  function FinishImages(t: Tables, pid: nat, ids: seq<Value>): Tables {
    if |ids| > 0 then
      var withThumb := PutMeta(t, pid, "_thumbnail_id", Int(Absint(ids[0])));
      PutMeta(withThumb, pid, "_product_image_gallery", Str(Implode(",", ToStrs(ids))))
    else t
  }

  function ToStrs(vs: seq<Value>): (r: seq<string>)
    ensures |r| == |vs| && forall i :: 0 <= i < |vs| ==> r[i] == ToStr(vs[i])
  {
    seq(|vs|, i requires 0 <= i < |vs| => ToStr(vs[i]))
  }

  /** The state after the whole loop of add_image_to_product. */
  function ImagesRun(t: Tables, errors: seq<WpError>, host: Host, pid: nat, images: Value, fetch: Value): ImageState {
    var list := CleanImages(images);
    RunImages(ImageState(t, errors, [], ""), host, pid, FetchModeOf(fetch), list, |list|)
  }

  /** add_image_to_product: the tables and error messages it leaves. */
  function AddImagesSpec(t: Tables, errors: seq<WpError>, host: Host, pid: nat, images: Value, fetch: Value): (Tables, seq<WpError>) {
    var st := ImagesRun(t, errors, host, pid, images, fetch);
    (FinishImages(st.t, pid, st.ids), st.errors)
  }

  /** What add_image_to_product may change: it keeps the tables valid, only
      adds error messages, adds attachment posts after the existing ones, and
      of the meta rows writes only the product's thumbnail and gallery. */
  lemma AddImagesFrame(t: Tables, errors: seq<WpError>, host: Host, pid: nat, images: Value, fetch: Value)
    ensures var r := AddImagesSpec(t, errors, host, pid, images, fetch);
            && (Valid(t) ==> Valid(r.0))
            && errors <= r.1
            && r.0.terms == t.terms && r.0.objectTerms == t.objectTerms && r.0.nextTermId == t.nextTermId
            && r.0.nextPostId >= t.nextPostId
            && (forall id :: id < t.nextPostId ==> (id in r.0.posts <==> id in t.posts))
            && (forall id :: id < t.nextPostId && id in t.posts ==> r.0.posts[id] == t.posts[id])
            && (forall k :: k != (pid, "_thumbnail_id") && k != (pid, "_product_image_gallery") ==>
                  (k in r.0.meta <==> k in t.meta))
            && (forall k :: k != (pid, "_thumbnail_id") && k != (pid, "_product_image_gallery") && k in t.meta ==>
                  r.0.meta[k] == t.meta[k])
  {
  }

  /** add_image_to_product finishes the state the loop leaves. */
  lemma AddImagesSpecUnfold(t: Tables, errors: seq<WpError>, host: Host, pid: nat, images: Value, fetch: Value)
    ensures var st := ImagesRun(t, errors, host, pid, images, fetch);
            AddImagesSpec(t, errors, host, pid, images, fetch) == (FinishImages(st.t, pid, st.ids), st.errors)
  {
  }

  // ---------------------------------------------------------------------
  // Properties of the loop
  // ---------------------------------------------------------------------

  /** Two consecutive remote images never get names that compare equal. */
  lemma RemoteNamesDiffer(s: ImageState, host: Host, pid: nat, images: seq<Value>, n: nat)
    requires n < |images|
    ensures !LooseEqStr(RunImages(s, host, pid, Remote, images, n + 1).previous,
                        RunImages(s, host, pid, Remote, images, n).previous)
  {
  }

  /** In the id case the ids are the images themselves, in order, and
      nothing else changes. */
  lemma {:induction false} ImagesById(s: ImageState, host: Host, pid: nat, images: seq<Value>, n: nat)
    requires n <= |images|
    ensures RunImages(s, host, pid, ById, images, n) == s.(ids := s.ids + images[..n])
    decreases n
  {
    if n > 0 {
      ImagesById(s, host, pid, images, n - 1);
      assert images[..n] == images[..n - 1] + [images[n - 1]];
    }
  }

  /** When no case of the switch matches, the loop does nothing. */
  lemma {:induction false} ImagesNoMode(s: ImageState, host: Host, pid: nat, images: seq<Value>, n: nat)
    requires n <= |images|
    ensures RunImages(s, host, pid, NoMode, images, n) == s
    decreases n
  {
    if n > 0 {
      ImagesNoMode(s, host, pid, images, n - 1);
    }
  }

  /** The thumbnail is the first id and the gallery all the ids joined by
      ','; when no id survives, neither meta is touched. */
  lemma ThumbnailAndGallery(t: Tables, errors: seq<WpError>, host: Host, pid: nat, images: Value, fetch: Value)
    requires pid != 0
    ensures var st := ImagesRun(t, errors, host, pid, images, fetch);
            var t' := AddImagesSpec(t, errors, host, pid, images, fetch).0;
            var thumb, gallery := (pid, "_thumbnail_id"), (pid, "_product_image_gallery");
            if |st.ids| > 0 then
              thumb in t'.meta && t'.meta[thumb] == Int(Absint(st.ids[0]))
              && gallery in t'.meta && t'.meta[gallery] == Str(Implode(",", ToStrs(st.ids)))
            else
              t' == t
  {
  }
}
