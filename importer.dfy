/** WooCommerce_Product_Importer: the importer object, holding the tables it
    writes to and its collection of error messages, with the public
    operations add_product, delete_product, add_image_to_product,
    add_product_to_category, add_category, associate_upsell_sku,
    associate_crosssell_sku and product_exist. Each method is proved to leave
    the state its specification function describes; the properties of those
    functions are the lemmas of this module and of the modules it imports. */
module Importer {
  import opened Wrappers
  import opened PhpValues
  import opened NatSets
  import opened ArgsMerge
  import opened Store
  import opened ProductRecord
  import opened Images
  import opened Categories
  import opened Relations

  /** The message add_product records when the SKU is missing. */
  const SkuMissing := WpError("product", "SKU is missing")

  /** `array_map( 'trim', $tags )`: each tag trimmed; a non-array gives no
      tags. */
  function TagTerms(tags: Value): (r: seq<Value>)
    ensures |r| == |Values(tags)|
    ensures forall i :: 0 <= i < |r| ==> r[i] == Str(Trim(ToStr(Values(tags)[i])))
  {
    var vs := Values(tags);
    seq(|vs|, i requires 0 <= i < |vs| => Str(Trim(ToStr(vs[i]))))
  }

  /** The product type terms: a single value stands for a list of one. */
  function TypeTerms(ty: Value): seq<Value> {
    if ty.Arr? then Values(ty) else [ty]
  }

  /** What add_product leaves: the tables, the error messages and its
      return value. */
  datatype Outcome = Outcome(t: Tables, errors: seq<WpError>, result: Value)

  /** The post row written by add_product and the id it gets: with
      `$update_if_sku_exist` and a product already carrying the SKU, that
      product is updated and wp_update_post returns its id (0 when no such
      post exists); otherwise a new product is inserted. */
  ghost function SavePost(t: Tables, host: Host, a: Value, update: bool): (r: (Tables, nat))
    ensures Valid(t) ==> Valid(r.0)
    ensures r.0.meta == t.meta && r.0.terms == t.terms && r.0.objectTerms == t.objectTerms
    ensures r.0.attachments == t.attachments && r.0.nextTermId == t.nextTermId
  {
    var existing := SkuLookup(t, SkuOf(a));
    var post := ProductPost(a, host);
    if update && Truthy(existing) then (UpdatePost(t, Absint(existing), post), UpdatedId(t, Absint(existing)))
    else (InsertPost(t, post), t.nextPostId)
  }

  /** add_product, step by step: complete the arguments, refuse a missing
      SKU, save the post, then fill in the saved product. */
  ghost function AddProductSpec(t: Tables, errs: seq<WpError>, host: Host, args: Value, update: bool): Outcome {
    var a := CompleteArgs(args);
    if Empty(SkuOf(a)) then Outcome(t, errs + [SkuMissing], Null)
    else
      var saved := SavePost(t, host, a, update);
      if saved.1 == 0 then Outcome(saved.0, errs, Int(0))
      else FillProduct(saved.0, errs, host, saved.1, a)
  }

  /** What add_product writes for the saved product id: the metas, the tag
      and type terms, then the images and the categories; it returns the id. */
  ghost function FillProduct(t: Tables, errs: seq<WpError>, host: Host, id: nat, a: Value): (r: Outcome) {
    var media := MediaStage(TermStage(MetaStage(t, id, a), id, a), errs, host, id, a);
    Outcome(media.0, media.1, Int(id))
  }

  /** The loop over the completed metas. */
  function MetaStage(t: Tables, id: nat, a: Value): Tables {
    ApplyMetaWrites(t, id, FinalMetas(ToArray(Lookup(a, "metas"))))
  }

  /** wp_set_object_terms for the tags and for the product type. */
  function TermStage(t: Tables, id: nat, a: Value): (r: Tables)
    ensures Valid(t) ==> Valid(r)
    ensures r.(objectTerms := t.objectTerms) == t
    ensures (id, "product_tag") in r.objectTerms && r.objectTerms[(id, "product_tag")] == TagTerms(Lookup(a, "tags"))
    ensures (id, "product_type") in r.objectTerms && r.objectTerms[(id, "product_type")] == TypeTerms(Lookup(a, "type"))
    ensures ObjectTermsKeptExcept(t.objectTerms, r.objectTerms, {(id, "product_tag"), (id, "product_type")})
  {
    var tagged := SetObjectTerms(t, id, "product_tag", TagTerms(Lookup(a, "tags")));
    SetObjectTerms(tagged, id, "product_type", TypeTerms(Lookup(a, "type")))
  }

  /** add_image_to_product followed by add_product_to_category. */
  ghost function MediaStage(t: Tables, errs: seq<WpError>, host: Host, id: nat, a: Value): (Tables, seq<WpError>) {
    var images := AddImagesSpec(t, errs, host, id, Lookup(a, "images"), Lookup(a, "fetch_image_type"));
    (AddToCategorySpec(images.0, host, id, Lookup(a, "categories")), images.1)
  }

  /** The images and the categories keep the tables valid, add error
      messages only, keep every post that existed, write no meta row but the
      thumbnail and the gallery, and assign no terms but the categories. */
  lemma MediaStageFrame(t: Tables, errs: seq<WpError>, host: Host, id: nat, a: Value)
    ensures var r := MediaStage(t, errs, host, id, a);
            && (Valid(t) ==> Valid(r.0))
            && errs <= r.1
            && (forall p :: p < t.nextPostId ==> (p in r.0.posts <==> p in t.posts))
            && (forall p :: p < t.nextPostId && p in t.posts ==> r.0.posts[p] == t.posts[p])
            && (forall k :: k in t.meta && k != (id, "_thumbnail_id") && k != (id, "_product_image_gallery") ==>
                  k in r.0.meta && r.0.meta[k] == t.meta[k])
            && (forall k :: k in t.objectTerms && k != (id, "product_cat") ==>
                  k in r.0.objectTerms && r.0.objectTerms[k] == t.objectTerms[k])
  {
    AddImagesFrame(t, errs, host, id, Lookup(a, "images"), Lookup(a, "fetch_image_type"));
  }

  // ---------------------------------------------------------------------
  // Properties of add_product
  // ---------------------------------------------------------------------

  /** add_product keeps the tables valid and only adds error messages. */
  lemma AddProductFrame(t: Tables, errs: seq<WpError>, host: Host, args: Value, update: bool)
    ensures var r := AddProductSpec(t, errs, host, args, update);
            (Valid(t) ==> Valid(r.t)) && errs <= r.errors
  {
    var a := CompleteArgs(args);
    if !Empty(SkuOf(a)) {
      var saved := SavePost(t, host, a, update);
      if saved.1 != 0 {
        MediaStageFrame(TermStage(MetaStage(saved.0, saved.1, a), saved.1, a), errs, host, saved.1, a);
      }
    }
  }

  /** A missing SKU records an error and changes nothing else. */
  lemma AddProductRequiresSku(t: Tables, errs: seq<WpError>, host: Host, args: Value, update: bool)
    requires Empty(SkuOf(CompleteArgs(args)))
    ensures AddProductSpec(t, errs, host, args, update) == Outcome(t, errs + [SkuMissing], Null)
  {
  }

  /** Every post below the next free id of a is in b unchanged, and no other
      post below that id appears in b. */
  ghost predicate KeepsPostsBelow(a: Tables, b: Tables) {
    && (forall p :: p < a.nextPostId ==> (p in b.posts <==> p in a.posts))
    && (forall p :: p < a.nextPostId && p in a.posts ==> b.posts[p] == a.posts[p])
  }

  /** Filling in a product keeps every post below the next free id of the
      tables it starts from. */
  lemma FillKeepsPosts(t: Tables, errs: seq<WpError>, host: Host, id: nat, a: Value)
    ensures var r := FillProduct(t, errs, host, id, a);
            r.result == Int(id) && KeepsPostsBelow(t, r.t)
  {
    var t4 := TermStage(MetaStage(t, id, a), id, a);
    MediaStageFrame(t4, errs, host, id, a);
  }

  /** A post inserted into valid tables, and every post there before, stay
      in any tables that keep the posts below the new next free id. */
  lemma InsertedKept(t: Tables, post: Post, r: Tables)
    requires Valid(t) && KeepsPostsBelow(InsertPost(t, post), r)
    ensures t.nextPostId !in t.posts && t.nextPostId in r.posts && r.posts[t.nextPostId] == post
    ensures forall p :: p in t.posts ==> p in r.posts && r.posts[p] == t.posts[p]
  {
  }

  /** Without an update of an existing SKU, add_product inserts a new product
      under the next free id and keeps every existing post. */
  lemma AddProductInsertsNew(t: Tables, errs: seq<WpError>, host: Host, args: Value, update: bool)
    requires Valid(t)
    requires !Empty(SkuOf(CompleteArgs(args)))
    requires !update || SkuOwners(t, ToStr(SkuOf(CompleteArgs(args)))) == {}
    ensures var r := AddProductSpec(t, errs, host, args, update); var id := t.nextPostId;
            && r.result == Int(id) && id !in t.posts
            && id in r.t.posts && r.t.posts[id] == ProductPost(CompleteArgs(args), host)
            && (forall p :: p in t.posts ==> p in r.t.posts && r.t.posts[p] == t.posts[p])
  {
    var a := CompleteArgs(args);
    var post := ProductPost(a, host);
    assert SavePost(t, host, a, update) == (InsertPost(t, post), t.nextPostId);
    var r := FillProduct(InsertPost(t, post), errs, host, t.nextPostId, a);
    assert AddProductSpec(t, errs, host, args, update) == r;
    FillKeepsPosts(InsertPost(t, post), errs, host, t.nextPostId, a);
    InsertedKept(t, post, r.t);
  }

  /** With an update asked for and a product already carrying the SKU,
      add_product updates that product in place and returns its id: no
      second product with the SKU is created. */
  lemma AddProductUpdatesExisting(t: Tables, errs: seq<WpError>, host: Host, args: Value)
    requires Valid(t)
    requires !Empty(SkuOf(CompleteArgs(args)))
    requires SkuOwners(t, ToStr(SkuOf(CompleteArgs(args)))) != {}
    requires Intval(SkuLookup(t, SkuOf(CompleteArgs(args)))) in t.posts
    ensures var r := AddProductSpec(t, errs, host, args, true);
            var id := Intval(SkuLookup(t, SkuOf(CompleteArgs(args))));
            var post := ProductPost(CompleteArgs(args), host);
            && r.result == Int(id)
            && (id, "_sku") in t.meta && MetaMatches(t.meta[(id, "_sku")], ToStr(SkuOf(CompleteArgs(args))))
            && id in r.t.posts
            && r.t.posts[id] == post.(parent := t.posts[id].parent, mimeType := t.posts[id].mimeType, guid := t.posts[id].guid)
            && (forall p :: p in t.posts && p != id ==> p in r.t.posts && r.t.posts[p] == t.posts[p])
  {
    var a := CompleteArgs(args);
    var post := ProductPost(a, host);
    var existing := SkuLookup(t, SkuOf(a));
    SkuLookupFinds(t, SkuOf(a));
    var id := Absint(existing);
    assert id == Intval(existing);
    assert SavePost(t, host, a, true) == (UpdatePost(t, id, post), id);
    var r := FillProduct(UpdatePost(t, id, post), errs, host, id, a);
    assert AddProductSpec(t, errs, host, args, true) == r;
    FillKeepsPosts(UpdatePost(t, id, post), errs, host, id, a);
    UpdatedKept(t, id, post, r.t);
  }

  /** A post updated in valid tables, and every other post there, stay in
      any tables that keep the posts below the next free id. */
  lemma UpdatedKept(t: Tables, id: nat, post: Post, r: Tables)
    requires Valid(t) && id in t.posts && KeepsPostsBelow(UpdatePost(t, id, post), r)
    ensures id in r.posts
    ensures r.posts[id] == post.(parent := t.posts[id].parent, mimeType := t.posts[id].mimeType, guid := t.posts[id].guid)
    ensures forall p :: p in t.posts && p != id ==> p in r.posts && r.posts[p] == t.posts[p]
  {
  }

  /** Every row of a is in b unchanged, but the thumbnail and the gallery of
      the product id. */
  ghost predicate KeepsProductMeta(a: map<(nat, string), Value>, b: map<(nat, string), Value>, id: nat) {
    forall k :: k in a && k != (id, "_thumbnail_id") && k != (id, "_product_image_gallery") ==> k in b && b[k] == a[k]
  }

  /** Filling in a product leaves every meta row the metas loop wrote, but
      the thumbnail and the gallery, as the loop left it. */
  lemma FillKeepsMeta(t: Tables, errs: seq<WpError>, host: Host, id: nat, a: Value)
    ensures var r := FillProduct(t, errs, host, id, a);
            r.result == Int(id) && KeepsProductMeta(MetaStage(t, id, a).meta, r.t.meta, id)
  {
    var t4 := TermStage(MetaStage(t, id, a), id, a);
    MediaStageFrame(t4, errs, host, id, a);
  }

  /** The rows the metas loop writes on a product whose completed metas
      carry a SKU: `_sku` is the SKU, `_stock_status` is derived from
      `_stock`, and `_price` is the regular price whenever that is written. */
  lemma MetaStageRows(t: Tables, id: nat, a: Value)
    requires id != 0 && !Empty(SkuOf(a))
    requires Lookup(a, "metas").Arr? ==> DistinctKeys(Lookup(a, "metas").entries)
    ensures var m := MetaStage(t, id, a).meta; var metas := Lookup(a, "metas");
            && (id, "_sku") in m && m[(id, "_sku")] == SkuOf(a)
            && (id, "_stock_status") in m && m[(id, "_stock_status")] == Str(StockStatus(Lookup(metas, "_stock")))
            && (MetaWritten(Lookup(metas, "_regular_price")) ==>
                  (id, "_price") in m && m[(id, "_price")] == Lookup(metas, "_regular_price"))
  {
    var metas := Lookup(a, "metas");
    assert metas.Arr? && ToArray(metas) == metas.entries && Arr(metas.entries) == metas;
    assert HasKey(metas.entries, StrKey("_sku"));
    assert MetaStage(t, id, a) == ApplyMetaWrites(t, id, FinalMetas(metas.entries));
    FinalMetaRows(t, id, metas.entries);
  }

  lemma FinalMetaRows(t: Tables, id: nat, metas: seq<Entry>)
    requires id != 0 && DistinctKeys(metas) && HasKey(metas, StrKey("_sku"))
    requires !Empty(Lookup(Arr(metas), "_sku"))
    ensures var m := ApplyMetaWrites(t, id, FinalMetas(metas)).meta;
            && (id, "_sku") in m && m[(id, "_sku")] == Lookup(Arr(metas), "_sku")
            && (id, "_stock_status") in m && m[(id, "_stock_status")] == Str(StockStatus(Lookup(Arr(metas), "_stock")))
            && (MetaWritten(Lookup(Arr(metas), "_regular_price")) ==>
                  (id, "_price") in m && m[(id, "_price")] == Lookup(Arr(metas), "_regular_price"))
  {
    var fm := FinalMetas(metas);
    var sku := Lookup(Arr(metas), "_sku");
    assert Find(fm, StrKey("_sku")) == Find(metas, StrKey("_sku")) == Some(sku);
    LooselyNullIsEmptyButZeroString(sku);
    WrittenRow(t, id, fm, "_sku", sku);
    WrittenRow(t, id, fm, "_stock_status", Str(StockStatus(Lookup(Arr(metas), "_stock"))));
    var price := Lookup(Arr(metas), "_regular_price");
    if MetaWritten(price) {
      WrittenRow(t, id, fm, "_price", price);
    }
  }

  /** A meta that is written leaves its value as the product's row. */
  lemma WrittenRow(t: Tables, id: nat, metas: seq<Entry>, n: string, v: Value)
    requires id != 0 && DistinctKeys(metas) && |n| > 0 && n[0] == '_'
    requires Find(metas, StrKey(n)) == Some(v) && MetaWritten(v)
    ensures var m := ApplyMetaWrites(t, id, metas).meta;
            (id, n) in m && m[(id, n)] == v
  {
    MetaRowOf(t, id, metas, n);
  }

  /** The same rows survive the images and the categories. */
  lemma FillMetaRows(t: Tables, errs: seq<WpError>, host: Host, id: nat, a: Value)
    requires id != 0 && !Empty(SkuOf(a))
    requires Lookup(a, "metas").Arr? ==> DistinctKeys(Lookup(a, "metas").entries)
    ensures var m := FillProduct(t, errs, host, id, a).t.meta; var metas := Lookup(a, "metas");
            && (id, "_sku") in m && m[(id, "_sku")] == SkuOf(a)
            && (id, "_stock_status") in m && m[(id, "_stock_status")] == Str(StockStatus(Lookup(metas, "_stock")))
            && (MetaWritten(Lookup(metas, "_regular_price")) ==>
                  (id, "_price") in m && m[(id, "_price")] == Lookup(metas, "_regular_price"))
  {
    var m0 := MetaStage(t, id, a).meta;
    var m := FillProduct(t, errs, host, id, a).t.meta;
    MetaStageRows(t, id, a);
    FillKeepsMeta(t, errs, host, id, a);
    ProductRowsKept(m0, m, id);
  }

  /** In particular the SKU, the stock status and the price rows are kept. */
  lemma ProductRowsKept(a: map<(nat, string), Value>, b: map<(nat, string), Value>, id: nat)
    requires KeepsProductMeta(a, b, id)
    ensures forall n :: n in ["_sku", "_stock_status", "_price"] && (id, n) in a ==> (id, n) in b && b[(id, n)] == a[(id, n)]
  {
  }

  /** The meta rows add_product leaves on the product: `_sku` is the SKU,
      `_stock_status` is derived from `_stock`, and `_price` is the regular
      price whenever that is written at all. */
  lemma AddProductMetaRows(t: Tables, errs: seq<WpError>, host: Host, args: Value, update: bool)
    requires DistinctKeys(ToArray(args))
    ensures var a := CompleteArgs(args); var metas := Lookup(a, "metas");
            var r := AddProductSpec(t, errs, host, args, update);
            r.result.Int? && r.result.i > 0 ==>
              var id: nat := r.result.i;
              && (id, "_sku") in r.t.meta && r.t.meta[(id, "_sku")] == SkuOf(a)
              && (id, "_stock_status") in r.t.meta
              && r.t.meta[(id, "_stock_status")] == Str(StockStatus(Lookup(metas, "_stock")))
              && (MetaWritten(Lookup(metas, "_regular_price")) ==>
                    (id, "_price") in r.t.meta && r.t.meta[(id, "_price")] == Lookup(metas, "_regular_price"))
  {
    var a := CompleteArgs(args);
    if !Empty(SkuOf(a)) {
      var saved := SavePost(t, host, a, update);
      var id := saved.1;
      if id != 0 {
        var r := FillProduct(saved.0, errs, host, id, a);
        assert AddProductSpec(t, errs, host, args, update) == r;
        CompletedMetasDistinct(args);
        FillMetaRows(saved.0, errs, host, id, a);
        FillKeepsPosts(saved.0, errs, host, id, a);
      }
    }
  }

  /** After add_product, product_exist finds a product for the SKU (the SKU
      is not an array, whose stored form no text matches). */
  lemma AddProductMakesSkuFindable(t: Tables, errs: seq<WpError>, host: Host, args: Value, update: bool)
    requires DistinctKeys(ToArray(args)) && !SkuOf(CompleteArgs(args)).Arr?
    ensures var r := AddProductSpec(t, errs, host, args, update);
            r.result.Int? && r.result.i > 0 ==> SkuLookup(r.t, SkuOf(CompleteArgs(args))) != Null
  {
    var r := AddProductSpec(t, errs, host, args, update);
    AddProductMetaRows(t, errs, host, args, update);
    if r.result.Int? && r.result.i > 0 {
      SkuOwnersMember(r.t, ToStr(SkuOf(CompleteArgs(args))), r.result.i);
    }
  }

  /** The product's tags are the trimmed tag names, and its type terms the
      given type. */
  lemma AddProductSetsTerms(t: Tables, errs: seq<WpError>, host: Host, args: Value, update: bool)
    ensures var a := CompleteArgs(args);
            var r := AddProductSpec(t, errs, host, args, update);
            r.result.Int? && r.result.i > 0 ==>
              var id: nat := r.result.i;
              && (id, "product_tag") in r.t.objectTerms && r.t.objectTerms[(id, "product_tag")] == TagTerms(Lookup(a, "tags"))
              && (id, "product_type") in r.t.objectTerms && r.t.objectTerms[(id, "product_type")] == TypeTerms(Lookup(a, "type"))
  {
    var a := CompleteArgs(args);
    if !Empty(SkuOf(a)) {
      var saved := SavePost(t, host, a, update);
      var id := saved.1;
      if id != 0 {
        MediaStageFrame(TermStage(MetaStage(saved.0, id, a), id, a), errs, host, id, a);
      }
    }
  }

  // ---------------------------------------------------------------------
  // The importer object
  // ---------------------------------------------------------------------

  class ProductImporter {
    /** The tables of the site the importer writes to. */
    var db: Tables
    /** `$this->errors`: the messages recorded so far, in order. */
    var errors: seq<WpError>
    /** The host functions the importer calls and cannot see into. */
    const host: Host

    constructor (db0: Tables, host: Host)
      ensures this.db == db0 && this.errors == [] && this.host == host
    {
      this.db := db0;
      this.errors := [];
      this.host := host;
    }

    /** product_exist: the id of a product with the SKU, as a decimal
        string, or null. */
    method ProductExist(sku: Value) returns (r: Value)
      ensures r == SkuLookup(db, sku)
    {
      var owners := SkuOwners(db, ToStr(sku));
      if owners == {} {
        r := Null;
      } else {
        var id := FindLeast(owners);
        r := Str(NatToString(id));
      }
    }

    /** add_category. */
    method AddCategory(args: Value) returns (r: Value)
      modifies this
      ensures (db, r) == AddCategorySpec(old(db), host, args) && errors == old(errors)
    {
      var name := WpParseArg(args, "name", Str(""));
      var slugArg := WpParseArg(args, "slug", Str(""));
      var parent := WpParseArg(args, "parent", Int(0));
      var description := WpParseArg(args, "description", Str(""));
      if Empty(name) {
        return Bool(false);
      }
      var slug := if Empty(slugArg) then host.sanitizeTitle(ToStr(name)) else ToStr(slugArg);
      var owners := TermsWithSlug(db, host.sanitizeTitle(ToStr(name)));
      if owners != {} {
        var id := FindLeast(owners);
        return Str(NatToString(id));
      }
      var named := TermsNamed(db, ToStr(name));
      if named != {} {
        var id := FindLeast(named);
        return Str(NatToString(id));
      }
      if Trim(ToStr(name)) == "" {
        return Null;
      }
      r := Int(db.nextTermId);
      db := InsertTerm(db, Term(ToStr(name), slug, Intval(parent), description));
    }

    /** add_product_to_category: the outer loop over the categories and the
        inner loop over the levels of a path. add_category never returns an
        error object, so the is_wp_error guard is left out: every entry
        yields an id. */
    method AddProductToCategory(pid: nat, categories: Value)
      modifies this
      ensures db == AddToCategorySpec(old(db), host, pid, categories) && errors == old(errors)
    {
      var cats := CategoryList(categories);
      ghost var s := CatState(db, []);
      var collected: seq<Value> := [];
      var i := 0;
      while i < |cats|
        invariant 0 <= i <= |cats|
        invariant CatState(db, collected) == RunCategories(s, host, cats, i)
        invariant errors == old(errors)
      {
        var c := cats[i];
        if c.Arr? {
          collected := AddPath(Values(c), collected);
        } else if IsNumeric(c) {
          collected := collected + [c];
        } else {
          var id := AddCategory(SingleArgs(c));
          collected := collected + [id];
        }
        i := i + 1;
      }
      if |collected| == 0 {
        return;
      }
      db := SetObjectTerms(db, pid, "product_cat", AssignedIds(collected));
    }

    /** The inner loop of add_product_to_category over the levels of one
        path, each level added under the previous one, from parent 0. */
    method AddPath(path: seq<Value>, start: seq<Value>) returns (collected: seq<Value>)
      modifies this
      ensures var r := RunPath(PathState(old(db), Int(0), start), host, path, |path|);
              db == r.t && collected == r.collected
      ensures errors == old(errors)
    {
      ghost var ps := PathState(db, Int(0), start);
      collected := start;
      var parent := Int(0);
      var j := 0;
      while j < |path|
        invariant 0 <= j <= |path|
        invariant PathState(db, parent, collected) == RunPath(ps, host, path, j)
        invariant errors == old(errors)
      {
        var level := path[j];
        var id;
        if IsNumeric(level) {
          id := level;
        } else {
          id := AddCategory(LevelArgs(level, parent));
        }
        parent := id;
        collected := collected + [id];
        j := j + 1;
      }
    }

    /** add_image_to_product: the loop over the cleaned image list, then the
        thumbnail and the gallery. */
    method AddImageToProduct(pid: nat, images: Value, fetch: Value)
      modifies this
      ensures (db, errors) == AddImagesSpec(old(db), old(errors), host, pid, images, fetch)
    {
      var st := ImagesLoop(pid, CleanImages(images), FetchModeOf(fetch));
      assert st == ImagesRun(db, errors, host, pid, images, fetch);
      // The thumbnail and the gallery, when an id was collected.
      db, errors := FinishImages(st.t, pid, st.ids), st.errors;
    }

    /** The loop of add_image_to_product over the cleaned image list, which
        downloads or names each image in turn and collects the ids. */
    method ImagesLoop(pid: nat, list: seq<Value>, mode: FetchMode) returns (st: ImageState)
      ensures st == RunImages(ImageState(db, errors, [], ""), host, pid, mode, list, |list|)
    {
      st := ImageState(db, errors, [], "");
      ghost var s := st;
      var i := 0;
      while i < |list|
        invariant 0 <= i <= |list|
        invariant st == RunImages(s, host, pid, mode, list, i)
      {
        RunImagesUnfold(s, host, pid, mode, list, i);
        st := ImageStep(st, host, pid, mode, list[i], i);
        i := i + 1;
      }
    }

    /** add_product. */
    method AddProduct(args: Value, updateIfSkuExists: bool) returns (r: Value)
      modifies this
      ensures Outcome(db, errors, r) == AddProductSpec(old(db), old(errors), host, args, updateIfSkuExists)
    {
      var a := CompleteArgs(args);
      if Empty(SkuOf(a)) {
        errors := errors + [SkuMissing];
        return Null;
      }
      var t, id := SaveProduct(a, updateIfSkuExists);
      db := t;
      if id == 0 {
        return Int(0);
      }
      FillProductIn(id, a);
      r := Int(id);
    }

    /** The post add_product saves: the product carrying the SKU is updated
        when asked for, otherwise a new one is inserted. */
    method SaveProduct(a: Value, updateIfSkuExists: bool) returns (t: Tables, id: nat)
      ensures (t, id) == SavePost(db, host, a, updateIfSkuExists)
    {
      var existing := ProductExist(SkuOf(a));
      var post := ProductPost(a, host);
      if updateIfSkuExists && Truthy(existing) {
        t, id := UpdatePost(db, Absint(existing), post), UpdatedId(db, Absint(existing));
      } else {
        t, id := InsertPost(db, post), db.nextPostId;
      }
    }

    /** The part of add_product after the post is saved under id. */
    method FillProductIn(id: nat, a: Value)
      modifies this
      ensures Outcome(db, errors, Int(id)) == FillProduct(old(db), old(errors), host, id, a)
    {
      FillTermsIn(id, a);
      FillMediaIn(id, a);
    }

    /** The metas, then the tag and type terms. */
    method FillTermsIn(id: nat, a: Value)
      modifies this
      ensures db == TermStage(MetaStage(old(db), id, a), id, a) && errors == old(errors)
    {
      WriteMetas(id, FinalMetas(ToArray(Lookup(a, "metas"))));
      db := SetObjectTerms(db, id, "product_tag", TagTerms(Lookup(a, "tags")));
      db := SetObjectTerms(db, id, "product_type", TypeTerms(Lookup(a, "type")));
    }

    /** The images, then the categories. */
    method FillMediaIn(id: nat, a: Value)
      modifies this
      ensures (db, errors) == MediaStage(old(db), old(errors), host, id, a)
    {
      AddImageToProduct(id, Lookup(a, "images"), Lookup(a, "fetch_image_type"));
      AddProductToCategory(id, Lookup(a, "categories"));
    }

    /** The loop of add_product over the completed metas: each meta that is
        not loosely null is written to the product. */
    method WriteMetas(id: nat, metas: seq<Entry>)
      modifies this
      ensures db == ApplyMetaWrites(old(db), id, metas) && errors == old(errors)
    {
      var i := 0;
      while i < |metas|
        invariant 0 <= i <= |metas|
        invariant db == ApplyMetaWrites(old(db), id, metas[..i]) && errors == old(errors)
      {
        var e := metas[i];
        if MetaWritten(e.val) {
          db := PutMeta(db, id, KeyName(e.key), e.val);
        }
        assert metas[..i + 1][..i] == metas[..i];
        i := i + 1;
      }
      assert metas[..|metas|] == metas;
    }

    /** delete_product: with force, the meta rows of the product are deleted
        one key at a time before the post is removed. */
    method DeleteProduct(args: Value, force: bool) returns (r: bool)
      modifies this
      ensures (db, r) == DeleteSpec(old(db), args, force) && errors == old(errors)
    {
      var sku := WpParseArg(args, "sku", Null);
      var pid := WpParseArg(args, "product_id", Null);
      if Truthy(sku) {
        pid := ProductExist(sku);
      }
      assert pid == DeleteTarget(db, args);
      if !Truthy(pid) {
        return false;
      }
      if force {
        DeleteAllMeta(Absint(pid));
      }
      var id := Intval(pid);
      if id > 0 {
        db := DeletePost(db, id, force);
      }
      r := true;
    }

    /** The loop of delete_product over the product's meta keys, deleting
        the rows one key at a time. */
    method DeleteAllMeta(id: nat)
      modifies this
      ensures db == StripMeta(old(db), id) && errors == old(errors)
    {
      var t := db;
      var keys := MetaKeysOf(t, id);
      while keys != {}
        invariant t.(meta := db.meta) == db
        invariant forall k :: k in t.meta <==> k in db.meta && (k.0 != id || k.1 in keys)
        invariant forall k :: k in t.meta ==> t.meta[k] == db.meta[k]
        decreases |keys|
      {
        var k :| k in keys;
        t := DeleteMeta(t, id, k);
        keys := keys - {k};
      }
      MetaMapsEqual(t.meta, StripMeta(db, id).meta);
      db := t;
    }

    /** What the two association operations share: the ids found for the
        SKUs are written under the key. */
    method AssociateBySku(pid: Value, skus: Value, key: string)
      modifies this
      ensures db == AssociateSpec(old(db), pid, skus, key) && errors == old(errors)
    {
      var ids := FindRelated(ForeachList(skus));
      db := PutMeta(db, Absint(pid), key, ListValue(ids));
    }

    /** The loop of the association operations: each SKU is looked up in
        turn and the truthy ids are kept, in order. */
    method FindRelated(list: seq<Value>) returns (ids: seq<Value>)
      ensures ids == RelatedIds(db, list)
    {
      ids := [];
      var i := 0;
      while i < |list|
        invariant 0 <= i <= |list|
        invariant ids == RelatedIds(db, list[..i])
      {
        var id := ProductExist(list[i]);
        RelatedIdsSnoc(db, list[..i], list[i]);
        assert list[..i + 1] == list[..i] + [list[i]];
        if Truthy(id) {
          ids := ids + [id];
        }
        i := i + 1;
      }
      assert list[..|list|] == list;
    }

    /** associate_upsell_sku. */
    method AssociateUpsellSku(pid: Value, skus: Value)
      modifies this
      ensures db == AssociateSpec(old(db), pid, skus, UpsellKey) && errors == old(errors)
    {
      AssociateBySku(pid, skus, UpsellKey);
    }

    /** associate_crosssell_sku. */
    method AssociateCrosssellSku(pid: Value, skus: Value)
      modifies this
      ensures db == AssociateSpec(old(db), pid, skus, CrosssellKey) && errors == old(errors)
    {
      AssociateBySku(pid, skus, CrosssellKey);
    }
  }
}
