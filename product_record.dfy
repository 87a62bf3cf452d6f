/** The product record add_product prepares: its defaults, the post row, the
    derived stock status and price, and the meta rows it writes. */
module ProductRecord {
  import opened Wrappers
  import opened PhpValues
  import opened ArgsMerge
  import opened Store

  function Field(k: string, v: Value): Entry {
    Entry(StrKey(k), v)
  }

  /** An array built from its keys and their values, pairwise. */
  function Fields(names: seq<string>, vals: seq<Value>): (r: seq<Entry>)
    requires |names| == |vals|
    ensures |r| == |names| && forall i :: 0 <= i < |r| ==> r[i] == Field(names[i], vals[i])
  {
    seq(|names|, i requires 0 <= i < |names| => Field(names[i], vals[i]))
  }

  /** The keys of a product's default metas, and their defaults below. */
  function MetaNames(): seq<string> {
    [ "_sku", "_regular_price", "_sale_price", "_sale_price_dates_from", "_sale_price_dates_to",
      "_manage_stock", "_sold_individually", "_stock", "_visibility", "_tax_status", "_tax_class",
      "_featured", "_backorders", "_virtual", "_downloadable", "_height", "_length", "_weight",
      "_width", "_thumbnail_id", "_purchase_note", "_product_attributes" ]
  }

  function MetaDefaults(): seq<Value> {
    [ Str(""), Str(""), Str(""), Str(""), Str(""),
      Str("yes"), Str(""), Str(""), Str("visible"), Str(""), Str(""),
      Str("no"), Str("no"), Str("no"), Str("no"), Str(""), Str(""), Str(""),
      Str(""), Null, Str(""), Arr([]) ]
  }

  /** The default metas of a product. */
  function DefaultMetas(): seq<Entry> {
    Fields(MetaNames(), MetaDefaults())
  }

  /** The keys of add_product's default arguments, and their defaults below. */
  function ArgNames(): seq<string> {
    [ "user_id", "name", "slug", "status", "description", "excerpt",
      "tags", "images", "categories", "fetch_image_type", "type", "metas" ]
  }

  function ArgDefaults(): seq<Value> {
    [ Str(""), Str(""), Str(""), Str("publish"), Str(""), Str(""),
      Arr([]), Arr([]), Arr([]), Str("remote"), Str("simple"), Arr(DefaultMetas()) ]
  }

  /** The default arguments of add_product. */
  function DefaultArgs(): Value {
    Arr(Fields(ArgNames(), ArgDefaults()))
  }

  /** The arguments once completed with the defaults. */
  function CompleteArgs(args: Value): (r: Value)
    ensures r.Arr?
  {
    ParseArgsR(args, DefaultArgs())
  }

  /** `$args['metas']['_sku']`, which must not be empty. */
  function SkuOf(args: Value): Value {
    Lookup(Lookup(args, "metas"), "_sku")
  }

  /** The post row add_product inserts or updates: an empty user id becomes
      the current user, an empty slug becomes the name, and the slug is
      sanitised into the post name. */
  function ProductPost(args: Value, host: Host): Post {
    var user := Lookup(args, "user_id");
    var slug := Lookup(args, "slug");
    Post(if Empty(user) then Int(host.currentUser) else user,
         Lookup(args, "name"),
         host.sanitizeTitle(ToStr(if Empty(slug) then Lookup(args, "name") else slug)),
         Lookup(args, "status"),
         Lookup(args, "description"),
         Lookup(args, "excerpt"),
         "closed", "closed", "product", 0, "", "")
  }

  /** The stock status the importer derives from `_stock`. */
  function StockStatus(stock: Value): string {
    if IsNumeric(stock) && stock == Int(0) then "outofstock" else "instock"
  }

  /** The metas with `_stock_status` derived from `_stock` and `_price` set to
      `_regular_price`; every other meta stays as given. */
  function FinalMetas(metas: seq<Entry>): (r: seq<Entry>)
    ensures Find(r, StrKey("_stock_status")) == Some(Str(StockStatus(Lookup(Arr(metas), "_stock"))))
    ensures Find(r, StrKey("_price")) == Some(Lookup(Arr(metas), "_regular_price"))
    ensures forall k :: k != StrKey("_stock_status") && k != StrKey("_price") ==> Find(r, k) == Find(metas, k)
    ensures DistinctKeys(metas) ==> DistinctKeys(r)
  {
    var withStatus := Put(metas, StrKey("_stock_status"), Str(StockStatus(Lookup(Arr(metas), "_stock"))));
    Put(withStatus, StrKey("_price"), Lookup(Arr(withStatus), "_regular_price"))
  }

  /** `_stock_status` is 'outofstock' exactly when `_stock` is the integer 0,
      and 'instock' otherwise; a string '0' does not count. */
  lemma StockStatusOutOfStockIffZero(metas: seq<Entry>)
    ensures Lookup(Arr(FinalMetas(metas)), "_stock_status") == Str("outofstock")
            <==> Lookup(Arr(metas), "_stock") == Int(0)
    ensures Lookup(Arr(metas), "_stock") != Int(0) ==>
            Lookup(Arr(FinalMetas(metas)), "_stock_status") == Str("instock")
  {
  }

  /** `_price` always equals `_regular_price` (both null when absent). */
  lemma PriceIsRegularPrice(metas: seq<Entry>)
    ensures Lookup(Arr(FinalMetas(metas)), "_price") == Lookup(Arr(FinalMetas(metas)), "_regular_price")
  {
  }

  /** The test of the meta loop, as written. */
  predicate MetaWritten(v: Value) {
    !LooselyNull(v) || (v.Arr? && |v.entries| > 0)
  }

  /** Its second half adds nothing: a meta is written exactly when it is not
      loosely equal to null, so null, false, 0, '' and the empty array are
      skipped while '0' is written. */
  lemma MetaWrittenIffNotLooselyNull(v: Value)
    ensures MetaWritten(v) <==> !LooselyNull(v)
    ensures MetaWritten(Str("0")) && !MetaWritten(Str("")) && !MetaWritten(Null) && !MetaWritten(Arr([]))
  {
  }

  /** The meta loop of add_product: each meta passing MetaWritten is stored
      under its key on the product, in order. */
  function ApplyMetaWrites(t: Tables, id: nat, es: seq<Entry>): (r: Tables)
    ensures Valid(t) ==> Valid(r)
    ensures r.(meta := t.meta) == t
    ensures forall k: (nat, string) :: k.0 != id ==> (k in r.meta <==> k in t.meta)
    ensures forall k: (nat, string) :: k.0 != id && k in t.meta ==> r.meta[k] == t.meta[k]
    decreases |es|
  {
    if es == [] then t
    else
      var before := ApplyMetaWrites(t, id, es[..|es| - 1]);
      var e := es[|es| - 1];
      if MetaWritten(e.val) then PutMeta(before, id, KeyName(e.key), e.val) else before
  }

  /** A meta whose key no entry names keeps its row. */
  lemma {:induction false} MetaWritesLeaveOthers(t: Tables, id: nat, es: seq<Entry>, n: string)
    requires forall j :: 0 <= j < |es| ==> KeyName(es[j].key) != n
    ensures var r := ApplyMetaWrites(t, id, es);
            ((id, n) in r.meta <==> (id, n) in t.meta) && ((id, n) in t.meta ==> r.meta[(id, n)] == t.meta[(id, n)])
    decreases |es|
  {
    if es != [] {
      MetaWritesLeaveOthers(t, id, es[..|es| - 1], n);
    }
  }

  /** The row of a meta named by exactly one entry: that entry's value when
      it passes MetaWritten, the old row otherwise. */
  lemma {:induction false} MetaWriteAt(t: Tables, id: nat, es: seq<Entry>, j: nat)
    requires id != 0 && j < |es|
    requires forall i :: 0 <= i < |es| && i != j ==> KeyName(es[i].key) != KeyName(es[j].key)
    ensures var r := ApplyMetaWrites(t, id, es); var k := (id, KeyName(es[j].key));
            if MetaWritten(es[j].val) then k in r.meta && r.meta[k] == es[j].val
            else (k in r.meta <==> k in t.meta) && (k in t.meta ==> r.meta[k] == t.meta[k])
    decreases |es|
  {
    var n := KeyName(es[j].key);
    var init := es[..|es| - 1];
    if j == |es| - 1 {
      MetaWritesLeaveOthers(t, id, init, n);
    } else {
      assert init[j] == es[j];
      MetaWriteAt(t, id, init, j);
    }
  }

  /** A meta name starting with an underscore is only ever the name of a
      string key: an integer key prints as digits with an optional sign. */
  lemma UnderscoreKeyName(k: Key, n: string)
    requires |n| > 0 && n[0] == '_' && KeyName(k) == n
    ensures k == StrKey(n)
  {
  }

  /** The row the meta loop leaves under a name starting with an underscore,
      for metas with distinct keys: the metas' value when it is written, the
      old row otherwise. */
  lemma MetaRowOf(t: Tables, id: nat, metas: seq<Entry>, n: string)
    requires id != 0 && DistinctKeys(metas) && |n| > 0 && n[0] == '_'
    requires HasKey(metas, StrKey(n))
    ensures var r := ApplyMetaWrites(t, id, metas); var v := Find(metas, StrKey(n)).value;
            if MetaWritten(v) then (id, n) in r.meta && r.meta[(id, n)] == v
            else ((id, n) in r.meta <==> (id, n) in t.meta) && ((id, n) in t.meta ==> r.meta[(id, n)] == t.meta[(id, n)])
  {
    var j := IndexOf(metas, StrKey(n));
    forall i | 0 <= i < |metas| && i != j ensures KeyName(metas[i].key) != n {
      if KeyName(metas[i].key) == n {
        UnderscoreKeyName(metas[i].key, n);
      }
    }
    MetaWriteAt(t, id, metas, j);
  }

  /** The completed metas of a PHP array argument are an array with each key
      once, or not an array at all. */
  lemma CompletedMetasDistinct(args: Value)
    requires DistinctKeys(ToArray(args))
    ensures var m := Lookup(CompleteArgs(args), "metas");
            m.Arr? ==> DistinctKeys(m.entries)
  {
    DefaultArgsMetas();
    DefaultMetasDistinct();
    MergedArrayDistinct(args, DefaultArgs(), "metas", DefaultMetas());
  }

  /** Completing arguments over defaults whose value under key n is an array
      with distinct keys gives, under n, such an array or no array at all. */
  lemma MergedArrayDistinct(args: Value, defaults: Value, n: string, dm: seq<Entry>)
    requires DistinctKeys(ToArray(args)) && DistinctKeys(dm)
    requires Find(ToArray(defaults), StrKey(n)) == Some(Arr(dm))
    ensures var m := Lookup(ParseArgsR(args, defaults), n);
            m.Arr? ==> DistinctKeys(m.entries)
  {
    var k := StrKey(n);
    if HasKey(ToArray(args), k) {
      var j := IndexOf(ToArray(args), k);
      ParseArgsOverride(args, defaults, j);
      var ov := ToArray(args)[j].val;
      if ov.Arr? {
        MergeDistinct(ov.entries, 0, dm);
      }
    } else {
      ParseArgsDefaultOnly(args, defaults, k);
    }
  }

  lemma DefaultArgsMetas()
    ensures Find(DefaultArgs().entries, StrKey("metas")) == Some(Arr(DefaultMetas()))
  {
    var d := DefaultArgs().entries;
    assert forall i :: 0 <= i < 11 ==> ArgNames()[i] != "metas";
    assert d[11].key == StrKey("metas");
    var j := IndexOf(d, StrKey("metas"));
    assert j == 11;
  }

  lemma DefaultMetasDistinct()
    ensures DistinctKeys(DefaultMetas())
  {
    assert forall i, j :: 0 <= i < j < 22 ==> MetaNames()[i] != MetaNames()[j];
  }
}
