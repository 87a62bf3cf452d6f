/** associate_upsell_sku, associate_crosssell_sku and delete_product: the
    operations that find products by SKU and then write or remove rows. */
module Relations {
  import opened Wrappers
  import opened PhpValues
  import opened ArgsMerge
  import opened Store

  /** The meta keys the two association operations write. */
  const UpsellKey := "_upsell_ids"
  const CrosssellKey := "_crosssell_ids"

  /** What a foreach visits: the values of an array; anything else is not
      iterated. */
  function ForeachList(v: Value): seq<Value> {
    if v.Arr? then Values(v) else []
  }

  /** The loop of the association operations: the lookup of each SKU in
      turn, keeping the truthy ones. */
  ghost function RelatedIds(t: Tables, skus: seq<Value>): (r: seq<Value>)
    ensures |r| <= |skus|
    decreases |skus|
  {
    if skus == [] then []
    else
      var init := skus[..|skus| - 1];
      var last := skus[|skus| - 1];
      RelatedIds(t, init) + Kept(t, last)
  }

  /** What one SKU contributes: its product's id when the lookup is truthy. */
  ghost function Kept(t: Tables, sku: Value): (r: seq<Value>)
    ensures |r| <= 1
  {
    var id := SkuLookup(t, sku);
    if Truthy(id) then [id] else []
  }

  /** One more SKU contributes what Kept says. */
  lemma RelatedIdsSnoc(t: Tables, skus: seq<Value>, sku: Value)
    ensures RelatedIds(t, skus + [sku]) == RelatedIds(t, skus) + Kept(t, sku)
  {
    assert (skus + [sku])[..|skus|] == skus;
  }

  /** Only truthy ids are kept. */
  lemma {:induction false} RelatedIdsTruthy(t: Tables, skus: seq<Value>)
    ensures forall v :: v in RelatedIds(t, skus) ==> Truthy(v)
    decreases |skus|
  {
    if skus != [] {
      RelatedIdsTruthy(t, skus[..|skus| - 1]);
    }
  }

  /** The ids of a concatenation of SKU lists are the concatenation of the ids. */
  lemma {:induction false} RelatedIdsAppend(t: Tables, a: seq<Value>, b: seq<Value>)
    ensures RelatedIds(t, a + b) == RelatedIds(t, a) + RelatedIds(t, b)
    decreases |b|
  {
    if b == [] {
      assert a + b == a;
    } else {
      var init := b[..|b| - 1];
      var last := b[|b| - 1];
      assert b == init + [last];
      assert a + b == (a + init) + [last];
      RelatedIdsAppend(t, a, init);
      RelatedIdsSnoc(t, a + init, last);
      RelatedIdsSnoc(t, init, last);
      ConcatAssoc(RelatedIds(t, a), RelatedIds(t, init), Kept(t, last));
    }
  }

  lemma ConcatAssoc(x: seq<Value>, y: seq<Value>, z: seq<Value>)
    ensures (x + y) + z == x + (y + z)
  {
  }

  /** In well-formed tables, an id is kept exactly when its SKU belongs to a
      product: unknown SKUs are dropped and every known one is kept. */
  lemma {:induction false} RelatedIdsExactly(t: Tables, skus: seq<Value>)
    requires Valid(t)
    ensures forall v :: v in RelatedIds(t, skus) <==>
              exists s :: s in skus && SkuOwners(t, ToStr(s)) != {} && v == SkuLookup(t, s)
    decreases |skus|
  {
    if skus != [] {
      var init := skus[..|skus| - 1];
      var last := skus[|skus| - 1];
      RelatedIdsExactly(t, init);
      assert skus == init + [last];
      assert RelatedIds(t, skus) == RelatedIds(t, init) + Kept(t, last);
      KeptExactly(t, last);
      forall v ensures v in RelatedIds(t, skus) <==>
                 exists s :: s in skus && SkuOwners(t, ToStr(s)) != {} && v == SkuLookup(t, s)
      {
        if exists s :: s in skus && SkuOwners(t, ToStr(s)) != {} && v == SkuLookup(t, s) {
          var s :| s in skus && SkuOwners(t, ToStr(s)) != {} && v == SkuLookup(t, s);
          if s != last {
            assert s in init;
          }
        }
      }
    }
  }

  /** In well-formed tables a SKU contributes its lookup exactly when some
      product has it. */
  lemma KeptExactly(t: Tables, sku: Value)
    requires Valid(t)
    ensures Kept(t, sku) == if SkuOwners(t, ToStr(sku)) != {} then [SkuLookup(t, sku)] else []
  {
    SkuLookupFinds(t, sku);
  }

  /** associate_upsell_sku and associate_crosssell_sku: the ids found for the
      SKUs, stored as a list under the key (update_post_meta takes the
      absolute integer value of the post id and refuses 0). */
  ghost function AssociateSpec(t: Tables, pid: Value, skus: Value, key: string): (r: Tables)
    ensures Valid(t) ==> Valid(r)
    ensures Absint(pid) != 0 ==> (Absint(pid), key) in r.meta && r.meta[(Absint(pid), key)] == ListValue(RelatedIds(t, ForeachList(skus)))
    ensures forall k :: k != (Absint(pid), key) ==> (k in r.meta <==> k in t.meta)
    ensures forall k :: k != (Absint(pid), key) && k in t.meta ==> r.meta[k] == t.meta[k]
    ensures r.(meta := t.meta) == t
  {
    PutMeta(t, Absint(pid), key, ListValue(RelatedIds(t, ForeachList(skus))))
  }

  /** Writing a meta row other than `_sku` changes no SKU lookup. */
  lemma SkuLookupIgnoresOtherMeta(t: Tables, id: nat, key: string, v: Value, sku: Value)
    requires key != "_sku"
    ensures SkuLookup(PutMeta(t, id, key, v), sku) == SkuLookup(t, sku)
  {
    assert SkuOwners(PutMeta(t, id, key, v), ToStr(sku)) == SkuOwners(t, ToStr(sku));
  }

  lemma {:induction false} RelatedIdsIgnoreOtherMeta(t: Tables, id: nat, key: string, v: Value, skus: seq<Value>)
    requires key != "_sku"
    ensures RelatedIds(PutMeta(t, id, key, v), skus) == RelatedIds(t, skus)
    decreases |skus|
  {
    if skus != [] {
      RelatedIdsIgnoreOtherMeta(t, id, key, v, skus[..|skus| - 1]);
      SkuLookupIgnoresOtherMeta(t, id, key, v, skus[|skus| - 1]);
    }
  }

  /** Associating the same SKUs again changes nothing: the written list does
      not affect any SKU lookup. */
  lemma AssociateIdempotent(t: Tables, pid: Value, skus: Value)
    ensures var r := AssociateSpec(t, pid, skus, UpsellKey);
            AssociateSpec(r, pid, skus, UpsellKey) == r
    ensures var r := AssociateSpec(t, pid, skus, CrosssellKey);
            AssociateSpec(r, pid, skus, CrosssellKey) == r
  {
    AssociateAgain(t, pid, skus, UpsellKey);
    AssociateAgain(t, pid, skus, CrosssellKey);
  }

  lemma AssociateAgain(t: Tables, pid: Value, skus: Value, key: string)
    requires key != "_sku"
    ensures var r := AssociateSpec(t, pid, skus, key);
            AssociateSpec(r, pid, skus, key) == r
  {
    var id := Absint(pid);
    var list := ForeachList(skus);
    var ids := ListValue(RelatedIds(t, list));
    var r := PutMeta(t, id, key, ids);
    assert AssociateSpec(t, pid, skus, key) == r;
    RelatedIdsIgnoreOtherMeta(t, id, key, ids, list);
    assert AssociateSpec(r, pid, skus, key) == PutMeta(r, id, key, ids);
    PutMetaTwice(t, id, key, ids);
  }

  // ---------------------------------------------------------------------
  // delete_product
  // ---------------------------------------------------------------------

  /** The id delete_product acts on: the owner of the SKU when a SKU is
      given, whatever product id is given beside it; the product id
      otherwise. */
  ghost function DeleteTarget(t: Tables, args: Value): Value {
    var sku := WpParseArg(args, "sku", Null);
    if Truthy(sku) then SkuLookup(t, sku) else WpParseArg(args, "product_id", Null)
  }

  /** delete_product: false when there is no id to act on; otherwise, with
      force, the meta rows under the id's absolute value are deleted one by
      one before wp_delete_post, which then trashes or removes the post by
      its type. wp_delete_post looks the post up by the id as an integer, so
      a zero or negative id finds no post. true is returned even when no
      post has the id. */
  ghost function DeleteSpec(t: Tables, args: Value, force: bool): (r: (Tables, bool))
    ensures Valid(t) ==> Valid(r.0)
    ensures !r.1 <==> !Truthy(DeleteTarget(t, args))
    ensures !r.1 ==> r.0 == t
    ensures r.0.terms == t.terms
  {
    var pid := DeleteTarget(t, args);
    if !Truthy(pid) then (t, false)
    else
      var stripped := if force then StripMeta(t, Absint(pid)) else t;
      var id := Intval(pid);
      (if id > 0 then DeletePost(stripped, id, force) else stripped, true)
  }

  /** A forced delete of a positive id leaves neither the post nor any of
      its meta rows or term relationships, and keeps every other post's
      meta. */
  lemma ForcedDeleteRemovesAll(t: Tables, args: Value)
    ensures var r := DeleteSpec(t, args, true);
            var id := Intval(DeleteTarget(t, args));
            r.1 && id > 0 ==>
              && id !in r.0.posts
              && (forall k :: k in r.0.meta ==> k.0 != id)
              && (id in t.posts ==> forall k :: k in r.0.objectTerms ==> k.0 != id)
              && (forall k :: k in t.meta && k.0 != id ==> k in r.0.meta && r.0.meta[k] == t.meta[k])
  {
  }

  /** Without force only a post or a page goes to the trash, keeping its
      meta and its terms; a product, or any other post type, is deleted
      outright with its meta rows and its term relationships, just as with
      force. */
  lemma UnforcedDelete(t: Tables, args: Value)
    ensures var r := DeleteSpec(t, args, false);
            var id := Intval(DeleteTarget(t, args));
            r.1 && id > 0 && id in t.posts ==>
              if (t.posts[id].postType == "post" || t.posts[id].postType == "page") && t.posts[id].status != Str("trash")
              then r.0.meta == t.meta && r.0.objectTerms == t.objectTerms && r.0.posts.Keys == t.posts.Keys
                   && r.0.posts[id] == t.posts[id].(status := Str("trash"))
              else id !in r.0.posts
                   && (forall k :: k in r.0.meta <==> k in t.meta && k.0 != id)
                   && (forall k :: k in r.0.objectTerms <==> k in t.objectTerms && k.0 != id)
  {
  }

  /** A zero or negative id deletes no post: without force nothing changes,
      and with force only the meta rows under the id's absolute value go. */
  lemma NonPositiveIdKeepsPosts(t: Tables, args: Value, force: bool)
    ensures var r := DeleteSpec(t, args, force);
            var pid := DeleteTarget(t, args);
            r.1 && Intval(pid) <= 0 ==>
              && r.0.posts == t.posts && r.0.objectTerms == t.objectTerms
              && (!force ==> r.0 == t)
              && (force ==> forall k :: k in r.0.meta <==> k in t.meta && k.0 != Absint(pid))
  {
  }

  /** A SKU no product has makes delete_product fail without touching
      anything, even when a product id is given too. */
  lemma DeleteUnknownSku(t: Tables, args: Value, force: bool)
    requires Truthy(WpParseArg(args, "sku", Null))
    requires SkuOwners(t, ToStr(WpParseArg(args, "sku", Null))) == {}
    ensures DeleteSpec(t, args, force) == (t, false)
  {
  }

  /** A SKU a product has, in well-formed tables, deletes a product that
      carries that SKU. */
  lemma DeleteKnownSku(t: Tables, args: Value, force: bool)
    requires Valid(t)
    requires Truthy(WpParseArg(args, "sku", Null))
    requires SkuOwners(t, ToStr(WpParseArg(args, "sku", Null))) != {}
    ensures var r := DeleteSpec(t, args, force);
            var id := Absint(DeleteTarget(t, args));
            && r.1 && id >= 1
            && (id, "_sku") in t.meta && MetaMatches(t.meta[(id, "_sku")], ToStr(WpParseArg(args, "sku", Null)))
  {
    SkuLookupFinds(t, WpParseArg(args, "sku", Null));
  }
}
