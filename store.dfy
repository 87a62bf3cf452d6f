/** The WordPress content store the importer writes to, as in-memory tables:
    posts, post meta, `product_cat` terms, attachments by title and the terms
    an object is assigned to. The host functions the importer calls
    (wp_insert_post, update_post_meta, wp_insert_term, ...) are functions from
    tables to tables, and the parts of the host that cannot be modelled
    (sanitize_title, the HTTP fetch, the upload) are oracles of a `Host`. */
module Store {
  import opened Wrappers
  import opened PhpValues
  import opened NatSets

  /** A row of the posts table: a product or an attachment. */
  datatype Post = Post(
    author: Value,
    title: Value,
    name: string,
    status: Value,
    content: Value,
    excerpt: Value,
    commentStatus: string,
    pingStatus: string,
    postType: string,
    parent: nat,
    mimeType: string,
    guid: string)

  /** A `product_cat` term. */
  datatype Term = Term(name: string, slug: string, parent: int, description: Value)

  /** One message of a WP_Error collection, under its error code. */
  datatype WpError = WpError(code: string, message: string)

  /** What wp_remote_get brings back: the content-type header ('' when the
      request failed or the header is absent) and the body. */
  datatype Response = Response(contentType: string, body: string)

  /** What wp_upload_bits returns: a falsy error, or the error message. */
  datatype Upload = Upload(error: Value, url: string, file: string)

  /** The host platform's behaviour the importer relies on but that is not
      part of this model: sanitize_title, the HTTP fetch, the file upload and
      the id of the current user. */
  datatype Host = Host(
    sanitizeTitle: string -> string,
    remoteGet: string -> Response,
    uploadBits: (string, string) -> Upload,
    currentUser: nat)

  datatype Tables = Tables(
    posts: map<nat, Post>,
    meta: map<(nat, string), Value>,
    terms: map<nat, Term>,
    attachments: map<string, nat>,
    objectTerms: map<(nat, string), seq<Value>>,
    nextPostId: nat,
    nextTermId: nat)

  /** The shape the tables keep: ids start at 1 and stay below the next
      free id, meta rows belong to non-zero post ids, and every attachment
      title names an id that was handed out. */
  predicate Valid(t: Tables) {
    && t.nextPostId >= 1
    && t.nextTermId >= 1
    && (forall id :: id in t.posts ==> 1 <= id < t.nextPostId)
    && (forall id :: id in t.terms ==> 1 <= id < t.nextTermId)
    && (forall k :: k in t.meta ==> k.0 >= 1)
    && (forall s :: s in t.attachments ==> 1 <= t.attachments[s] < t.nextPostId)
  }

  function EmptyTables(): (r: Tables)
    ensures Valid(r) && r.posts == map[] && r.terms == map[]
  {
    Tables(map[], map[], map[], map[], map[], 1, 1)
  }

  /** absint: the absolute value of intval. */
  function Absint(v: Value): nat {
    if Intval(v) < 0 then -Intval(v) else Intval(v)
  }

  // ---------------------------------------------------------------------
  // Posts
  // ---------------------------------------------------------------------

  /** wp_insert_post: the new post gets the next free id. */
  function InsertPost(t: Tables, p: Post): (r: Tables)
    ensures Valid(t) ==> Valid(r) && t.nextPostId !in t.posts
    ensures r.posts == t.posts[t.nextPostId := p] && r.nextPostId == t.nextPostId + 1
    ensures r.meta == t.meta && r.terms == t.terms && r.attachments == t.attachments
    ensures r.objectTerms == t.objectTerms && r.nextTermId == t.nextTermId
  {
    t.(posts := t.posts[t.nextPostId := p], nextPostId := t.nextPostId + 1)
  }

  /** wp_update_post: the fields the importer passes replace those of the
      existing post; the post's parent, mime type and guid stay. An unknown
      id changes nothing. */
  function UpdatePost(t: Tables, id: nat, p: Post): (r: Tables)
    ensures Valid(t) ==> Valid(r)
    ensures r.posts.Keys == t.posts.Keys && r.(posts := t.posts) == t
    ensures id in t.posts ==> r.posts[id] == p.(parent := t.posts[id].parent, mimeType := t.posts[id].mimeType, guid := t.posts[id].guid)
    ensures forall q :: q in t.posts && q != id ==> r.posts[q] == t.posts[q]
  {
    if id in t.posts then
      var was := t.posts[id];
      t.(posts := t.posts[id := p.(parent := was.parent, mimeType := was.mimeType, guid := was.guid)])
    else t
  }

  /** What wp_update_post returns: the post id, or 0 for an unknown post. */
  function UpdatedId(t: Tables, id: nat): (r: nat)
    ensures id in t.posts ==> r == id
    ensures id !in t.posts ==> r == 0
  {
    if id in t.posts then id else 0
  }

  /** get_the_title: the title of a post, '' for an unknown post. */
  function PostTitle(t: Tables, id: nat): string {
    if id in t.posts then ToStr(t.posts[id].title) else ""
  }

  /** Whether wp_delete_post moves the post to the trash rather than deleting
      it: only without force, only for the post types 'post' and 'page', and
      only when the post is not in the trash already (the host's trash is
      assumed enabled). Every other post, a product or an attachment among
      them, is deleted outright. */
  predicate Trashes(p: Post, force: bool) {
    !force && (p.postType == "post" || p.postType == "page") && p.status != Str("trash")
  }

  /** wp_delete_post: a post that is not trashed goes, together with all its
      meta rows, its term relationships and the attachment titles that name
      it; a trashed post keeps everything and only its status changes. An
      unknown id changes nothing. */
  function DeletePost(t: Tables, id: nat, force: bool): (r: Tables)
    ensures Valid(t) ==> Valid(r)
    ensures r.(posts := t.posts, meta := t.meta, attachments := t.attachments, objectTerms := t.objectTerms) == t
    ensures id !in t.posts ==> r == t
    ensures id in t.posts && Trashes(t.posts[id], force) ==>
              r == t.(posts := t.posts[id := t.posts[id].(status := Str("trash"))])
    ensures id in t.posts && !Trashes(t.posts[id], force) ==>
              && r.posts == t.posts - {id}
              && (forall k :: k in r.meta <==> k in t.meta && k.0 != id)
              && (forall k :: k in r.meta ==> r.meta[k] == t.meta[k])
              && (forall k :: k in r.objectTerms <==> k in t.objectTerms && k.0 != id)
              && (forall k :: k in r.objectTerms ==> r.objectTerms[k] == t.objectTerms[k])
              && (forall s :: s in r.attachments <==> s in t.attachments && t.attachments[s] != id)
              && (forall s :: s in r.attachments ==> r.attachments[s] == t.attachments[s])
  {
    if id !in t.posts then t
    else if Trashes(t.posts[id], force) then
      t.(posts := t.posts[id := t.posts[id].(status := Str("trash"))])
    else
      t.(posts := t.posts - {id},
         meta := map k | k in t.meta && k.0 != id :: t.meta[k],
         objectTerms := map k | k in t.objectTerms && k.0 != id :: t.objectTerms[k],
         attachments := map s | s in t.attachments && t.attachments[s] != id :: t.attachments[s])
  }

  // ---------------------------------------------------------------------
  // Post meta
  // ---------------------------------------------------------------------

  /** update_post_meta: the value is stored under (post, key); post id 0 is
      refused. */
  function PutMeta(t: Tables, id: nat, key: string, v: Value): (r: Tables)
    ensures Valid(t) ==> Valid(r)
    ensures id != 0 ==> (id, key) in r.meta && r.meta[(id, key)] == v
    ensures forall k :: k != (id, key) ==> (k in r.meta <==> k in t.meta)
    ensures forall k :: k != (id, key) && k in t.meta ==> r.meta[k] == t.meta[k]
    ensures r.(meta := t.meta) == t
  {
    if id == 0 then t else t.(meta := t.meta[(id, key) := v])
  }

  /** Writing the same value twice is writing it once. */
  lemma PutMetaTwice(t: Tables, id: nat, key: string, v: Value)
    ensures PutMeta(PutMeta(t, id, key, v), id, key, v) == PutMeta(t, id, key, v)
  {
    if id != 0 {
      assert t.meta[(id, key) := v][(id, key) := v] == t.meta[(id, key) := v];
    }
  }

  /** delete_post_meta for one key. */
  function DeleteMeta(t: Tables, id: nat, key: string): (r: Tables)
    ensures Valid(t) ==> Valid(r)
    ensures (id, key) !in r.meta
    ensures forall k :: k != (id, key) ==> (k in r.meta <==> k in t.meta)
    ensures forall k :: k != (id, key) && k in t.meta ==> r.meta[k] == t.meta[k]
    ensures r.(meta := t.meta) == t
  {
    t.(meta := t.meta - {(id, key)})
  }

  /** The keys get_post_custom reports for a post. */
  function MetaKeysOf(t: Tables, id: nat): set<string> {
    set k | k in t.meta && k.0 == id :: k.1
  }

  /** The tables with every meta row of one post removed. */
  function StripMeta(t: Tables, id: nat): (r: Tables)
    ensures Valid(t) ==> Valid(r)
    ensures forall k :: k in r.meta <==> k in t.meta && k.0 != id
    ensures forall k :: k in r.meta ==> r.meta[k] == t.meta[k]
    ensures r.(meta := t.meta) == t
  {
    t.(meta := map k | k in t.meta && k.0 != id :: t.meta[k])
  }

  /** Two meta tables with the same rows are equal. */
  lemma MetaMapsEqual(a: map<(nat, string), Value>, b: map<(nat, string), Value>)
    requires forall k :: k in a <==> k in b
    requires forall k :: k in a ==> a[k] == b[k]
    ensures a == b
  {
  }

  /** A meta value as the text a SQL comparison sees; arrays are stored
      serialized, and the serialized form is not modelled, so they match no
      text. */
  predicate MetaMatches(v: Value, s: string) {
    !v.Arr? && ToStr(v) == s
  }

  /** The posts whose `_sku` meta reads as sku. */
  function SkuOwners(t: Tables, sku: string): set<nat> {
    set k | k in t.meta && k.1 == "_sku" && MetaMatches(t.meta[k], sku) :: k.0
  }

  lemma SkuOwnersMember(t: Tables, sku: string, id: nat)
    ensures id in SkuOwners(t, sku) <==> (id, "_sku") in t.meta && MetaMatches(t.meta[(id, "_sku")], sku)
  {
    if (id, "_sku") in t.meta && MetaMatches(t.meta[(id, "_sku")], sku) {
      var k := (id, "_sku");
      assert k in t.meta && k.1 == "_sku" && MetaMatches(t.meta[k], sku);
    }
  }

  /** product_exist: the id of a post whose `_sku` meta is sku, as the
      decimal string the database driver returns, or null when no post has
      that SKU. */
  ghost function SkuLookup(t: Tables, sku: Value): (r: Value)
    ensures r == Null <==> SkuOwners(t, ToStr(sku)) == {}
  {
    var owners := SkuOwners(t, ToStr(sku));
    if owners == {} then Null else Str(NatToString(Least(owners)))
  }

  /** A found id is a decimal string naming a post whose `_sku` meta reads as
      the SKU; in well-formed tables it is truthy and at least 1. */
  lemma SkuLookupFinds(t: Tables, sku: Value)
    ensures var r := SkuLookup(t, sku);
            r != Null ==>
              && r.Str? && IsNumericString(r.s)
              && (Intval(r), "_sku") in t.meta && MetaMatches(t.meta[(Intval(r), "_sku")], ToStr(sku))
              && (Valid(t) ==> Truthy(r) && Intval(r) >= 1)
  {
    var owners := SkuOwners(t, ToStr(sku));
    if owners != {} {
      var id := Least(owners);
      NatToStringRoundTrip(id);
      SkuOwnersMember(t, ToStr(sku), id);
      assert Valid(t) ==> id >= 1;
      assert NatToString(id) == "0" ==> id == 0;
    }
  }

  // ---------------------------------------------------------------------
  // Terms
  // ---------------------------------------------------------------------

  /** The `product_cat` terms with a given name. */
  function TermsNamed(t: Tables, name: string): set<nat> {
    set id | id in t.terms && t.terms[id].name == name
  }

  /** term_exists by name: the term with that name, if there is one. */
  ghost function TermByName(t: Tables, name: string): (r: Option<nat>)
    ensures r.None? <==> forall id :: id in t.terms ==> t.terms[id].name != name
    ensures r.Some? ==> r.value in t.terms && t.terms[r.value].name == name
  {
    var ids := TermsNamed(t, name);
    if ids == {} then
      assert forall id :: id in t.terms && t.terms[id].name == name ==> id in ids;
      None
    else Some(Least(ids))
  }

  /** Whether a term already uses the slug. */
  predicate SlugTaken(t: Tables, slug: string) {
    exists id :: id in t.terms && t.terms[id].slug == slug
  }

  /** The `product_cat` terms with a given slug. */
  function TermsWithSlug(t: Tables, slug: string): set<nat> {
    set id | id in t.terms && t.terms[id].slug == slug
  }

  /** term_exists on a name: the term whose slug is the sanitised name, and
      only when there is none, the term with the name itself. */
  ghost function TermExists(t: Tables, host: Host, name: string): (r: Option<nat>)
    ensures r.None? <==> !SlugTaken(t, host.sanitizeTitle(name)) && TermByName(t, name).None?
    ensures SlugTaken(t, host.sanitizeTitle(name)) ==>
              r.Some? && r.value in t.terms && t.terms[r.value].slug == host.sanitizeTitle(name)
    ensures !SlugTaken(t, host.sanitizeTitle(name)) ==> r == TermByName(t, name)
  {
    var slug := host.sanitizeTitle(name);
    var owners := TermsWithSlug(t, slug);
    if owners == {} then
      assert forall id :: id in t.terms && t.terms[id].slug == slug ==> id in owners;
      TermByName(t, name)
    else
      var id := Least(owners);
      assert id in owners;
      Some(id)
  }

  /** The two tables agree on everything but the terms and the next free
      term id. */
  predicate OnlyTermsDiffer(a: Tables, b: Tables) {
    a.posts == b.posts && a.meta == b.meta && a.attachments == b.attachments
    && a.objectTerms == b.objectTerms && a.nextPostId == b.nextPostId
  }

  /** wp_insert_term: the new term gets the next free term id. */
  function InsertTerm(t: Tables, term: Term): (r: Tables)
    ensures Valid(t) ==> Valid(r) && t.nextTermId !in t.terms
    ensures r.terms == t.terms[t.nextTermId := term] && r.nextTermId == t.nextTermId + 1
    ensures OnlyTermsDiffer(t, r)
  {
    t.(terms := t.terms[t.nextTermId := term], nextTermId := t.nextTermId + 1)
  }

  /** Every (object, taxonomy) pair outside `changed` has the same terms,
      or none, in both tables. */
  predicate ObjectTermsKeptExcept(a: map<(nat, string), seq<Value>>, b: map<(nat, string), seq<Value>>,
                                  changed: set<(nat, string)>) {
    && (forall k :: k in b && k !in changed ==> k in a)
    && (forall k :: k in a && k !in changed ==> k in b && b[k] == a[k])
  }

  /** wp_set_object_terms: the object's terms in a taxonomy become the list. */
  function SetObjectTerms(t: Tables, id: nat, taxonomy: string, ts: seq<Value>): (r: Tables)
    ensures Valid(t) ==> Valid(r)
    ensures (id, taxonomy) in r.objectTerms && r.objectTerms[(id, taxonomy)] == ts
    ensures r.(objectTerms := t.objectTerms) == t
    ensures ObjectTermsKeptExcept(t.objectTerms, r.objectTerms, {(id, taxonomy)})
  {
    t.(objectTerms := t.objectTerms[(id, taxonomy) := ts])
  }

  // ---------------------------------------------------------------------
  // Attachments
  // ---------------------------------------------------------------------

  /** wp_insert_attachment: an attachment post with the next free id, found
      from then on under its title. */
  function InsertAttachment(t: Tables, title: string, p: Post): (r: Tables)
    ensures Valid(t) ==> Valid(r)
    ensures r.attachments == t.attachments[title := t.nextPostId]
    ensures r.posts == t.posts[t.nextPostId := p] && r.nextPostId == t.nextPostId + 1
    ensures r.meta == t.meta && r.terms == t.terms && r.nextTermId == t.nextTermId
    ensures r.objectTerms == t.objectTerms
  {
    t.(posts := t.posts[t.nextPostId := p],
       attachments := t.attachments[title := t.nextPostId],
       nextPostId := t.nextPostId + 1)
  }
}
