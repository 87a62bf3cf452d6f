/** add_category and add_product_to_category: categories are found by slug or name
    or created, a hierarchical path creates each level under the previous
    one, and the product is assigned the collected ids as integers without
    duplicates. */
module Categories {
  import opened Wrappers
  import opened PhpValues
  import opened ArgsMerge
  import opened Store

  // ---------------------------------------------------------------------
  // add_category
  // ---------------------------------------------------------------------

  /** add_category: an empty name gives false. term_exists then looks the
      name up, by its sanitised slug first and by the name itself second;
      a term it finds gives its id as a string, whatever its parent.
      Otherwise a term is inserted under the given parent, with the slug
      defaulting to the sanitised name, and its id is returned as an
      integer. wp_insert_term refuses a name that trims to nothing; that
      error falls off the end of the function and gives null. */
  ghost function AddCategorySpec(t: Tables, host: Host, args: Value): (r: (Tables, Value))
    ensures Valid(t) ==> Valid(r.0)
    ensures r.1 == Bool(false) <==> Empty(WpParseArg(args, "name", Str("")))
    ensures r.0 != t ==> r.1 == Int(t.nextTermId) && r.0.terms.Keys == t.terms.Keys + {t.nextTermId}
    ensures OnlyTermsDiffer(t, r.0)
  {
    var name := WpParseArg(args, "name", Str(""));
    var slugArg := WpParseArg(args, "slug", Str(""));
    var parent := WpParseArg(args, "parent", Int(0));
    var description := WpParseArg(args, "description", Str(""));
    if Empty(name) then (t, Bool(false))
    else
      var slug := if Empty(slugArg) then host.sanitizeTitle(ToStr(name)) else ToStr(slugArg);
      match TermExists(t, host, ToStr(name))
      case Some(id) => (t, Str(NatToString(id)))
      case None =>
        if Trim(ToStr(name)) == "" then (t, Null)
        else (InsertTerm(t, Term(ToStr(name), slug, Intval(parent), description)), Int(t.nextTermId))
  }

  /** The name-only lookup after an insertion of a term with another name. */
  lemma TermByNameAfterInsert(t: Tables, term: Term, name: string)
    requires Valid(t) && term.name != name
    ensures TermByName(InsertTerm(t, term), name) == TermByName(t, name)
  {
    assert TermsNamed(InsertTerm(t, term), name) == TermsNamed(t, name);
  }

  /** After add_category, the id it returned is the one term_exists then
      finds for the name: the category is found or inserted, never
      duplicated. */
  lemma {:induction false} AddCategoryFindsOrInserts(t: Tables, host: Host, args: Value)
    requires Valid(t)
    ensures var r := AddCategorySpec(t, host, args);
            var name := ToStr(WpParseArg(args, "name", Str("")));
            r.1 != Bool(false) && r.1 != Null ==> TermExists(r.0, host, name) == Some(Intval(r.1))
  {
    var name := WpParseArg(args, "name", Str(""));
    var r := AddCategorySpec(t, host, args);
    if r.1 != Bool(false) && r.1 != Null {
      match TermExists(t, host, ToStr(name))
      case Some(id) =>
        NatToStringRoundTrip(id);
      case None =>
        var id := t.nextTermId;
        var s0 := host.sanitizeTitle(ToStr(name));
        assert TermsNamed(r.0, ToStr(name)) == {id};
        if r.0.terms[id].slug == s0 {
          assert TermsWithSlug(r.0, s0) == {id};
        } else {
          assert TermsWithSlug(r.0, s0) == {};
        }
    }
  }

  /** Adding the same category twice inserts it at most once: the second
      call finds the first one's term and changes nothing. */
  lemma AddCategoryIdempotent(t: Tables, host: Host, args: Value)
    requires Valid(t)
    ensures var r := AddCategorySpec(t, host, args);
            r.1 != Bool(false) && r.1 != Null ==>
            AddCategorySpec(r.0, host, args) == (r.0, Str(NatToString(Intval(r.1))))
  {
    AddCategoryFindsOrInserts(t, host, args);
  }

  /** A term that term_exists finds for the name is returned, as a decimal
      string, and nothing is inserted, whatever parent was asked for: the
      term holding the sanitised name as its slug, whatever its own name,
      and otherwise the term with that name. */
  lemma AddCategoryExisting(t: Tables, host: Host, args: Value)
    requires !Empty(WpParseArg(args, "name", Str("")))
    requires TermExists(t, host, ToStr(WpParseArg(args, "name", Str("")))).Some?
    ensures var name := ToStr(WpParseArg(args, "name", Str("")));
            var id := TermExists(t, host, name).value;
            && AddCategorySpec(t, host, args) == (t, Str(NatToString(id)))
            && id in t.terms
            && (SlugTaken(t, host.sanitizeTitle(name)) ==> t.terms[id].slug == host.sanitizeTitle(name))
            && (!SlugTaken(t, host.sanitizeTitle(name)) ==> t.terms[id].name == name)
  {
  }

  /** A new category is inserted under the given parent, with the slug
      defaulting to the sanitised name; an existing one is returned as it is,
      whatever parent was asked for. */
  lemma AddCategoryInsertsUnderParent(t: Tables, host: Host, args: Value)
    ensures var r := AddCategorySpec(t, host, args);
            var name := WpParseArg(args, "name", Str(""));
            var slugArg := WpParseArg(args, "slug", Str(""));
            r.0 != t ==>
              t.nextTermId in r.0.terms
              && r.0.terms[t.nextTermId].name == ToStr(name)
              && r.0.terms[t.nextTermId].parent == Intval(WpParseArg(args, "parent", Int(0)))
              && (Empty(slugArg) ==> r.0.terms[t.nextTermId].slug == host.sanitizeTitle(ToStr(name)))
              && TermExists(t, host, ToStr(name)).None?
  {
  }

  /** A non-empty name that term_exists does not find is inserted, under
      the given parent and with the given slug and description, and its new
      id is returned as an integer, whoever holds that slug; only a name
      that trims to nothing changes nothing and gives null. */
  lemma AddCategoryNew(t: Tables, host: Host, args: Value)
    requires !Empty(WpParseArg(args, "name", Str("")))
    requires TermExists(t, host, ToStr(WpParseArg(args, "name", Str("")))).None?
    ensures var name := ToStr(WpParseArg(args, "name", Str("")));
            var slugArg := WpParseArg(args, "slug", Str(""));
            var slug := if Empty(slugArg) then host.sanitizeTitle(name) else ToStr(slugArg);
            var r := AddCategorySpec(t, host, args);
            if Trim(name) == "" then r == (t, Null)
            else
              && r.0 != t && r.1 == Int(t.nextTermId)
              && r.0.terms == t.terms[t.nextTermId := Term(name, slug, Intval(WpParseArg(args, "parent", Int(0))),
                                                             WpParseArg(args, "description", Str("")))]
  {
  }

  /** add_category gives null exactly when term_exists finds nothing and the
      name trims to nothing, so that wp_insert_term refuses it. */
  lemma AddCategoryNullIff(t: Tables, host: Host, args: Value)
    ensures var name := WpParseArg(args, "name", Str(""));
            AddCategorySpec(t, host, args).1 == Null <==>
              !Empty(name) && TermExists(t, host, ToStr(name)).None? && Trim(ToStr(name)) == ""
  {
  }

  /** A term holding the sanitised slug of the name, the first one if
      several do, is returned whatever its own name: a name 'Shoes!' finds
      the term 'Shoes' whose slug is 'shoes', and nothing is inserted. */
  lemma SlugOwnerIsFound(t: Tables, host: Host, args: Value, id: nat)
    requires !Empty(WpParseArg(args, "name", Str("")))
    requires id in t.terms && t.terms[id].slug == host.sanitizeTitle(ToStr(WpParseArg(args, "name", Str(""))))
    requires forall j :: j in t.terms && j < id ==> t.terms[j].slug != t.terms[id].slug
    ensures AddCategorySpec(t, host, args) == (t, Str(NatToString(id)))
  {
    var slug := t.terms[id].slug;
    assert id in TermsWithSlug(t, slug);
  }

  /** The arguments add_product_to_category passes for a level of a path. */
  function LevelArgs(name: Value, parent: Value): (r: Value)
    ensures WpParseArg(r, "name", Str("")) == name && WpParseArg(r, "parent", Int(0)) == parent
    ensures WpParseArg(r, "slug", Str("")) == Str("") && WpParseArg(r, "description", Str("")) == Str("")
  {
    var r := Arr([Entry(StrKey("name"), name), Entry(StrKey("parent"), parent)]);
    assert r.entries[0].key == StrKey("name") && r.entries[1].key == StrKey("parent");
    assert !HasKey(r.entries, StrKey("slug")) && !HasKey(r.entries, StrKey("description"));
    r
  }

  /** The arguments add_product_to_category passes for a single category. */
  function SingleArgs(name: Value): (r: Value)
    ensures WpParseArg(r, "name", Str("")) == name && WpParseArg(r, "parent", Int(0)) == Int(0)
    ensures WpParseArg(r, "slug", Str("")) == Str("") && WpParseArg(r, "description", Str("")) == Str("")
  {
    var r := Arr([Entry(StrKey("name"), name)]);
    assert r.entries[0].key == StrKey("name");
    assert !HasKey(r.entries, StrKey("parent")) && !HasKey(r.entries, StrKey("slug"));
    assert !HasKey(r.entries, StrKey("description"));
    r
  }

  // ---------------------------------------------------------------------
  // Hierarchical paths
  // ---------------------------------------------------------------------

  /** What the inner loop threads from one level to the next. */
  datatype PathState = PathState(t: Tables, parent: Value, collected: seq<Value>)

  /** One level: a numeric entry is an id as it is, any other is added
      under the previous level; the is_wp_error guard never filters, since
      add_category returns false or null rather than an error object. */
  ghost function PathStep(st: PathState, host: Host, level: Value): PathState {
    var id := LevelId(st, host, level);
    PathState(LevelTables(st, host, level), id, st.collected + [id])
  }

  /** The id one level yields. */
  ghost function LevelId(st: PathState, host: Host, level: Value): Value {
    if IsNumeric(level) then level else AddCategorySpec(st.t, host, LevelArgs(level, st.parent)).1
  }

  /** The tables after one level. */
  ghost function LevelTables(st: PathState, host: Host, level: Value): Tables {
    if IsNumeric(level) then st.t else AddCategorySpec(st.t, host, LevelArgs(level, st.parent)).0
  }

  /** The inner loop after the first n levels. */
  ghost function RunPath(s: PathState, host: Host, path: seq<Value>, n: nat): PathState
    requires n <= |path|
    decreases n
  {
    if n == 0 then s
    else
      var before := RunPath(s, host, path, n - 1);
      PathStep(before, host, path[n - 1])
  }

  /** The inner loop yields one id per level, and the last id is the next
      parent. */
  lemma {:induction false} RunPathCollects(s: PathState, host: Host, path: seq<Value>, n: nat)
    requires n <= |path|
    ensures var r := RunPath(s, host, path, n);
            && |r.collected| == |s.collected| + n && s.collected <= r.collected
            && (n > 0 ==> r.parent == r.collected[|r.collected| - 1])
    decreases n
  {
    if n > 0 {
      RunPathCollects(s, host, path, n - 1);
    }
  }

  /** The inner loop keeps the tables valid and changes only the terms. */
  lemma {:induction false} RunPathTables(s: PathState, host: Host, path: seq<Value>, n: nat)
    requires n <= |path|
    ensures Valid(s.t) ==> Valid(RunPath(s, host, path, n).t)
    ensures OnlyTermsDiffer(s.t, RunPath(s, host, path, n).t)
    decreases n
  {
    if n > 0 {
      RunPathTables(s, host, path, n - 1);
    }
  }

  /** One level appends the id it yields, which becomes the next parent;
      a numeric level yields itself. */
  lemma PathStepAppends(st: PathState, host: Host, level: Value)
    ensures var r := PathStep(st, host, level);
            && r.collected == st.collected + [r.parent]
            && (IsNumeric(level) ==> r.parent == level)
  {
  }

  /** A numeric level is passed through unchanged: it is the id collected
      for it. */
  lemma {:induction false} RunPathKeepsNumeric(s: PathState, host: Host, path: seq<Value>, n: nat, k: nat)
    requires k < n <= |path| && IsNumeric(path[k])
    ensures |RunPath(s, host, path, n).collected| > |s.collected| + k
    ensures RunPath(s, host, path, n).collected[|s.collected| + k] == path[k]
    decreases n
  {
    var before := RunPath(s, host, path, n - 1);
    RunPathCollects(s, host, path, n - 1);
    PathStepAppends(before, host, path[n - 1]);
    if k < n - 1 {
      RunPathKeepsNumeric(s, host, path, n - 1, k);
      assert before.collected[|s.collected| + k] == path[k];
    }
  }

  /** A level whose name is new: not numeric, not empty and not only white
      space, no term has it or its sanitised slug, so that term_exists
      finds nothing, and no other level of the path shares its name or its
      slug. */
  ghost predicate FreshLevel(t: Tables, host: Host, path: seq<Value>, k: nat)
    requires k < |path|
  {
    var name := ToStr(path[k]);
    && !IsNumeric(path[k]) && Truthy(path[k]) && Trim(name) != ""
    && TermByName(t, name).None? && !SlugTaken(t, host.sanitizeTitle(name))
    && forall j :: 0 <= j < |path| && j != k ==>
         ToStr(path[j]) != name && host.sanitizeTitle(ToStr(path[j])) != host.sanitizeTitle(name)
  }

  /** The term created for level k of a fresh path. */
  function LevelTerm(host: Host, path: seq<Value>, k: nat, first: nat): Term
    requires k < |path|
  {
    var name := ToStr(path[k]);
    Term(name, host.sanitizeTitle(name), if k == 0 then 0 else first + k - 1, Str(""))
  }

  /** The ids a fresh path of n levels yields, from the next free term id on. */
  function FreshIds(first: nat, n: nat): (r: seq<Value>)
    ensures |r| == n && forall k :: 0 <= k < n ==> r[k] == Int(first + k)
  {
    seq(n, k requires 0 <= k < n => Int(first + k))
  }

  /** A level with a new name and a free slug is inserted under the
      previous level, and its new id becomes the next parent. */
  lemma FreshLevelInserts(before: PathState, host: Host, level: Value)
    requires Valid(before.t) && !IsNumeric(level) && Truthy(level) && Trim(ToStr(level)) != ""
    requires TermByName(before.t, ToStr(level)).None?
    requires !SlugTaken(before.t, host.sanitizeTitle(ToStr(level)))
    ensures var name := ToStr(level);
            PathStep(before, host, level)
              == PathState(InsertTerm(before.t, Term(name, host.sanitizeTitle(name), Intval(before.parent), Str(""))),
                           Int(before.t.nextTermId), before.collected + [Int(before.t.nextTermId)])
  {
    var args := LevelArgs(level, before.parent);
    assert !Empty(level);
  }

  /** What a fresh path leaves after n levels: the chain of new terms, every
      other term kept, and the last new id as the parent of the next level. */
  ghost predicate ChainShape(s: PathState, r: PathState, host: Host, path: seq<Value>, n: nat)
    requires n <= |path|
  {
    var first := s.t.nextTermId;
    && Valid(r.t)
    && r.t.nextTermId == first + n
    && r.collected == s.collected + FreshIds(first, n)
    && (forall id :: first <= id < first + n ==> id in r.t.terms && r.t.terms[id] == LevelTerm(host, path, id - first, first))
    && (forall id :: id in r.t.terms && id < first ==> id in s.t.terms && r.t.terms[id] == s.t.terms[id])
    && r.parent == (if n == 0 then Int(0) else Int(first + n - 1))
  }

  /** Within a fresh path, the next level's name and slug are still unused. */
  lemma ChainLevelFresh(s: PathState, before: PathState, host: Host, path: seq<Value>, n: nat)
    requires 0 < n <= |path| && Valid(s.t)
    requires FreshLevel(s.t, host, path, n - 1)
    requires ChainShape(s, before, host, path, n - 1)
    ensures TermByName(before.t, ToStr(path[n - 1])).None?
    ensures !SlugTaken(before.t, host.sanitizeTitle(ToStr(path[n - 1])))
  {
    var first := s.t.nextTermId;
    var name := ToStr(path[n - 1]);
    forall id | id in before.t.terms
      ensures before.t.terms[id].name != name && before.t.terms[id].slug != host.sanitizeTitle(name)
    {
      if id < first {
        assert s.t.terms[id] == before.t.terms[id];
      } else {
        assert before.t.terms[id] == LevelTerm(host, path, id - first, first);
      }
    }
  }

  /** One more fresh level keeps the chain's shape. */
  lemma ChainShapeNext(s: PathState, before: PathState, host: Host, path: seq<Value>, n: nat)
    requires 0 < n <= |path| && Valid(s.t)
    requires FreshLevel(s.t, host, path, n - 1)
    requires ChainShape(s, before, host, path, n - 1)
    ensures ChainShape(s, PathStep(before, host, path[n - 1]), host, path, n)
  {
    var first := s.t.nextTermId;
    var level := path[n - 1];
    ChainLevelFresh(s, before, host, path, n);
    FreshLevelInserts(before, host, level);
    var term := LevelTerm(host, path, n - 1, first);
    assert Intval(before.parent) == term.parent;
    ChainShapeExtend(s, before, host, path, n);
  }

  /** The chain's shape, extended by the term of level n - 1. */
  lemma ChainShapeExtend(s: PathState, before: PathState, host: Host, path: seq<Value>, n: nat)
    requires 0 < n <= |path| && Valid(s.t)
    requires ChainShape(s, before, host, path, n - 1)
    ensures var first := s.t.nextTermId;
            ChainShape(s, PathState(InsertTerm(before.t, LevelTerm(host, path, n - 1, first)), Int(first + n - 1),
                                    before.collected + [Int(first + n - 1)]), host, path, n)
  {
    var first := s.t.nextTermId;
    assert s.collected + FreshIds(first, n) == s.collected + FreshIds(first, n - 1) + [Int(first + n - 1)];
  }

  /** A path of new names creates a chain of terms: level k becomes the term
      first + k, where first is the next free term id, the first level with
      parent 0 and every later level under the level before it. */
  lemma {:induction false} FreshPathChain(s: PathState, host: Host, path: seq<Value>, n: nat)
    requires n <= |path| && Valid(s.t) && s.parent == Int(0)
    requires forall k :: 0 <= k < |path| ==> FreshLevel(s.t, host, path, k)
    ensures ChainShape(s, RunPath(s, host, path, n), host, path, n)
    decreases n
  {
    if n == 0 {
      ChainShapeStart(s, host, path);
    } else {
      var before := RunPath(s, host, path, n - 1);
      FreshPathChain(s, host, path, n - 1);
      assert ChainShape(s, before, host, path, n - 1);
      assert FreshLevel(s.t, host, path, n - 1);
      ChainShapeNext(s, before, host, path, n);
    }
  }

  /** Before the first level the chain is empty. */
  lemma ChainShapeStart(s: PathState, host: Host, path: seq<Value>)
    requires Valid(s.t) && s.parent == Int(0)
    ensures ChainShape(s, s, host, path, 0)
  {
    assert FreshIds(s.t.nextTermId, 0) == [];
    assert s.collected + [] == s.collected;
  }

  // ---------------------------------------------------------------------
  // add_product_to_category
  // ---------------------------------------------------------------------

  /** What the outer loop threads from one category to the next. */
  datatype CatState = CatState(t: Tables, collected: seq<Value>)

  /** How many ids a list of categories yields: one per level of a path and
      one per single category. */
  function EntryCount(cats: seq<Value>): nat
    decreases |cats|
  {
    if cats == [] then 0
    else EntryCount(cats[..|cats| - 1]) + (var c := cats[|cats| - 1]; if c.Arr? then |Values(c)| else 1)
  }

  /** One category: a path, or a single category used directly when numeric
      and added by name otherwise. */
  ghost function CategoryStep(st: CatState, host: Host, c: Value): CatState {
    if c.Arr? then
      var path := Values(c);
      var r := RunPath(PathState(st.t, Int(0), st.collected), host, path, |path|);
      CatState(r.t, r.collected)
    else if IsNumeric(c) then st.(collected := st.collected + [c])
    else
      var r := AddCategorySpec(st.t, host, SingleArgs(c));
      CatState(r.0, st.collected + [r.1])
  }

  /** The outer loop after the first n categories: every entry yields one
      id, and only the terms change. */
  ghost function RunCategories(s: CatState, host: Host, cats: seq<Value>, n: nat): (r: CatState)
    requires n <= |cats|
    ensures |r.collected| == |s.collected| + EntryCount(cats[..n]) && s.collected <= r.collected
    ensures Valid(s.t) ==> Valid(r.t)
    ensures OnlyTermsDiffer(s.t, r.t)
    decreases n
  {
    if n == 0 then s
    else
      var before := RunCategories(s, host, cats, n - 1);
      assert cats[..n][..n - 1] == cats[..n - 1];
      var c := cats[n - 1];
      if c.Arr? then
        var path := Values(c);
        RunPathCollects(PathState(before.t, Int(0), before.collected), host, path, |path|);
        RunPathTables(PathState(before.t, Int(0), before.collected), host, path, |path|);
        CategoryStep(before, host, c)
      else
        CategoryStep(before, host, c)
  }

  /** No element occurs twice. */
  predicate NoDuplicates(xs: seq<int>) {
    forall i, j :: 0 <= i < j < |xs| ==> xs[i] != xs[j]
  }

  /** array_unique: the first occurrence of each element, in order. */
  function Dedup(xs: seq<int>): (r: seq<int>)
    ensures forall x :: x in r <==> x in xs
    ensures NoDuplicates(r)
    ensures |r| <= |xs|
    decreases |xs|
  {
    if xs == [] then []
    else
      var init := xs[..|xs| - 1];
      var x := xs[|xs| - 1];
      assert xs == init + [x];
      var d := Dedup(init);
      if x in d then d else d + [x]
  }

  /** array_unique keeps the first occurrence: a further element is
      appended exactly when it has not occurred before. */
  lemma DedupSnoc(xs: seq<int>, x: int)
    ensures Dedup(xs + [x]) == if x in Dedup(xs) then Dedup(xs) else Dedup(xs) + [x]
  {
    assert (xs + [x])[..|xs + [x]| - 1] == xs;
  }

  /** A list without duplicates is left as it is. */
  lemma {:induction false} DedupOfDistinct(xs: seq<int>)
    requires NoDuplicates(xs)
    ensures Dedup(xs) == xs
    decreases |xs|
  {
    if xs != [] {
      var init := xs[..|xs| - 1];
      DedupOfDistinct(init);
      assert xs[|xs| - 1] !in init;
      assert init + [xs[|xs| - 1]] == xs;
    }
  }

  function Intvals(vs: seq<Value>): (r: seq<int>)
    ensures |r| == |vs| && forall i :: 0 <= i < |vs| ==> r[i] == Intval(vs[i])
  {
    seq(|vs|, i requires 0 <= i < |vs| => Intval(vs[i]))
  }

  function IntValues(xs: seq<int>): (r: seq<Value>)
    ensures |r| == |xs| && forall i :: 0 <= i < |xs| ==> r[i] == Int(xs[i])
  {
    seq(|xs|, i requires 0 <= i < |xs| => Int(xs[i]))
  }

  /** The categories as the loop sees them: a non-array argument becomes
      `array( $category )`, where `$category` is not yet defined, that is,
      a list holding null. */
  function CategoryList(categories: Value): seq<Value> {
    if categories.Arr? then Values(categories) else [Null]
  }

  /** The ids assigned for the collected values: intval'd, duplicates removed. */
  function AssignedIds(collected: seq<Value>): seq<Value> {
    IntValues(Dedup(Intvals(collected)))
  }

  /** add_product_to_category: the tables it leaves. Nothing is assigned when
      no id was collected. */
  ghost function AddToCategorySpec(t: Tables, host: Host, pid: nat, categories: Value): (r: Tables)
    ensures Valid(t) ==> Valid(r)
    ensures r.(terms := t.terms, nextTermId := t.nextTermId, objectTerms := t.objectTerms) == t
    ensures forall k :: k != (pid, "product_cat") ==> (k in r.objectTerms <==> k in t.objectTerms)
    ensures forall k :: k != (pid, "product_cat") && k in t.objectTerms ==> r.objectTerms[k] == t.objectTerms[k]
  {
    var cats := CategoryList(categories);
    var st := RunCategories(CatState(t, []), host, cats, |cats|);
    if |st.collected| == 0 then st.t
    else SetObjectTerms(st.t, pid, "product_cat", AssignedIds(st.collected))
  }

  /** The assigned ids are exactly the intval'd collected values, each once. */
  lemma AssignedIdsMeaning(collected: seq<Value>)
    ensures forall v :: v in AssignedIds(collected) ==> v.Int?
    ensures forall x :: Int(x) in AssignedIds(collected) <==> x in Intvals(collected)
    ensures forall i, j :: 0 <= i < j < |AssignedIds(collected)| ==> AssignedIds(collected)[i] != AssignedIds(collected)[j]
  {
    var d := Dedup(Intvals(collected));
    var ids := AssignedIds(collected);
    forall x ensures Int(x) in ids <==> x in d {
      if x in d {
        var i :| 0 <= i < |d| && d[i] == x;
        assert ids[i] == Int(x);
      }
    }
  }

  /** The product is assigned each collected id once, as an integer, and
      nothing when no category yields an id. */
  lemma AssignedCategories(t: Tables, host: Host, pid: nat, categories: Value)
    ensures var cats := CategoryList(categories);
            var st := RunCategories(CatState(t, []), host, cats, |cats|);
            var r := AddToCategorySpec(t, host, pid, categories);
            if EntryCount(cats) == 0 then r.objectTerms == t.objectTerms
            else r.objectTerms == t.objectTerms[(pid, "product_cat") := AssignedIds(st.collected)]
  {
    var cats := CategoryList(categories);
    assert cats[..|cats|] == cats;
  }

  /** A category given as a single value rather than an array is read as
      `array( null )`: add_category refuses the empty name with false, and
      the product is assigned the term id 0. */
  lemma NonArrayCategoriesAssignZero(t: Tables, host: Host, pid: nat, categories: Value)
    requires !categories.Arr?
    ensures var r := AddToCategorySpec(t, host, pid, categories);
            r.terms == t.terms && r.objectTerms == t.objectTerms[(pid, "product_cat") := [Int(0)]]
  {
    var cats := CategoryList(categories);
    RunCategoriesOne(CatState(t, []), host, cats);
    NullCategoryRefused(t, host);
    AssignedIdsOfFalse();
  }

  /** The loop over a single category is one step. */
  lemma RunCategoriesOne(s: CatState, host: Host, cats: seq<Value>)
    requires |cats| == 1
    ensures RunCategories(s, host, cats, 1) == CategoryStep(s, host, cats[0])
  {
    assert RunCategories(s, host, cats, 0) == s;
  }

  /** The single category null is refused and collected as false. */
  lemma NullCategoryRefused(t: Tables, host: Host)
    ensures CategoryStep(CatState(t, []), host, Null) == CatState(t, [Bool(false)])
  {
    assert AddCategorySpec(t, host, SingleArgs(Null)) == (t, Bool(false));
  }

  /** false is assigned as the term id 0. */
  lemma AssignedIdsOfFalse()
    ensures AssignedIds([Bool(false)]) == [Int(0)]
  {
    assert Intvals([Bool(false)]) == [0];
    assert Dedup([0]) == [0];
  }
}
