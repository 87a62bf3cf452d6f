/** parse_args_r: the recursive merge of an argument array over a defaults
    array that add_product uses to complete its arguments. */
module ArgsMerge {
  import opened Wrappers
  import opened PhpValues

  /** `parse_args_r( $a, $b )`: both sides are cast to arrays, the result
      starts as the defaults b, and each override entry is stored in turn. */
  function ParseArgsR(a: Value, b: Value): (r: Value)
    ensures r.Arr?
  {
    Arr(Merge(ToArray(a), 0, ToArray(b)))
  }

  /** The loop of parse_args_r from the override at position i on, with r the
      result built so far: each override entry is stored under its key as
      Combine makes it. */
  function Merge(over: seq<Entry>, i: nat, r: seq<Entry>): seq<Entry>
    requires i <= |over|
    decreases Arr(over), |over| - i
  {
    if i == |over| then r
    else Merge(over, i + 1, Put(r, over[i].key, Combine(over[i].val, Find(r, over[i].key))))
  }

  /** The value an override ov is stored as, against dv, what the result
      holds for its key so far (None when it lacks the key): an array
      override over a set value is merged recursively into `(array) $r[$k]`;
      every other override replaces. */
  function Combine(ov: Value, dv: Option<Value>): Value
    decreases ov, if ov.Arr? then |ov.entries| + 1 else 0
  {
    if ov.Arr? && dv.Some? && dv.value != Null
    then Arr(Merge(ov.entries, 0, ToArray(dv.value)))
    else ov
  }

  lemma {:induction false} HasKeySuffix(over: seq<Entry>, i: nat, k: Key)
    requires i < |over|
    ensures HasKey(over[i..], k) <==> over[i].key == k || HasKey(over[i + 1..], k)
  {
    if HasKey(over[i..], k) && over[i].key != k {
      var j :| 0 <= j < |over[i..]| && over[i..][j].key == k;
      assert over[i + 1..][j - 1].key == k;
    }
    if HasKey(over[i + 1..], k) {
      var j :| 0 <= j < |over[i + 1..]| && over[i + 1..][j].key == k;
      assert over[i..][j + 1].key == k;
    }
    if over[i].key == k {
      assert over[i..][0].key == k;
    }
  }

  /** The keys of the result are exactly the override keys and the default keys. */
  lemma {:induction false} MergeKeys(over: seq<Entry>, i: nat, r: seq<Entry>, k: Key)
    requires i <= |over|
    ensures HasKey(Merge(over, i, r), k) <==> HasKey(over[i..], k) || HasKey(r, k)
    decreases |over| - i
  {
    if i < |over| {
      var e := over[i];
      var v := Combine(e.val, Find(r, e.key));
      MergeKeys(over, i + 1, Put(r, e.key, v), k);
      HasKeySuffix(over, i, k);
    }
  }

  /** The defaults keep their positions: the result starts with the default
      keys in their order, and new keys only follow them. */
  lemma {:induction false} MergeKeepsDefaultOrder(over: seq<Entry>, i: nat, r: seq<Entry>)
    requires i <= |over|
    ensures |Merge(over, i, r)| >= |r|
    ensures forall j :: 0 <= j < |r| ==> Merge(over, i, r)[j].key == r[j].key
    decreases |over| - i
  {
    if i < |over| {
      var e := over[i];
      var v := Combine(e.val, Find(r, e.key));
      MergeKeepsDefaultOrder(over, i + 1, Put(r, e.key, v));
    }
  }

  /** A key that no override from position i on mentions keeps the value it
      has in r. */
  lemma {:induction false} MergeKeepsDefault(over: seq<Entry>, i: nat, r: seq<Entry>, k: Key)
    requires i <= |over|
    requires !HasKey(over[i..], k)
    ensures Find(Merge(over, i, r), k) == Find(r, k)
    decreases |over| - i
  {
    if i < |over| {
      var e := over[i];
      var v := Combine(e.val, Find(r, e.key));
      HasKeySuffix(over, i, k);
      MergeKeepsDefault(over, i + 1, Put(r, e.key, v), k);
    }
  }

  lemma DistinctNotLater(over: seq<Entry>, i: nat)
    requires i < |over| && DistinctKeys(over)
    ensures !HasKey(over[i + 1..], over[i].key)
  {
    var later := over[i + 1..];
    forall m | 0 <= m < |later| ensures later[m].key != over[i].key {
      assert later[m] == over[i + 1 + m];
    }
  }

  /** The override at position j decides its key: its value wins, unless it
      is an array and the default is set, in which case the two are merged. */
  lemma {:induction false} MergeOverrideAt(over: seq<Entry>, i: nat, r: seq<Entry>, j: nat)
    requires i <= j < |over|
    requires DistinctKeys(over)
    ensures Find(Merge(over, i, r), over[j].key) == Some(Combine(over[j].val, Find(r, over[j].key)))
    decreases |over| - i
  {
    var k := over[i].key;
    var r' := Put(r, k, Combine(over[i].val, Find(r, k)));
    assert Merge(over, i, r) == Merge(over, i + 1, r');
    if i == j {
      DistinctNotLater(over, i);
      MergeKeepsDefault(over, i + 1, r', k);
    } else {
      assert k != over[j].key;
      MergeOverrideAt(over, i + 1, r', j);
    }
  }

  /** Starting from the defaults, the result has each key once whenever the
      defaults do. */
  lemma {:induction false} MergeDistinct(over: seq<Entry>, i: nat, r: seq<Entry>)
    requires i <= |over|
    requires DistinctKeys(r)
    ensures DistinctKeys(Merge(over, i, r))
    decreases |over| - i
  {
    if i < |over| {
      var e := over[i];
      var v := Combine(e.val, Find(r, e.key));
      MergeDistinct(over, i + 1, Put(r, e.key, v));
    }
  }

  /** Overrides whose keys are all new to the result are appended to it in
      their order; with no defaults the overrides come back as they are. */
  lemma {:induction false} MergeAppends(w: seq<Entry>, over: seq<Entry>, i: nat)
    requires i <= |over|
    requires DistinctKeys(over)
    requires forall m :: 0 <= m < |over| ==> !HasKey(w, over[m].key)
    ensures Merge(over, i, w + over[..i]) == w + over
    decreases |over| - i
  {
    if i < |over| {
      var e := over[i];
      var r := w + over[..i];
      forall m | 0 <= m < |r| ensures r[m].key != e.key {
        if m >= |w| { assert r[m] == over[m - |w|]; }
      }
      assert Put(r, e.key, e.val) == w + over[..i + 1];
      MergeAppends(w, over, i + 1);
    } else {
      assert over[..i] == over;
    }
  }

  /** The value `wp_parse_args( $args, $defaults )` holds under a string
      key: the argument's own value when it has the key, the default
      otherwise. Only array arguments are modelled; any other argument reads
      as empty. */
  function WpParseArg(args: Value, k: string, default: Value): (r: Value)
    ensures args.Arr? && HasKey(args.entries, StrKey(k)) ==> Find(args.entries, StrKey(k)) == Some(r)
    ensures !(args.Arr? && HasKey(args.entries, StrKey(k))) ==> r == default
  {
    if args.Arr? && HasKey(args.entries, StrKey(k)) then Find(args.entries, StrKey(k)).value else default
  }

  // ---------------------------------------------------------------------
  // The laws of parse_args_r
  // ---------------------------------------------------------------------

  /** The result's keys are exactly the union of the override keys and the default keys. */
  lemma ParseArgsKeys(a: Value, b: Value, k: Key)
    ensures HasKey(ParseArgsR(a, b).entries, k) <==> HasKey(ToArray(a), k) || HasKey(ToArray(b), k)
  {
    MergeKeys(ToArray(a), 0, ToArray(b), k);
    assert ToArray(a)[0..] == ToArray(a);
  }

  /** A key found only in the defaults keeps its default value. */
  lemma ParseArgsDefaultOnly(a: Value, b: Value, k: Key)
    requires !HasKey(ToArray(a), k)
    ensures Find(ParseArgsR(a, b).entries, k) == Find(ToArray(b), k)
  {
    assert ToArray(a)[0..] == ToArray(a);
    MergeKeepsDefault(ToArray(a), 0, ToArray(b), k);
  }

  /** An override value wins, unless it is an array and the default for its
      key is set, in which case the two are merged recursively. */
  lemma ParseArgsOverride(a: Value, b: Value, j: nat)
    requires j < |ToArray(a)| && DistinctKeys(ToArray(a))
    ensures var e := ToArray(a)[j];
            Find(ParseArgsR(a, b).entries, e.key) == Some(Combine(e.val, Find(ToArray(b), e.key)))
  {
    MergeOverrideAt(ToArray(a), 0, ToArray(b), j);
  }

  /** The defaults keep their order at the head of the result. */
  lemma ParseArgsDefaultOrder(a: Value, b: Value)
    ensures |ParseArgsR(a, b).entries| >= |ToArray(b)|
    ensures KeysOf(ParseArgsR(a, b).entries)[..|ToArray(b)|] == KeysOf(ToArray(b))
  {
    MergeKeepsDefaultOrder(ToArray(a), 0, ToArray(b));
  }

  /** A defaults array with distinct keys gives a result with distinct keys. */
  lemma ParseArgsDistinct(a: Value, b: Value)
    requires DistinctKeys(ToArray(b))
    ensures DistinctKeys(ParseArgsR(a, b).entries)
  {
    MergeDistinct(ToArray(a), 0, ToArray(b));
  }

  /** Empty overrides return the defaults unchanged. */
  lemma ParseArgsEmptyOverrides(b: seq<Entry>)
    ensures ParseArgsR(Arr([]), Arr(b)) == Arr(b)
    ensures ParseArgsR(Null, Arr(b)) == Arr(b)
  {
  }

  /** Empty defaults return the overrides. */
  lemma ParseArgsEmptyDefaults(a: seq<Entry>)
    requires DistinctKeys(a)
    ensures ParseArgsR(Arr(a), Arr([])) == Arr(a)
    ensures ParseArgsR(Arr(a), Null) == Arr(a)
  {
    MergeAppends([], a, 0);
    assert [] + a[..0] == [] && [] + a == a;
  }

  /** The `(array)` cast: an array override merged into a scalar default
      keeps that scalar under key 0, ahead of the override's own entries,
      which keep their values; e.g. overriding 'x' => 'str' with
      'x' => array( 'y' => 1 ) gives 'x' => array( 0 => 'str', 'y' => 1 ). */
  lemma ScalarDefaultIsWrapped(a: Value, b: Value, j: nat)
    requires j < |ToArray(a)| && DistinctKeys(ToArray(a))
    requires ToArray(a)[j].val.Arr?
    requires DistinctKeys(ToArray(a)[j].val.entries) && !HasKey(ToArray(a)[j].val.entries, IntKey(0))
    requires Find(ToArray(b), ToArray(a)[j].key).Some?
    requires var d := Find(ToArray(b), ToArray(a)[j].key).value; d != Null && !d.Arr?
    ensures var e := ToArray(a)[j];
            var d := Find(ToArray(b), e.key).value;
            Find(ParseArgsR(a, b).entries, e.key) == Some(Arr([Entry(IntKey(0), d)] + e.val.entries))
  {
    var e := ToArray(a)[j];
    var d := Find(ToArray(b), e.key).value;
    var o := e.val.entries;
    var w := [Entry(IntKey(0), d)];
    ParseArgsOverride(a, b, j);
    assert Combine(e.val, Some(d)) == Arr(Merge(o, 0, w));
    forall m | 0 <= m < |o| ensures !HasKey(w, o[m].key) {
      assert o[m].key != IntKey(0);
    }
    MergeAppends(w, o, 0);
    assert w + o[..0] == w;
  }
}
