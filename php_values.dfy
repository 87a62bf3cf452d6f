/** The PHP values the importer handles: null, booleans, integers, strings and
    ordered arrays, together with the PHP conversions the importer relies on
    (to bool, to string, intval, is_numeric, loose comparison with null and
    between strings), array access and array update. */
module PhpValues {
  import opened Wrappers

  /** An array key: PHP keys are integers or strings. */
  datatype Key = IntKey(i: int) | StrKey(s: string)

  /** A PHP value. An array is an ordered list of entries. */
  datatype Value =
    | Null
    | Bool(b: bool)
    | Int(i: int)
    | Str(s: string)
    | Arr(entries: seq<Entry>)

  datatype Entry = Entry(key: Key, val: Value)

  // ---------------------------------------------------------------------
  // Conversion to bool, empty(), and `== null`
  // ---------------------------------------------------------------------

  /** PHP's conversion to bool, as in `if ( $v )` and array_filter without a callback. */
  predicate Truthy(v: Value) {
    match v
    case Null => false
    case Bool(b) => b
    case Int(i) => i != 0
    case Str(s) => s != "" && s != "0"
    case Arr(es) => es != []
  }

  /** PHP's `empty( $v )`: true exactly when `$v` converts to false. */
  predicate Empty(v: Value) {
    !Truthy(v)
  }

  /** PHP's loose comparison `$v == null`: null, false, 0, '' and the empty
      array; unlike empty(), the string '0' is not loosely null. */
  predicate LooselyNull(v: Value) {
    match v
    case Null => true
    case Bool(b) => !b
    case Int(i) => i == 0
    case Str(s) => s == ""
    case Arr(es) => es == []
  }

  lemma LooselyNullIsEmptyButZeroString(v: Value)
    ensures LooselyNull(v) <==> Empty(v) && v != Str("0")
  {
  }

  // ---------------------------------------------------------------------
  // Arrays: lookup and update
  // ---------------------------------------------------------------------

  predicate HasKey(es: seq<Entry>, k: Key) {
    exists i :: 0 <= i < |es| && es[i].key == k
  }

  /** No key occurs twice: every PHP array has this shape. */
  predicate DistinctKeys(es: seq<Entry>) {
    forall i, j :: 0 <= i < j < |es| ==> es[i].key != es[j].key
  }

  /** The position of the first entry whose key is k. */
  function IndexOf(es: seq<Entry>, k: Key): (r: nat)
    requires HasKey(es, k)
    ensures r < |es| && es[r].key == k
    ensures forall j :: 0 <= j < r ==> es[j].key != k
  {
    if es[0].key == k then 0
    else
      assert HasKey(es[1..], k) by {
        var i :| 0 <= i < |es| && es[i].key == k;
        assert es[1..][i - 1].key == k;
      }
      1 + IndexOf(es[1..], k)
  }

  /** `$a[$k]` when the key may be missing. */
  function Find(es: seq<Entry>, k: Key): (r: Option<Value>)
    ensures r.Some? <==> HasKey(es, k)
  {
    if HasKey(es, k) then Some(es[IndexOf(es, k)].val) else None
  }

  /** `$a[$k] = $v`: an existing key keeps its position, a new key goes last. */
  function Put(es: seq<Entry>, k: Key, v: Value): (r: seq<Entry>)
    ensures Find(r, k) == Some(v)
    ensures forall k' :: k' != k ==> Find(r, k') == Find(es, k')
    ensures forall k' :: HasKey(r, k') <==> HasKey(es, k') || k' == k
    ensures |r| == if HasKey(es, k) then |es| else |es| + 1
    ensures forall i :: 0 <= i < |es| ==> r[i].key == es[i].key
    ensures DistinctKeys(es) ==> DistinctKeys(r)
  {
    if HasKey(es, k) then
      PutInPlace(es, k, v);
      es[IndexOf(es, k) := Entry(k, v)]
    else
      PutAtEnd(es, k, v);
      es + [Entry(k, v)]
  }

  /** Storing under a present key replaces its entry and keeps every other
      lookup. */
  lemma PutInPlace(es: seq<Entry>, k: Key, v: Value)
    requires HasKey(es, k)
    ensures var r := es[IndexOf(es, k) := Entry(k, v)];
            && Find(r, k) == Some(v)
            && (forall k' :: k' != k ==> Find(r, k') == Find(es, k'))
            && (forall k' :: HasKey(r, k') <==> HasKey(es, k'))
            && (DistinctKeys(es) ==> DistinctKeys(r))
  {
    var i := IndexOf(es, k);
    var r := es[i := Entry(k, v)];
    assert r[i].key == k;
    forall k' | HasKey(es, k') ensures HasKey(r, k') {
      var j :| 0 <= j < |es| && es[j].key == k';
      assert r[j].key == k';
    }
    forall k' | HasKey(r, k') ensures HasKey(es, k') {
      var j :| 0 <= j < |r| && r[j].key == k';
      assert es[j].key == k';
    }
    forall k' | k' != k && HasKey(r, k') ensures IndexOf(r, k') == IndexOf(es, k') {
      var a, b := IndexOf(r, k'), IndexOf(es, k');
      assert r[b].key == k';
      assert es[a].key == k';
    }
  }

  /** Storing under a new key appends an entry and keeps every other lookup. */
  lemma PutAtEnd(es: seq<Entry>, k: Key, v: Value)
    requires !HasKey(es, k)
    ensures var r := es + [Entry(k, v)];
            && Find(r, k) == Some(v)
            && (forall k' :: k' != k ==> Find(r, k') == Find(es, k'))
            && (forall k' :: HasKey(r, k') <==> HasKey(es, k') || k' == k)
            && (DistinctKeys(es) ==> DistinctKeys(r))
  {
    var r := es + [Entry(k, v)];
    assert r[|es|].key == k;
    forall k' | HasKey(r, k') ensures HasKey(es, k') || k' == k {
      var j :| 0 <= j < |r| && r[j].key == k';
      if j < |es| { assert es[j].key == k'; }
    }
    forall k' | HasKey(es, k') ensures HasKey(r, k') {
      var j :| 0 <= j < |es| && es[j].key == k';
      assert r[j].key == k';
    }
    forall k' | HasKey(es, k') ensures IndexOf(r, k') == IndexOf(es, k') {
      var a, b := IndexOf(r, k'), IndexOf(es, k');
      assert r[b].key == k';
      if a < |es| { assert es[a].key == k'; }
    }
    if DistinctKeys(es) {
      forall i, j | 0 <= i < j < |r| ensures r[i].key != r[j].key {
        if j == |es| {
          assert es[i].key != k;
        }
      }
    }
  }

  /** The key sequence of an array, in order. */
  function KeysOf(es: seq<Entry>): seq<Key> {
    seq(|es|, i requires 0 <= i < |es| => es[i].key)
  }

  /** `array_values( $a )`: the values in order. */
  function ValuesOf(es: seq<Entry>): seq<Value> {
    seq(|es|, i requires 0 <= i < |es| => es[i].val)
  }

  /** What `foreach ( $v as $x )` visits: the values of an array, and nothing
      for a non-array (PHP warns and skips the loop). */
  function Values(v: Value): seq<Value> {
    if v.Arr? then ValuesOf(v.entries) else []
  }

  /** A list `array( $x0, $x1, ... )` with the keys 0, 1, ... */
  function ListValue(xs: seq<Value>): (r: Value)
    ensures r.Arr? && Values(r) == xs
  {
    Arr(seq(|xs|, i requires 0 <= i < |xs| => Entry(IntKey(i), xs[i])))
  }

  /** `$v['k']` read inside empty() or isset(), or on a key that may be
      missing: null when `$v` is not an array or has no such key. */
  function Lookup(v: Value, k: string): Value {
    if v.Arr? then
      match Find(v.entries, StrKey(k))
      case Some(x) => x
      case None => Null
    else Null
  }

  /** PHP's `isset( $a[$k] )`: the key is present and its value is not null. */
  predicate IsSet(es: seq<Entry>, k: Key) {
    Find(es, k).Some? && Find(es, k).value != Null
  }

  /** PHP's `(array) $v`: null becomes the empty array, an array stays as it
      is, and any other value becomes the one-element list `array( $v )`. */
  function ToArray(v: Value): seq<Entry> {
    match v
    case Null => []
    case Arr(es) => es
    case _ => [Entry(IntKey(0), v)]
  }

  // ---------------------------------------------------------------------
  // Numbers and strings
  // ---------------------------------------------------------------------

  predicate IsDigit(c: char) {
    '0' <= c <= '9'
  }

  predicate AllDigits(s: string) {
    forall i :: 0 <= i < |s| ==> IsDigit(s[i])
  }

  /** The white space that is_numeric and intval skip before a number. */
  predicate IsSpace(c: char) {
    c == ' ' || c == '\t' || c == '\n' || c == '\r' || c as int == 11 || c as int == 12
  }

  function DigitChar(d: nat): (c: char)
    requires d < 10
    ensures IsDigit(c) && c as int - '0' as int == d
  {
    (d + '0' as int) as char
  }

  /** The decimal notation of a natural number, as PHP prints integers. */
  function NatToString(n: nat): (s: string)
    ensures |s| > 0 && AllDigits(s)
    decreases n
  {
    if n < 10 then [DigitChar(n)] else NatToString(n / 10) + [DigitChar(n % 10)]
  }

  function IntToString(i: int): string {
    if i < 0 then "-" + NatToString(-i) else NatToString(i)
  }

  /** The number a string of decimal digits denotes. */
  function DigitsValue(s: string): nat
    requires AllDigits(s)
    decreases |s|
  {
    if s == [] then 0 else 10 * DigitsValue(s[..|s| - 1]) + (s[|s| - 1] as int - '0' as int)
  }

  /** The longest prefix of s made of digits. */
  function LeadingDigits(s: string): (d: string)
    ensures AllDigits(d) && d <= s
    ensures AllDigits(s) ==> d == s
  {
    if s != [] && IsDigit(s[0]) then [s[0]] + LeadingDigits(s[1..]) else []
  }

  /** s without its leading white space. */
  function SkipSpace(s: string): (t: string)
    ensures |t| <= |s| && t == s[|s| - |t|..]
    ensures forall i :: 0 <= i < |s| - |t| ==> IsSpace(s[i])
    ensures t != [] ==> !IsSpace(t[0])
  {
    if s != [] && IsSpace(s[0]) then SkipSpace(s[1..]) else s
  }

  /** s without its sign, if it has one. */
  function Unsigned(t: string): string {
    if t != [] && (t[0] == '-' || t[0] == '+') then t[1..] else t
  }

  /** is_numeric on a string, for integer notation: optional white space,
      an optional sign, then at least one digit and nothing else. */
  predicate IsNumericString(s: string) {
    var u := Unsigned(SkipSpace(s));
    u != [] && AllDigits(u)
  }

  /** intval on a string: optional white space, an optional sign, then the
      longest run of digits; 0 when there is none. */
  function ParseInt(s: string): int {
    var t := SkipSpace(s);
    var n: int := DigitsValue(LeadingDigits(Unsigned(t)));
    if t != [] && t[0] == '-' then -n else n
  }

  /** PHP's is_numeric. */
  predicate IsNumeric(v: Value) {
    match v
    case Int(_) => true
    case Str(s) => IsNumericString(s)
    case _ => false
  }

  /** PHP's intval. */
  function Intval(v: Value): int {
    match v
    case Null => 0
    case Bool(b) => if b then 1 else 0
    case Int(i) => i
    case Str(s) => ParseInt(s)
    case Arr(es) => if es == [] then 0 else 1
  }

  /** PHP's conversion to string. */
  function ToStr(v: Value): string {
    match v
    case Null => ""
    case Bool(b) => if b then "1" else ""
    case Int(i) => IntToString(i)
    case Str(s) => s
    case Arr(_) => "Array"
  }

  /** The name a key gets as a post-meta key. */
  function KeyName(k: Key): string {
    match k
    case IntKey(i) => IntToString(i)
    case StrKey(s) => s
  }

  /** PHP's `$a == $b` between two strings: two numeric strings compare as
      numbers, any other pair compares as text. */
  predicate LooseEqStr(a: string, b: string) {
    if IsNumericString(a) && IsNumericString(b) then ParseInt(a) == ParseInt(b) else a == b
  }

  lemma {:induction false} DigitsValueOfNatToString(n: nat)
    ensures DigitsValue(NatToString(n)) == n
    decreases n
  {
    var s := NatToString(n);
    if n >= 10 {
      DigitsValueOfNatToString(n / 10);
      assert s[..|s| - 1] == NatToString(n / 10);
    }
  }

  /** The decimal notation of a post or term id reads back as that id:
      is_numeric holds of it and intval returns the id. */
  lemma NatToStringRoundTrip(n: nat)
    ensures IsNumericString(NatToString(n))
    ensures Intval(Str(NatToString(n))) == n
  {
    var s := NatToString(n);
    assert !IsSpace(s[0]) && s[0] != '-' && s[0] != '+';
    assert SkipSpace(s) == s;
    assert Unsigned(s) == s;
    DigitsValueOfNatToString(n);
  }

  /** Only white space, signs and digits occur in a numeric string. */
  lemma NumericStringChars(s: string, i: nat)
    requires IsNumericString(s) && i < |s|
    ensures IsSpace(s[i]) || s[i] == '-' || s[i] == '+' || IsDigit(s[i])
  {
    var t := SkipSpace(s);
    var k := |s| - |t|;
    if i >= k {
      assert s[i] == t[i - k];
      if t != [] && (t[0] == '-' || t[0] == '+') && i > k {
        assert t[i - k] == Unsigned(t)[i - k - 1];
      }
    }
  }

  /** A string with an underscore in it is never numeric. */
  lemma UnderscoreNotNumeric(s: string, i: nat)
    requires i < |s| && s[i] == '_'
    ensures !IsNumericString(s)
  {
    if IsNumericString(s) {
      NumericStringChars(s, i);
    }
  }

  // ---------------------------------------------------------------------
  // String helpers used by the importer
  // ---------------------------------------------------------------------

  /** implode( sep, parts ). */
  function Implode(sep: string, parts: seq<string>): string
    decreases |parts|
  {
    if parts == [] then ""
    else if |parts| == 1 then parts[0]
    else parts[0] + sep + Implode(sep, parts[1..])
  }

  /** The characters trim() removes. */
  predicate IsTrimmed(c: char) {
    c == ' ' || c == '\t' || c == '\n' || c == '\r' || c == '\0' || c as int == 11
  }

  function TrimLeft(s: string): string {
    if s != [] && IsTrimmed(s[0]) then TrimLeft(s[1..]) else s
  }

  function TrimRight(s: string): string {
    if s != [] && IsTrimmed(s[|s| - 1]) then TrimRight(s[..|s| - 1]) else s
  }

  /** PHP's trim() with its default character list. */
  function Trim(s: string): string {
    TrimRight(TrimLeft(s))
  }
}
