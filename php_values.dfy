/** The part of PHP's runtime the generator relies on: values as json_decode
    produces them, arrays as ordered maps, truthiness, conversion to string,
    and the array functions the core calls (assignment by key, array_merge,
    array_intersect_key, unset, implode, array_slice). */
module PhpValues {

  datatype Option<+T> = None | Some(value: T)

  datatype Result<+T, +E> = Ok(value: T) | Err(error: E)

  /** How a PHP call ends: with a value, with an \Exception that a
      `catch (\Exception $e)` handler stops, or with an \Error (a TypeError)
      that passes through every such handler. */
  datatype Outcome<+T> = Returned(value: T) | Threw(message: string) | Fatal(message: string)

  /** A PHP value as json_decode(…, true) produces it; floats are not modelled.
      An array is an ordered map. Its integer keys are kept as their decimal
      strings, the form in which PHP identifies the key "0" with the key 0. */
  datatype Value =
    | Null
    | Bool(b: bool)
    | Int(i: int)
    | Str(s: string)
    | Arr(entries: seq<(string, Value)>)

  /** The entries of one PHP array, in order. */
  type Fields = seq<(string, Value)>

  /** The library functions the model leaves uninterpreted: json_decode
      (with `true`; invalid JSON gives Null), json_encode and md5. */
  datatype Builtins = Builtins(jsonDecode: string -> Value, jsonEncode: Value -> string, md5: string -> string)

  /** json_decode never yields an array with a repeated key. */
  ghost predicate DecodesToMaps(php: Builtins) {
    forall t :: php.jsonDecode(t).Arr? ==> DistinctKeys(php.jsonDecode(t).entries)
  }

  function Min(a: int, b: int): int {
    if a <= b then a else b
  }

  // ---------------------------------------------------------------------
  // Scalars

  function DigitChar(d: nat): char
    requires d < 10
  {
    "0123456789"[d]
  }

  function NatToString(n: nat): string
    decreases n
  {
    if n < 10 then [DigitChar(n)] else NatToString(n / 10) + [DigitChar(n % 10)]
  }

  /** Decimal rendering of an integer, as string interpolation gives it. */
  function IntToString(i: int): string {
    if i < 0 then "-" + NatToString(-i) else NatToString(i)
  }

  /** PHP's truthiness: what `if ($v)` tests. */
  predicate Truthy(v: Value) {
    match v
    case Null => false
    case Bool(b) => b
    case Int(i) => i != 0
    case Str(s) => s != "" && s != "0"
    case Arr(e) => e != []
  }

  /** PHP's conversion to string, as interpolation, implode and fputcsv
      perform it; an array becomes "Array" (with a notice). */
  function Text(v: Value): string {
    match v
    case Null => ""
    case Bool(b) => if b then "1" else ""
    case Int(i) => IntToString(i)
    case Str(s) => s
    case Arr(_) => "Array"
  }

  function Texts(vs: seq<Value>): (ts: seq<string>)
    ensures |ts| == |vs| && forall i :: 0 <= i < |vs| ==> ts[i] == Text(vs[i])
  {
    seq(|vs|, i requires 0 <= i < |vs| => Text(vs[i]))
  }

  // ---------------------------------------------------------------------
  // implode and array_slice

  /** implode($sep, $parts). */
  function Implode(sep: string, parts: seq<string>): string
    decreases |parts|
  {
    if |parts| == 0 then ""
    else if |parts| == 1 then parts[0]
    else Implode(sep, parts[..|parts| - 1]) + sep + parts[|parts| - 1]
  }

  lemma ImplodeSnoc(sep: string, parts: seq<string>, p: string)
    ensures Implode(sep, parts + [p]) == if parts == [] then p else Implode(sep, parts) + sep + p
  {
    assert (parts + [p])[..|parts|] == parts;
  }

  /** implode($sep, $parts) starts with the first part. */
  lemma {:induction false} ImplodeStartsWithFirst(sep: string, parts: seq<string>)
    requires parts != []
    ensures |parts[0]| <= |Implode(sep, parts)|
    ensures Implode(sep, parts)[..|parts[0]|] == parts[0]
  {
    if |parts| > 1 {
      var init := parts[..|parts| - 1];
      ImplodeStartsWithFirst(sep, init);
      var s := Implode(sep, init);
      assert Implode(sep, parts) == s + sep + parts[|parts| - 1];
      assert (s + sep + parts[|parts| - 1])[..|parts[0]|] == s[..|parts[0]|];
    }
  }

  /** array_slice($s, -$n) for $n > 0: the last $n elements, or all of them. */
  function LastN<T>(s: seq<T>, n: nat): (r: seq<T>)
    requires n > 0
    ensures |r| == if |s| < n then |s| else n
    ensures forall i :: 0 <= i < |r| ==> r[i] == s[|s| - |r| + i]
  {
    if |s| <= n then s else s[|s| - n..]
  }

  /** A PHP list: keys "0", "1", … in order. */
  function ListValue(items: seq<Value>): Value {
    Arr(seq(|items|, i requires 0 <= i < |items| => (IntToString(i), items[i])))
  }

  // ---------------------------------------------------------------------
  // Arrays as ordered maps

  function Keys(f: Fields): (ks: seq<string>)
    ensures |ks| == |f| && forall i :: 0 <= i < |f| ==> ks[i] == f[i].0
  {
    seq(|f|, i requires 0 <= i < |f| => f[i].0)
  }

  function Values(f: Fields): (vs: seq<Value>)
    ensures |vs| == |f| && forall i :: 0 <= i < |f| ==> vs[i] == f[i].1
  {
    seq(|f|, i requires 0 <= i < |f| => f[i].1)
  }

  predicate Distinct(ks: seq<string>) {
    forall i, j :: 0 <= i < j < |ks| ==> ks[i] != ks[j]
  }

  /** Every PHP array has distinct keys. */
  predicate DistinctKeys(f: Fields) {
    Distinct(Keys(f))
  }

  /** $f[$k] ?? null, with None for a missing key. */
  function Lookup(f: Fields, k: string): Option<Value>
    decreases |f|
  {
    if f == [] then None else if f[0].0 == k then Some(f[0].1) else Lookup(f[1..], k)
  }

  /** `$f[$k] = $v`: replaces the value of an existing key in place, or
      appends the key at the end. */
  function Assign(f: Fields, k: string, v: Value): Fields
    decreases |f|
  {
    if f == [] then [(k, v)]
    else if f[0].0 == k then [(k, v)] + f[1..]
    else [f[0]] + Assign(f[1..], k, v)
  }

  /** `foreach ($g as $k => $v) { $f[$k] = $v; }`, which is also what
      array_merge($f, $g) does when no key is an integer. */
  function AssignAll(f: Fields, g: Fields): Fields
    decreases |g|
  {
    if g == [] then f
    else
      var last := g[|g| - 1];
      Assign(AssignAll(f, g[..|g| - 1]), last.0, last.1)
  }

  /** array_intersect_key($f, $p): the entries of $f whose key $p has, in
      the order of $f. */
  function Intersect(f: Fields, p: Fields): Fields
    decreases |f|
  {
    if f == [] then []
    else (if f[0].0 in Keys(p) then [f[0]] else []) + Intersect(f[1..], p)
  }

  /** unset($f[$k]). */
  function Without(f: Fields, k: string): Fields
    decreases |f|
  {
    if f == [] then []
    else (if f[0].0 == k then [] else [f[0]]) + Without(f[1..], k)
  }

  // ---------------------------------------------------------------------
  // What the array functions do to keys and values

  lemma KeysCons(e: (string, Value), f: Fields)
    ensures Keys([e] + f) == [e.0] + Keys(f)
  {
  }

  lemma KeysSnoc(f: Fields, e: (string, Value))
    ensures Keys(f + [e]) == Keys(f) + [e.0]
  {
  }

  lemma {:induction false} LookupFound(f: Fields, k: string)
    ensures Lookup(f, k).Some? <==> k in Keys(f)
  {
    if f != [] {
      LookupFound(f[1..], k);
      KeysCons(f[0], f[1..]);
      assert f == [f[0]] + f[1..];
    }
  }

  lemma {:induction false} LookupSnoc(f: Fields, e: (string, Value), k: string)
    ensures Lookup(f + [e], k) == if k in Keys(f) then Lookup(f, k) else if k == e.0 then Some(e.1) else None
  {
    LookupFound(f, k);
    if f != [] {
      assert (f + [e])[1..] == f[1..] + [e];
      LookupSnoc(f[1..], e, k);
      KeysCons(f[0], f[1..]);
      assert f == [f[0]] + f[1..];
    }
  }

  lemma {:induction false} LookupAssign(f: Fields, k: string, v: Value, k': string)
    ensures Lookup(Assign(f, k, v), k') == if k' == k then Some(v) else Lookup(f, k')
  {
    if f != [] && f[0].0 != k {
      LookupAssign(f[1..], k, v, k');
    }
  }

  lemma {:induction false} KeysAssign(f: Fields, k: string, v: Value)
    ensures Keys(Assign(f, k, v)) == if k in Keys(f) then Keys(f) else Keys(f) + [k]
  {
    if f != [] {
      KeysCons(f[0], f[1..]);
      assert f == [f[0]] + f[1..];
      if f[0].0 == k {
        KeysCons((k, v), f[1..]);
      } else {
        KeysAssign(f[1..], k, v);
        KeysCons(f[0], Assign(f[1..], k, v));
      }
    }
  }

  /** Assigning a key the array does not have appends it. */
  lemma {:induction false} AssignFresh(f: Fields, k: string, v: Value)
    requires k !in Keys(f)
    ensures Assign(f, k, v) == f + [(k, v)]
  {
    if f != [] {
      KeysCons(f[0], f[1..]);
      assert f == [f[0]] + f[1..];
      AssignFresh(f[1..], k, v);
    }
  }

  /** The keys after a run of assignments: the old keys first, in their
      order, then the new ones. */
  lemma {:induction false} AssignAllKeys(f: Fields, g: Fields)
    ensures forall k :: k in Keys(AssignAll(f, g)) <==> k in Keys(f) || k in Keys(g)
    ensures |AssignAll(f, g)| >= |f| && Keys(AssignAll(f, g))[..|f|] == Keys(f)
  {
    if g != [] {
      var init, last := g[..|g| - 1], g[|g| - 1];
      AssignAllKeys(f, init);
      var h := AssignAll(f, init);
      KeysAssign(h, last.0, last.1);
      assert g == init + [last];
      KeysSnoc(init, last);
      assert Keys(AssignAll(f, g))[..|h|] == Keys(h);
      assert Keys(AssignAll(f, g))[..|f|] == Keys(h)[..|f|];
    }
  }

  lemma DistinctSnoc(ks: seq<string>, k: string)
    requires Distinct(ks) && k !in ks
    ensures Distinct(ks + [k])
  {
  }

  /** An assignment never repeats a key. */
  lemma AssignDistinct(f: Fields, k: string, v: Value)
    requires DistinctKeys(f)
    ensures DistinctKeys(Assign(f, k, v))
  {
    KeysAssign(f, k, v);
    if k !in Keys(f) {
      DistinctSnoc(Keys(f), k);
    }
  }

  /** Nor does a run of them. */
  lemma {:induction false} AssignAllDistinct(f: Fields, g: Fields)
    requires DistinctKeys(f)
    ensures DistinctKeys(AssignAll(f, g))
  {
    if g != [] {
      AssignAllDistinct(f, g[..|g| - 1]);
      AssignDistinct(AssignAll(f, g[..|g| - 1]), g[|g| - 1].0, g[|g| - 1].1);
    }
  }

  /** After a run of assignments a key holds the value last assigned to
      it, or its old value if it was not assigned. */
  lemma {:induction false} LookupAssignAll(f: Fields, g: Fields, k: string)
    requires DistinctKeys(g)
    ensures Lookup(AssignAll(f, g), k) == if k in Keys(g) then Lookup(g, k) else Lookup(f, k)
  {
    if g != [] {
      var init, last := g[..|g| - 1], g[|g| - 1];
      assert g == init + [last];
      KeysSnoc(init, last);
      assert DistinctKeys(init);
      LookupAssignAll(f, init, k);
      LookupAssign(AssignAll(f, init), last.0, last.1, k);
      LookupSnoc(init, last, k);
    }
  }

  /** Assigning keys the array does not have appends them in order. */
  lemma {:induction false} AssignAllFresh(f: Fields, g: Fields)
    requires DistinctKeys(g)
    requires forall k :: k in Keys(g) ==> k !in Keys(f)
    ensures AssignAll(f, g) == f + g
  {
    if g != [] {
      var init, last := g[..|g| - 1], g[|g| - 1];
      assert g == init + [last];
      KeysSnoc(init, last);
      assert DistinctKeys(init);
      AssignAllFresh(f, init);
      assert last.0 !in Keys(f + init) by {
        forall i | 0 <= i < |f + init| ensures (f + init)[i].0 != last.0 {
          if i < |f| {
            assert last.0 in Keys(g);
          } else {
            assert (f + init)[i] == g[i - |f|];
          }
        }
      }
      AssignFresh(f + init, last.0, last.1);
    }
  }

  /** In an array with unique keys, the key at a position finds the value
      at that position. */
  lemma {:induction false} LookupAt(f: Fields, m: nat)
    requires DistinctKeys(f) && m < |f|
    ensures Lookup(f, f[m].0) == Some(f[m].1)
  {
    if m > 0 {
      assert Keys(f)[0] != Keys(f)[m];
      assert DistinctKeys(f[1..]) by {
        assert Keys(f[1..]) == Keys(f)[1..];
      }
      LookupAt(f[1..], m - 1);
    }
  }

  lemma DistinctCons(k: string, ks: seq<string>)
    ensures Distinct([k] + ks) <==> k !in ks && Distinct(ks)
  {
    if k !in ks && Distinct(ks) {
      forall i, j | 0 <= i < j < |[k] + ks| ensures ([k] + ks)[i] != ([k] + ks)[j] {
        if i == 0 {
          assert ([k] + ks)[j] == ks[j - 1];
        } else {
          assert ([k] + ks)[i] == ks[i - 1] && ([k] + ks)[j] == ks[j - 1];
        }
      }
    }
    if Distinct([k] + ks) {
      forall i, j | 0 <= i < j < |ks| ensures ks[i] != ks[j] {
        assert ks[i] == ([k] + ks)[i + 1] && ks[j] == ([k] + ks)[j + 1];
      }
      forall j | 0 <= j < |ks| ensures ks[j] != k {
        assert ks[j] == ([k] + ks)[j + 1] && k == ([k] + ks)[0];
      }
    }
  }

  lemma {:induction false} IntersectKeys(f: Fields, p: Fields)
    ensures forall k :: k in Keys(Intersect(f, p)) <==> k in Keys(f) && k in Keys(p)
  {
    if f != [] {
      IntersectKeys(f[1..], p);
      KeysCons(f[0], f[1..]);
      assert f == [f[0]] + f[1..];
      if f[0].0 in Keys(p) {
        KeysCons(f[0], Intersect(f[1..], p));
      } else {
        assert Intersect(f, p) == Intersect(f[1..], p);
      }
    }
  }

  lemma {:induction false} IntersectLookup(f: Fields, p: Fields, k: string)
    requires k in Keys(p)
    ensures Lookup(Intersect(f, p), k) == Lookup(f, k)
  {
    if f != [] {
      IntersectLookup(f[1..], p, k);
      if f[0].0 !in Keys(p) {
        assert Intersect(f, p) == Intersect(f[1..], p);
      }
    }
  }

  lemma {:induction false} IntersectDistinct(f: Fields, p: Fields)
    requires DistinctKeys(f)
    ensures DistinctKeys(Intersect(f, p))
  {
    if f != [] {
      KeysCons(f[0], f[1..]);
      assert f == [f[0]] + f[1..];
      DistinctCons(f[0].0, Keys(f[1..]));
      IntersectDistinct(f[1..], p);
      if f[0].0 in Keys(p) {
        IntersectKeys(f[1..], p);
        KeysCons(f[0], Intersect(f[1..], p));
        DistinctCons(f[0].0, Keys(Intersect(f[1..], p)));
      } else {
        assert Intersect(f, p) == Intersect(f[1..], p);
      }
    }
  }

  lemma {:induction false} WithoutKeys(f: Fields, k: string)
    ensures forall k' :: k' in Keys(Without(f, k)) <==> k' in Keys(f) && k' != k
  {
    if f != [] {
      WithoutKeys(f[1..], k);
      KeysCons(f[0], f[1..]);
      assert f == [f[0]] + f[1..];
      if f[0].0 != k {
        KeysCons(f[0], Without(f[1..], k));
      } else {
        assert Without(f, k) == Without(f[1..], k);
      }
    }
  }

  lemma {:induction false} WithoutLookup(f: Fields, k: string, k': string)
    requires k' != k
    ensures Lookup(Without(f, k), k') == Lookup(f, k')
  {
    if f != [] {
      WithoutLookup(f[1..], k, k');
      if f[0].0 == k {
        assert Without(f, k) == Without(f[1..], k);
      }
    }
  }

  lemma {:induction false} WithoutDistinct(f: Fields, k: string)
    requires DistinctKeys(f)
    ensures DistinctKeys(Without(f, k))
  {
    if f != [] {
      KeysCons(f[0], f[1..]);
      assert f == [f[0]] + f[1..];
      DistinctCons(f[0].0, Keys(f[1..]));
      WithoutDistinct(f[1..], k);
      if f[0].0 != k {
        WithoutKeys(f[1..], k);
        KeysCons(f[0], Without(f[1..], k));
        DistinctCons(f[0].0, Keys(Without(f[1..], k)));
      } else {
        assert Without(f, k) == Without(f[1..], k);
      }
    }
  }

  lemma {:induction false} DistinctCard(ks: seq<string>)
    requires Distinct(ks)
    ensures |set k | k in ks| == |ks|
  {
    if ks != [] {
      DistinctCard(ks[1..]);
      assert (set k | k in ks) == {ks[0]} + (set k | k in ks[1..]);
    }
  }

  /** With distinct keys on both sides, array_intersect_key keeps as many
      entries as $p has exactly when $f has every key of $p. */
  lemma IntersectComplete(f: Fields, p: Fields)
    requires DistinctKeys(f) && DistinctKeys(p)
    ensures |Intersect(f, p)| == |p| <==> forall k :: k in Keys(p) ==> k in Keys(f)
  {
    var i := Intersect(f, p);
    IntersectKeys(f, p);
    IntersectDistinct(f, p);
    var a := set k | k in Keys(i);
    var b := set k | k in Keys(p);
    DistinctCard(Keys(i));
    DistinctCard(Keys(p));
    assert a <= b;
    if forall k :: k in Keys(p) ==> k in Keys(f) {
      assert a == b;
    } else {
      var k :| k in Keys(p) && k !in Keys(f);
      assert k in b - a;
      assert b == a + (b - a);
      assert |b| == |a| + |b - a|;
    }
  }
}
