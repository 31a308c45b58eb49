/** Ordered association lists: the model of a PHP array used as a dictionary. A PHP array
    keeps its keys in insertion order; assigning to a key that is already present replaces
    the value in place, assigning to a new key appends it. */
module Assoc {
  import opened Wrappers

  /** PHP array keys used here are always strings. */
  type Table<V> = seq<(string, V)>

  function Keys<V>(t: Table<V>): (ks: seq<string>)
    ensures |ks| == |t|
    ensures forall i :: 0 <= i < |t| ==> ks[i] == t[i].0
  {
    if t == [] then [] else [t[0].0] + Keys(t[1..])
  }

  predicate NoDuplicates(ks: seq<string>) {
    forall i, j :: 0 <= i < j < |ks| ==> ks[i] != ks[j]
  }

  /** No key occurs twice: what every PHP array guarantees. */
  predicate Distinct<V>(t: Table<V>) {
    NoDuplicates(Keys(t))
  }

  /** `$t[$k]` when `array_key_exists($k, $t)`, else None. */
  function Get<V>(t: Table<V>, k: string): (r: Option<V>)
    ensures r.Some? <==> k in Keys(t)
    ensures r.Some? ==> (k, r.value) in t
    ensures forall i :: 0 <= i < |t| && t[i].0 == k && Distinct(t) ==> r == Some(t[i].1)
  {
    if t == [] then None
    else if t[0].0 == k then Some(t[0].1)
    else
      var r := Get(t[1..], k);
      assert Keys(t) == [t[0].0] + Keys(t[1..]);
      assert forall i :: 1 <= i < |t| ==> t[i] == t[1..][i - 1];
      assert Distinct(t) ==> Distinct(t[1..]) by {
        if Distinct(t) {
          forall i, j | 0 <= i < j < |t| - 1 ensures Keys(t[1..])[i] != Keys(t[1..])[j] {
            assert Keys(t)[i + 1] != Keys(t)[j + 1];
          }
        }
      }
      r
  }

  /** `$t[$k] = $v`: the value under `k` becomes `v`; every other key keeps its value; the
      key order is unchanged, or `k` is appended when it was new. */
  function Put<V>(t: Table<V>, k: string, v: V): (r: Table<V>)
    ensures Keys(r) == if k in Keys(t) then Keys(t) else Keys(t) + [k]
    ensures Get(r, k) == Some(v)
    ensures forall k' :: k' != k ==> Get(r, k') == Get(t, k')
  {
    if t == [] then [(k, v)]
    else if t[0].0 == k then
      PutHead(t, k, v);
      [(k, v)] + t[1..]
    else
      var q := Put(t[1..], k, v);
      PutCons(t, q, k, v);
      [t[0]] + q
  }

  /** Writing the key at the head of the table replaces the head. */
  lemma PutHead<V>(t: Table<V>, k: string, v: V)
    requires t != [] && t[0].0 == k
    ensures var r := [(k, v)] + t[1..];
      Keys(r) == Keys(t) && Get(r, k) == Some(v) && forall k' :: k' != k ==> Get(r, k') == Get(t, k')
  {
    var r := [(k, v)] + t[1..];
    assert Keys(t) == [k] + Keys(t[1..]);
    assert r[1..] == t[1..];
    assert Keys(r) == [k] + Keys(t[1..]);
  }

  /** Writing a key past the head keeps the head and writes the tail. */
  lemma PutCons<V>(t: Table<V>, q: Table<V>, k: string, v: V)
    requires t != [] && t[0].0 != k
    requires Keys(q) == if k in Keys(t[1..]) then Keys(t[1..]) else Keys(t[1..]) + [k]
    requires Get(q, k) == Some(v)
    requires forall k' :: k' != k ==> Get(q, k') == Get(t[1..], k')
    ensures var r := [t[0]] + q;
      Keys(r) == (if k in Keys(t) then Keys(t) else Keys(t) + [k]) &&
      Get(r, k) == Some(v) && forall k' :: k' != k ==> Get(r, k') == Get(t, k')
  {
    var r := [t[0]] + q;
    assert r[1..] == q;
    assert Keys(t) == [t[0].0] + Keys(t[1..]);
    assert Keys(r) == [t[0].0] + Keys(q);
    assert k in Keys(t) <==> k in Keys(t[1..]);
  }

  /** Writing a key keeps the keys distinct. */
  lemma PutDistinct<V>(t: Table<V>, k: string, v: V)
    requires Distinct(t)
    ensures Distinct(Put(t, k, v))
  {
    var ks := Keys(t);
    if k !in ks {
      forall i, j | 0 <= i < j < |ks| + 1 ensures (ks + [k])[i] != (ks + [k])[j] {
        if j == |ks| { assert ks[i] in ks; }
      }
    }
  }

  /** Two tables with the same key order, distinct keys and the same lookups are equal. */
  lemma TableExtensionality<V>(a: Table<V>, b: Table<V>)
    requires Keys(a) == Keys(b) && Distinct(a)
    requires forall k :: k in Keys(a) ==> Get(a, k) == Get(b, k)
    ensures a == b
  {
    forall i | 0 <= i < |a| ensures a[i] == b[i] {
      assert Keys(a)[i] == a[i].0 && Keys(b)[i] == b[i].0;
      assert Get(a, a[i].0) == Some(a[i].1);
      assert Get(b, b[i].0) == Some(b[i].1);
    }
  }

  /** Keys of pairwise different entries are distinct. */
  lemma DistinctByEntries<V>(t: Table<V>)
    requires forall i, j :: 0 <= i < j < |t| ==> t[i].0 != t[j].0
    ensures Distinct(t)
  {
    var ks := Keys(t);
    assert forall i :: 0 <= i < |t| ==> ks[i] == t[i].0;
  }

  /** A table with distinct keys stays distinct without its first entry, which no later
      entry repeats. */
  lemma DistinctCons<V>(t: Table<V>)
    requires t != []
    ensures Distinct(t) <==> t[0].0 !in Keys(t[1..]) && Distinct(t[1..])
  {
    assert Keys(t) == [t[0].0] + Keys(t[1..]);
    if t[0].0 !in Keys(t[1..]) && Distinct(t[1..]) {
      forall i, j | 0 <= i < j < |t| ensures Keys(t)[i] != Keys(t)[j] {
        if i == 0 { assert Keys(t)[j] == Keys(t[1..])[j - 1]; }
        else { assert Keys(t[1..])[i - 1] != Keys(t[1..])[j - 1]; }
      }
    }
    if Distinct(t) {
      forall i, j | 0 <= i < j < |t| - 1 ensures Keys(t[1..])[i] != Keys(t[1..])[j] {
        assert Keys(t)[i + 1] != Keys(t)[j + 1];
      }
    }
  }

  /** The value under `k`, or `default` when `k` is absent. */
  function GetOr<V>(t: Table<V>, k: string, default: V): V {
    Get(t, k).GetOr(default)
  }

  /** The table PHP builds by running `$t[key($x)] = val($x)` for every element `$x` of
      `xs`, in order, for which `keep($x)` holds, starting from an empty array. */
  function Upserts<T, V>(xs: seq<T>, keep: T -> bool, key: T -> string, val: T -> V): Table<V>
  {
    if xs == [] then []
    else
      var t := Upserts(xs[..|xs| - 1], keep, key, val);
      var x := xs[|xs| - 1];
      if keep(x) then Put(t, key(x), val(x)) else t
  }

  /** The keys of the kept elements, in order, repetitions included. */
  function KeptKeys<T>(xs: seq<T>, keep: T -> bool, key: T -> string): seq<string> {
    if xs == [] then []
    else
      var x := xs[|xs| - 1];
      KeptKeys(xs[..|xs| - 1], keep, key) + (if keep(x) then [key(x)] else [])
  }

  /** Element `xs[i]` writes slot `k`. */
  predicate Writes<T>(xs: seq<T>, keep: T -> bool, key: T -> string, i: int, k: string) {
    0 <= i < |xs| && keep(xs[i]) && key(xs[i]) == k
  }

  /** A key is among the kept keys exactly when some kept element has it. */
  lemma {:induction false} KeptKeysMember<T>(xs: seq<T>, keep: T -> bool, key: T -> string, k: string)
    ensures k in KeptKeys(xs, keep, key) <==> exists i :: Writes(xs, keep, key, i, k)
  {
    if xs != [] {
      var n := |xs| - 1;
      var pre := xs[..n];
      KeptKeysMember(pre, keep, key, k);
      if k in KeptKeys(xs, keep, key) {
        if k in KeptKeys(pre, keep, key) {
          var i :| Writes(pre, keep, key, i, k);
          assert pre[i] == xs[i];
          assert Writes(xs, keep, key, i, k);
        } else {
          assert Writes(xs, keep, key, n, k);
        }
      }
      if exists i :: Writes(xs, keep, key, i, k) {
        var i :| Writes(xs, keep, key, i, k);
        if i < n {
          assert pre[i] == xs[i];
          assert Writes(pre, keep, key, i, k);
        }
      }
    }
  }

  /** The keys of the upserted table are the kept keys, repetitions removed, each at the
      position of its first write; so a key is present exactly when some kept element has it. */
  lemma {:induction false} UpsertsKeys<T, V>(xs: seq<T>, keep: T -> bool, key: T -> string, val: T -> V)
    ensures Keys(Upserts(xs, keep, key, val)) == FirstOccurrences(KeptKeys(xs, keep, key))
  {
    if xs != [] {
      var n := |xs| - 1;
      var x := xs[n];
      UpsertsKeys(xs[..n], keep, key, val);
      var ks := KeptKeys(xs[..n], keep, key);
      if keep(x) {
        var ks' := ks + [key(x)];
        assert ks'[..|ks'| - 1] == ks;
      } else {
        assert ks + [] == ks;
      }
    }
  }

  /** `ks` without repetitions, each key kept at its first occurrence. */
  function FirstOccurrences(ks: seq<string>): (r: seq<string>)
    ensures NoDuplicates(r)
    ensures forall k :: k in r <==> k in ks
  {
    if ks == [] then []
    else
      var d := FirstOccurrences(ks[..|ks| - 1]);
      assert ks == ks[..|ks| - 1] + [ks[|ks| - 1]];
      if ks[|ks| - 1] in d then d
      else
        var r := d + [ks[|ks| - 1]];
        assert forall i :: 0 <= i < |d| ==> r[i] == d[i] && r[i] in d;
        r
  }

  /** With no element kept, no key is written. */
  lemma {:induction false} KeptKeysNone<T>(xs: seq<T>, keep: T -> bool, key: T -> string)
    requires forall j :: 0 <= j < |xs| ==> !keep(xs[j])
    ensures KeptKeys(xs, keep, key) == []
  {
    if xs != [] {
      var n := |xs| - 1;
      assert forall j :: 0 <= j < n ==> xs[..n][j] == xs[j];
      KeptKeysNone(xs[..n], keep, key);
    }
  }

  /** The first kept key is the key of the first kept element. */
  lemma {:induction false} KeptKeysFirst<T>(xs: seq<T>, keep: T -> bool, key: T -> string, i: int)
    requires 0 <= i < |xs| && keep(xs[i])
    requires forall j :: 0 <= j < i ==> !keep(xs[j])
    ensures KeptKeys(xs, keep, key) != [] && KeptKeys(xs, keep, key)[0] == key(xs[i])
  {
    var n := |xs| - 1;
    assert forall j :: 0 <= j < n ==> xs[..n][j] == xs[j];
    if i == n {
      KeptKeysNone(xs[..n], keep, key);
    } else {
      KeptKeysFirst(xs[..n], keep, key, i);
    }
  }

  /** Removing repetitions keeps the first key first. */
  lemma {:induction false} FirstOccurrencesHead(ks: seq<string>)
    requires ks != []
    ensures FirstOccurrences(ks) != [] && FirstOccurrences(ks)[0] == ks[0]
  {
    var n := |ks| - 1;
    if n > 0 {
      FirstOccurrencesHead(ks[..n]);
    }
  }

  /** Last write wins: the value under `k` comes from the last kept element with key `k`. */
  lemma {:induction false} UpsertsLastWins<T, V>(xs: seq<T>, keep: T -> bool, key: T -> string, val: T -> V, i: int)
    requires 0 <= i < |xs| && keep(xs[i])
    requires forall j :: i < j < |xs| ==> !Writes(xs, keep, key, j, key(xs[i]))
    ensures Get(Upserts(xs, keep, key, val), key(xs[i])) == Some(val(xs[i]))
  {
    var n := |xs| - 1;
    if i < n {
      forall j | i < j < n ensures !Writes(xs[..n], keep, key, j, key(xs[i])) {
        assert xs[..n][j] == xs[j];
        assert !Writes(xs, keep, key, j, key(xs[i]));
      }
      UpsertsLastWins(xs[..n], keep, key, val, i);
      assert !Writes(xs, keep, key, n, key(xs[i]));
    }
  }

  /** The keys of an upserted table are distinct. */
  lemma UpsertsDistinct<T, V>(xs: seq<T>, keep: T -> bool, key: T -> string, val: T -> V)
    ensures Distinct(Upserts(xs, keep, key, val))
  {
    UpsertsKeys(xs, keep, key, val);
  }

  /** `$t[k1($x)][k2($x)] = val($x)` for every kept `$x`, in order: PHP's nested assignment
      that creates the inner array on first use. */
  function NestedUpserts<T, V>(xs: seq<T>, keep: T -> bool, key1: T -> string, key2: T -> string, val: T -> V)
    : Table<Table<V>>
  {
    if xs == [] then []
    else
      var t := NestedUpserts(xs[..|xs| - 1], keep, key1, key2, val);
      var x := xs[|xs| - 1];
      if keep(x) then Put(t, key1(x), Put(GetOr(t, key1(x), []), key2(x), val(x))) else t
  }

  /** The kept elements whose outer key is `k1`. */
  function Under<T>(keep: T -> bool, key1: T -> string, k1: string): T -> bool {
    x => keep(x) && key1(x) == k1
  }

  /** The inner table under `k1` is exactly what the writes with outer key `k1` alone build. */
  lemma {:induction false} NestedUpsertsSlice<T, V>(xs: seq<T>, keep: T -> bool, key1: T -> string, key2: T -> string, val: T -> V, k1: string)
    ensures GetOr(NestedUpserts(xs, keep, key1, key2, val), k1, []) == Upserts(xs, Under(keep, key1, k1), key2, val)
  {
    if xs != [] {
      NestedUpsertsSlice(xs[..|xs| - 1], keep, key1, key2, val, k1);
    }
  }

  /** The outer keys are the kept outer keys, repetitions removed, in order of first write. */
  lemma {:induction false} NestedUpsertsKeys<T, V>(xs: seq<T>, keep: T -> bool, key1: T -> string, key2: T -> string, val: T -> V)
    ensures Keys(NestedUpserts(xs, keep, key1, key2, val)) == FirstOccurrences(KeptKeys(xs, keep, key1))
  {
    if xs != [] {
      var n := |xs| - 1;
      var x := xs[n];
      NestedUpsertsKeys(xs[..n], keep, key1, key2, val);
      var ks := KeptKeys(xs[..n], keep, key1);
      if keep(x) {
        var ks' := ks + [key1(x)];
        assert ks'[..|ks'| - 1] == ks;
      } else {
        assert ks + [] == ks;
      }
    }
  }

  /** The table with `f` applied to every value, keys and order unchanged. */
  function MapValues<V, W>(t: Table<V>, f: V -> W): (r: Table<W>)
    ensures |r| == |t|
    ensures forall i :: 0 <= i < |t| ==> r[i] == (t[i].0, f(t[i].1))
  {
    if t == [] then [] else [(t[0].0, f(t[0].1))] + MapValues(t[1..], f)
  }

  /** Writing then mapping is mapping then writing the mapped value. */
  lemma {:induction false} PutMapValues<V, W>(t: Table<V>, k: string, v: V, f: V -> W)
    ensures MapValues(Put(t, k, v), f) == Put(MapValues(t, f), k, f(v))
  {
    if t != [] && t[0].0 != k {
      PutMapValues(t[1..], k, v, f);
      assert MapValues(t, f)[1..] == MapValues(t[1..], f);
      assert MapValues(Put(t, k, v), f)[1..] == MapValues(Put(t[1..], k, v), f);
    } else if t != [] {
      assert MapValues(t, f)[1..] == MapValues(t[1..], f);
    }
  }

  /** Upserting values then mapping them is upserting the mapped values. */
  lemma {:induction false} UpsertsMapValues<T, V, W>(xs: seq<T>, keep: T -> bool, key: T -> string, val: T -> V, f: V -> W, val': T -> W)
    requires forall x :: val'(x) == f(val(x))
    ensures MapValues(Upserts(xs, keep, key, val), f) == Upserts(xs, keep, key, val')
  {
    if xs != [] {
      var n := |xs| - 1;
      UpsertsMapValues(xs[..n], keep, key, val, f, val');
      if keep(xs[n]) {
        PutMapValues(Upserts(xs[..n], keep, key, val), key(xs[n]), val(xs[n]), f);
      }
    }
  }

  /** One more element: the table for `xs[..i + 1]` is the table for `xs[..i]` with `xs[i]`'s write. */
  lemma UpsertsStep<T, V>(xs: seq<T>, keep: T -> bool, key: T -> string, val: T -> V, i: nat)
    requires i < |xs|
    ensures Upserts(xs[..i + 1], keep, key, val) ==
      if keep(xs[i]) then Put(Upserts(xs[..i], keep, key, val), key(xs[i]), val(xs[i]))
      else Upserts(xs[..i], keep, key, val)
  {
    assert xs[..i + 1][..i] == xs[..i];
  }

  /** One more element, for the nested table. */
  lemma NestedUpsertsStep<T, V>(xs: seq<T>, keep: T -> bool, key1: T -> string, key2: T -> string, val: T -> V, i: nat)
    requires i < |xs|
    ensures NestedUpserts(xs[..i + 1], keep, key1, key2, val) ==
      var t := NestedUpserts(xs[..i], keep, key1, key2, val);
      if keep(xs[i]) then Put(t, key1(xs[i]), Put(GetOr(t, key1(xs[i]), []), key2(xs[i]), val(xs[i]))) else t
  {
    assert xs[..i + 1][..i] == xs[..i];
  }
}
