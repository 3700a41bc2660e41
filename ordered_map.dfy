/**
 * An insertion-ordered dictionary with the semantics of the JavaScript
 * `Map` the engine and the registry use: `set` on a present key replaces the
 * value in place, on a new key appends at the end; `delete` removes the key;
 * iteration, `keys()` and `values()` follow insertion order.
 */
module OrderedMaps {
  import opened Wrappers

  datatype Entry<V> = Entry(key: string, value: V)

  type OMap<V> = seq<Entry<V>>

  /** The keys, in iteration order. */
  function Keys<V>(m: OMap<V>): (ks: seq<string>)
    ensures |ks| == |m|
    ensures forall i :: 0 <= i < |m| ==> ks[i] == m[i].key
  {
    seq(|m|, i requires 0 <= i < |m| => m[i].key)
  }

  /** The values, in iteration order (`Array.from(map.values())`). */
  function Values<V>(m: OMap<V>): (vs: seq<V>)
    ensures |vs| == |m|
    ensures forall i :: 0 <= i < |m| ==> vs[i] == m[i].value
  {
    seq(|m|, i requires 0 <= i < |m| => m[i].value)
  }

  /** No string occurs twice. */
  ghost predicate NoDup(ks: seq<string>) {
    forall i, j :: 0 <= i < j < |ks| ==> ks[i] != ks[j]
  }

  /** Every key occurs at most once. */
  ghost predicate NoDupKeys<V>(m: OMap<V>) {
    NoDup(Keys(m))
  }

  predicate Has<V>(m: OMap<V>, k: string) {
    k in Keys(m)
  }

  /** Position of the first entry with key `k`, or -1. */
  function IndexOf<V>(m: OMap<V>, k: string): (i: int)
    ensures -1 <= i < |m|
    ensures i >= 0 ==> m[i].key == k && forall j :: 0 <= j < i ==> m[j].key != k
    ensures i == -1 <==> !Has(m, k)
  {
    if |m| == 0 then -1
    else if m[0].key == k then 0
    else
      var r := IndexOf(m[1..], k);
      assert Has(m[1..], k) ==> Has(m, k) by {
        if Has(m[1..], k) {
          var p :| 0 <= p < |m[1..]| && Keys(m[1..])[p] == k;
          assert Keys(m)[p + 1] == k;
        }
      }
      if r == -1 then -1 else r + 1
  }

  /** `map.get(k)`. */
  function Get<V>(m: OMap<V>, k: string): Option<V> {
    var i := IndexOf(m, k);
    if i < 0 then None else Some(m[i].value)
  }

  /** `map.get(k)` where the key is known to be present. */
  function Lookup<V>(m: OMap<V>, k: string): V
    requires Has(m, k)
  {
    m[IndexOf(m, k)].value
  }

  /** `map.set(k, v)`. */
  function Put<V>(m: OMap<V>, k: string, v: V): OMap<V> {
    var i := IndexOf(m, k);
    if i < 0 then m + [Entry(k, v)] else m[i := Entry(k, v)]
  }

  /** `map.delete(k)`. */
  function Delete<V>(m: OMap<V>, k: string): OMap<V> {
    if |m| == 0 then []
    else (if m[0].key == k then [] else [m[0]]) + Delete(m[1..], k)
  }

  /**
   * Setting a key makes it map to the new value and leaves every other key's
   * value alone; an existing key keeps its position and the size, a new key
   * goes to the end.
   */
  lemma PutSpec<V>(m: OMap<V>, k: string, v: V)
    requires NoDupKeys(m)
    ensures NoDupKeys(Put(m, k, v))
    ensures Get(Put(m, k, v), k) == Some(v)
    ensures forall k' :: k' != k ==> Get(Put(m, k, v), k') == Get(m, k')
    ensures Has(m, k) ==> Keys(Put(m, k, v)) == Keys(m)
    ensures !Has(m, k) ==> Keys(Put(m, k, v)) == Keys(m) + [k]
  {
    if Has(m, k) { PutPresent(m, k, v); } else { PutAbsent(m, k, v); }
  }

  /** An index holding `k` with no `k` before it is where `IndexOf` finds `k`. */
  lemma IndexOfIs<V>(m: OMap<V>, k: string, i: int)
    requires 0 <= i < |m| && m[i].key == k
    requires forall j :: 0 <= j < i ==> m[j].key != k
    ensures IndexOf(m, k) == i
  {
    assert Keys(m)[i] == k;
  }

  lemma PutAbsent<V>(m: OMap<V>, k: string, v: V)
    requires NoDupKeys(m) && !Has(m, k)
    ensures Put(m, k, v) == m + [Entry(k, v)]
    ensures Keys(Put(m, k, v)) == Keys(m) + [k]
    ensures NoDupKeys(Put(m, k, v))
    ensures Get(Put(m, k, v), k) == Some(v)
    ensures forall k' :: k' != k ==> Get(Put(m, k, v), k') == Get(m, k')
  {
    var r := m + [Entry(k, v)];
    assert Keys(r) == Keys(m) + [k];
    assert forall j :: 0 <= j < |m| ==> m[j].key != k by {
      forall j | 0 <= j < |m| ensures m[j].key != k {
        assert Keys(m)[j] == m[j].key;
      }
    }
    IndexOfIs(r, k, |m|);
    forall k' | k' != k ensures Get(r, k') == Get(m, k') {
      var a := IndexOf(m, k');
      if a >= 0 {
        IndexOfIs(r, k', a);
      } else {
        assert k' !in Keys(r);
      }
    }
  }

  lemma PutPresent<V>(m: OMap<V>, k: string, v: V)
    requires NoDupKeys(m) && Has(m, k)
    ensures Put(m, k, v) == m[IndexOf(m, k) := Entry(k, v)]
    ensures Keys(Put(m, k, v)) == Keys(m)
    ensures Get(Put(m, k, v), k) == Some(v)
    ensures forall k' :: k' != k ==> Get(Put(m, k, v), k') == Get(m, k')
  {
    var i := IndexOf(m, k);
    var r := m[i := Entry(k, v)];
    assert Keys(r) == Keys(m);
    IndexOfIs(r, k, i);
    forall k' | k' != k ensures Get(r, k') == Get(m, k') {
      var a := IndexOf(m, k');
      if a >= 0 {
        IndexOfIs(r, k', a);
      } else {
        assert k' !in Keys(r);
      }
    }
  }

  /**
   * What `Array.from(map.values())` shows after `set`: the value replaced in
   * place for a present key, appended for a new one.
   */
  lemma ValuesAfterPut<V>(m: OMap<V>, k: string, v: V)
    requires NoDupKeys(m)
    ensures Has(m, k) ==> Values(Put(m, k, v)) == Values(m)[IndexOf(m, k) := v]
    ensures !Has(m, k) ==> Values(Put(m, k, v)) == Values(m) + [v]
  {
    if Has(m, k) {
      PutPresent(m, k, v);
      var i := IndexOf(m, k);
      var r := m[i := Entry(k, v)];
      assert |Values(r)| == |Values(m)[i := v]|;
      forall j | 0 <= j < |r| ensures Values(r)[j] == Values(m)[i := v][j] {
      }
    } else {
      PutAbsent(m, k, v);
      var r := m + [Entry(k, v)];
      assert |Values(r)| == |Values(m) + [v]|;
      forall j | 0 <= j < |r| ensures Values(r)[j] == (Values(m) + [v])[j] {
      }
    }
  }

  /** Under distinct keys, the `i`-th entry is what its key looks up. */
  lemma LookupAt<V>(m: OMap<V>, i: nat)
    requires NoDupKeys(m) && i < |m|
    ensures Has(m, m[i].key) && Lookup(m, m[i].key) == m[i].value
  {
    assert Keys(m)[i] == m[i].key;
    var p := IndexOf(m, m[i].key);
    assert Keys(m)[p] == m[i].key;
  }

  lemma GetAtIndex<V>(m: OMap<V>)
    requires NoDupKeys(m)
    ensures forall i :: 0 <= i < |m| ==> Get(m, m[i].key) == Some(m[i].value)
  {
    forall i | 0 <= i < |m| ensures Get(m, m[i].key) == Some(m[i].value) {
      assert Keys(m)[i] == m[i].key;
      var p := IndexOf(m, m[i].key);
      assert Keys(m)[p] == m[i].key;
    }
  }

  /** The keys `Delete` leaves: those of `ks` other than `k`, in order. */
  function Without(ks: seq<string>, k: string): seq<string> {
    if |ks| == 0 then []
    else (if ks[0] == k then [] else [ks[0]]) + Without(ks[1..], k)
  }

  /** `Delete` removes exactly the key `k` and keeps the other keys, in order. */
  lemma {:induction false} DeleteKeys<V>(m: OMap<V>, k: string)
    ensures Keys(Delete(m, k)) == Without(Keys(m), k)
  {
    if |m| > 0 {
      DeleteKeys(m[1..], k);
      var head := if m[0].key == k then [] else [m[0]];
      var rest := Delete(m[1..], k);
      assert Delete(m, k) == head + rest;
      assert Keys(m)[1..] == Keys(m[1..]);
      assert Keys(head + rest) == Keys(head) + Keys(rest);
    }
  }

  /** Every entry `Delete` keeps was an entry of `m`. */
  lemma {:induction false} DeleteFrom<V>(m: OMap<V>, k: string)
    ensures forall i :: 0 <= i < |Delete(m, k)| ==> Delete(m, k)[i] in m
  {
    if |m| > 0 {
      DeleteFrom(m[1..], k);
      var head := if m[0].key == k then [] else [m[0]];
      var d := Delete(m, k);
      assert d == head + Delete(m[1..], k);
      forall i | 0 <= i < |d| ensures d[i] in m {
        if i >= |head| { assert d[i] == Delete(m[1..], k)[i - |head|]; }
      }
    }
  }

  lemma {:induction false} WithoutSpec(ks: seq<string>, k: string)
    ensures forall x :: x in Without(ks, k) <==> x in ks && x != k
    ensures NoDup(ks) ==> NoDup(Without(ks, k))
  {
    if |ks| > 0 {
      WithoutSpec(ks[1..], k);
      var head := if ks[0] == k then [] else [ks[0]];
      var w := Without(ks, k);
      var rest := Without(ks[1..], k);
      assert w == head + rest;
      forall x ensures x in w <==> x in ks && x != k {
        assert x in ks <==> x == ks[0] || x in ks[1..];
      }
      if NoDup(ks) {
        assert NoDup(ks[1..]) by {
          forall i, j | 0 <= i < j < |ks| - 1 ensures ks[1..][i] != ks[1..][j] {
            assert ks[1..][i] == ks[i + 1] && ks[1..][j] == ks[j + 1];
          }
        }
        forall i, j | 0 <= i < j < |w| ensures w[i] != w[j] {
          if |head| == 1 && i == 0 {
            assert w[j] == rest[j - 1] && w[j] in rest;
            assert w[j] in ks[1..];
          } else {
            assert w[i] == rest[i - |head|] && w[j] == rest[j - |head|];
          }
        }
      }
    }
  }

  /** Facts about `Delete` stated on the map itself. */
  lemma DeleteSpec<V>(m: OMap<V>, k: string)
    ensures forall k' :: Has(Delete(m, k), k') <==> Has(m, k') && k' != k
    ensures NoDupKeys(m) ==> NoDupKeys(Delete(m, k))
    ensures forall i :: 0 <= i < |Delete(m, k)| ==> Delete(m, k)[i] in m
  {
    DeleteKeys(m, k);
    DeleteFrom(m, k);
    WithoutSpec(Keys(m), k);
  }

  /** Deleting a missing key changes nothing. */
  lemma {:induction false} DeleteMissing<V>(m: OMap<V>, k: string)
    requires !Has(m, k)
    ensures Delete(m, k) == m
  {
    if |m| > 0 {
      assert Keys(m)[0] == m[0].key;
      assert Keys(m)[1..] == Keys(m[1..]);
      DeleteMissing(m[1..], k);
    }
  }

  /** Deleting a key and setting it again moves it to the end. */
  lemma DeleteThenPut<V>(m: OMap<V>, k: string, v: V)
    ensures Put(Delete(m, k), k, v) == Delete(m, k) + [Entry(k, v)]
  {
    DeleteSpec(m, k);
  }

  /** On a map without duplicate keys, the number of entries is the number of distinct keys. */
  lemma {:induction false} SizeIsDistinctKeys<V>(m: OMap<V>)
    requires NoDupKeys(m)
    ensures |set i | 0 <= i < |m| :: m[i].key| == |m|
  {
    if |m| > 0 {
      var init := m[..|m| - 1];
      assert NoDupKeys(init);
      SizeIsDistinctKeys(init);
      var s := set i | 0 <= i < |init| :: init[i].key;
      var t := set i | 0 <= i < |m| :: m[i].key;
      assert t == s + {m[|m| - 1].key} by {
        forall x | x in t ensures x in s + {m[|m| - 1].key} {
          var i :| 0 <= i < |m| && m[i].key == x;
          if i < |m| - 1 { assert init[i].key == x; }
        }
      }
      assert m[|m| - 1].key !in s;
    }
  }
}
