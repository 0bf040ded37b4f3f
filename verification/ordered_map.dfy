/** An insertion-ordered map (`LinkedHashMap<String, V>`) as a sequence of entries, oldest first. */
module OrderedMap {
  import opened Results

  type Entries<V> = seq<(string, V)>

  /** The keys in iteration order. */
  function KeysOf<V>(m: Entries<V>): (ks: seq<string>)
    ensures |ks| == |m|
    ensures forall i :: 0 <= i < |m| ==> ks[i] == m[i].0
  {
    seq(|m|, i requires 0 <= i < |m| => m[i].0)
  }

  /** The keys of a map whose oldest entry is `p` are `p`'s key followed by the others. */
  lemma KeysOfCons<V>(p: (string, V), rest: Entries<V>)
    ensures KeysOf([p] + rest) == [p.0] + KeysOf(rest)
  {
  }

  /** Dropping the oldest entry drops the first key. */
  lemma KeysOfTail<V>(m: Entries<V>)
    requires |m| > 0
    ensures KeysOf(m)[1..] == KeysOf(m[1..])
  {
  }

  /** No key occurs twice, as in every `java.util.Map`. */
  ghost predicate DistinctKeys<V>(m: Entries<V>) {
    forall i, j :: 0 <= i < j < |m| ==> m[i].0 != m[j].0
  }

  /** `get(k)`: the value stored under `k`, if any. */
  function Lookup<V>(m: Entries<V>, k: string): (r: Option<V>)
    ensures r.Some? <==> k in KeysOf(m)
    ensures r.Some? ==> (k, r.value) in m
  {
    if |m| == 0 then None
    else if m[0].0 == k then Some(m[0].1)
    else
      KeysOfCons(m[0], m[1..]);
      assert m == [m[0]] + m[1..];
      Lookup(m[1..], k)
  }

  /** `put(k, v)`: a new key goes to the end of the iteration order; an existing key keeps its
      place and gets the new value. */
  function Put<V>(m: Entries<V>, k: string, v: V): (r: Entries<V>)
    ensures k in KeysOf(m) ==> KeysOf(r) == KeysOf(m)
    ensures k !in KeysOf(m) ==> KeysOf(r) == KeysOf(m) + [k]
  {
    if k in KeysOf(m) then seq(|m|, i requires 0 <= i < |m| => if m[i].0 == k then (k, v) else m[i])
    else m + [(k, v)]
  }

  /** `put` of a key not yet present appends exactly that entry at the end. */
  lemma PutAppendsNewKey<V>(m: Entries<V>, k: string, v: V)
    requires k !in KeysOf(m)
    ensures Put(m, k, v) == m + [(k, v)]
  {
  }

  /** Below an oldest entry with another key, `put` acts on the rest of the map. */
  lemma PutBelowOtherKey<V>(m: Entries<V>, k: string, v: V)
    requires |m| > 0 && m[0].0 != k
    ensures Put(m, k, v) == [m[0]] + Put(m[1..], k, v)
  {
    var r := Put(m, k, v);
    if k in KeysOf(m) {
      KeysOfTail(m);
      assert k in KeysOf(m[1..]);
      var t := Put(m[1..], k, v);
      forall i | 0 <= i < |r| ensures r[i] == ([m[0]] + t)[i] {
        if i > 0 {
          assert m[i] == m[1..][i - 1];
        }
      }
    } else {
      KeysOfTail(m);
      assert k !in KeysOf(m[1..]);
      assert m + [(k, v)] == [m[0]] + (m[1..] + [(k, v)]);
    }
  }

  /** Lookup of `k` only sees the entries under `k`: two maps with the same keys in the same
      order and the same entries under `k` agree on `get(k)`. */
  lemma {:induction false} LookupSeesOnlyItsKey<V>(a: Entries<V>, b: Entries<V>, k: string)
    requires |a| == |b|
    requires forall i :: 0 <= i < |a| ==> a[i].0 == b[i].0
    requires forall i :: 0 <= i < |a| && a[i].0 == k ==> a[i] == b[i]
    ensures Lookup(a, k) == Lookup(b, k)
  {
    if |a| > 0 && a[0].0 != k {
      LookupSeesOnlyItsKey(a[1..], b[1..], k);
    }
  }

  /** After `put(k, v)`, `get(k)` yields `v`. */
  lemma {:induction false} PutThenGet<V>(m: Entries<V>, k: string, v: V)
    ensures Lookup(Put(m, k, v), k) == Some(v)
  {
    if |m| > 0 && m[0].0 != k {
      PutBelowOtherKey(m, k, v);
      PutThenGet(m[1..], k, v);
      assert Put(m, k, v)[1..] == Put(m[1..], k, v);
    }
  }

  /** `put(k, v)` leaves the value under every other key as it was. */
  lemma {:induction false} PutLeavesOtherKeys<V>(m: Entries<V>, k: string, v: V, other: string)
    requires other != k
    ensures Lookup(Put(m, k, v), other) == Lookup(m, other)
  {
    if k in KeysOf(m) {
      LookupSeesOnlyItsKey(Put(m, k, v), m, other);
    } else if |m| > 0 {
      PutBelowOtherKey(m, k, v);
      PutLeavesOtherKeys(m[1..], k, v, other);
      assert Put(m, k, v)[1..] == Put(m[1..], k, v);
    }
  }

  /** `put` never creates a second entry for a key. */
  lemma PutKeepsKeysDistinct<V>(m: Entries<V>, k: string, v: V)
    requires DistinctKeys(m)
    ensures DistinctKeys(Put(m, k, v))
  {
    var r := Put(m, k, v);
    forall i, j | 0 <= i < j < |r| ensures r[i].0 != r[j].0 {
      assert KeysOf(r)[i] == r[i].0 && KeysOf(r)[j] == r[j].0;
      if j == |m| {
        assert KeysOf(r)[j] == k;
      }
    }
  }

  /** Dropping the oldest entry keeps keys distinct, and the dropped key does not recur. */
  lemma TailKeepsKeysDistinct<V>(m: Entries<V>)
    requires |m| > 0 && DistinctKeys(m)
    ensures DistinctKeys(m[1..])
    ensures m[0].0 !in KeysOf(m[1..])
  {
    forall i, j | 0 <= i < j < |m[1..]| ensures m[1..][i].0 != m[1..][j].0 {
      assert m[1..][i] == m[i + 1] && m[1..][j] == m[j + 1];
    }
  }

  /** With distinct keys, `get` of the key at any position finds the value at that position. */
  lemma {:induction false} LookupAt<V>(m: Entries<V>, i: nat)
    requires DistinctKeys(m) && i < |m|
    ensures Lookup(m, m[i].0) == Some(m[i].1)
  {
    if i > 0 {
      TailKeepsKeysDistinct(m);
      assert m[1..][i - 1] == m[i];
      LookupAt(m[1..], i - 1);
    }
  }

  /** With distinct keys, an entry is in the map exactly when lookup of its key finds its value. */
  lemma EntryIffLookup<V>(m: Entries<V>, k: string, v: V)
    requires DistinctKeys(m)
    ensures (k, v) in m <==> Lookup(m, k) == Some(v)
  {
    if (k, v) in m {
      var i :| 0 <= i < |m| && m[i] == (k, v);
      LookupAt(m, i);
    }
  }

  /** `a` is `b` with some entries removed, the rest in their original order. */
  ghost predicate IsSubsequence<T>(a: seq<T>, b: seq<T>)
    decreases |b|
  {
    if |b| == 0 then |a| == 0
    else IsSubsequence(a, b[1..]) || (|a| > 0 && a[0] == b[0] && IsSubsequence(a[1..], b[1..]))
  }

  /** A subsequence only holds elements of the sequence it was taken from. */
  lemma {:induction false} SubsequenceMembers<T>(a: seq<T>, b: seq<T>)
    requires IsSubsequence(a, b)
    ensures |a| <= |b|
    ensures forall x :: x in a ==> x in b
    decreases |b|
  {
    if |b| > 0 {
      if IsSubsequence(a, b[1..]) {
        SubsequenceMembers(a, b[1..]);
      } else {
        SubsequenceMembers(a[1..], b[1..]);
        assert a == [a[0]] + a[1..];
      }
    }
  }
}
