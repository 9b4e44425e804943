/** Values shared by every lineage of the exchange: optional values, the two
    sides of a book, and an insertion-ordered dictionary (Python's `dict`). */
module Basics {

  datatype Option<+T> = None | Some(value: T)

  /** Bid (buy) or Ask (sell). The source also has a fatal branch for any other
      tag; with a two-valued type that branch cannot be reached. */
  datatype Side = Bid | Ask {
    function Opposite(): (s: Side)
      ensures s != this
    {
      if this == Bid then Ask else Bid
    }

    /** Price `p` is at least as good as `q` on this side's book: a bid is
        better the higher it is, an ask the lower. */
    predicate AtLeast(p: int, q: int) {
      if this == Bid then p >= q else p <= q
    }
  }

  /** A Python dict: its keys in insertion order and the value of each.
      Assigning to a present key keeps its position; deleting a key closes the
      gap. */
  datatype Dict<K, V> = Dict(keys: seq<K>, vals: map<K, V>)

  function EmptyDict<K, V>(): Dict<K, V> {
    Dict([], map[])
  }

  ghost predicate Distinct<K>(s: seq<K>) {
    forall i, j :: 0 <= i < j < |s| ==> s[i] != s[j]
  }

  /** Each key is listed once, and exactly the listed keys have values. */
  ghost predicate Wf<K(!new), V>(d: Dict<K, V>) {
    Distinct(d.keys) && forall k :: k in d.vals <==> k in d.keys
  }

  /** `c` keeps some of the elements of `s`, in their order. */
  predicate IsSubsequence<T(==)>(c: seq<T>, s: seq<T>) {
    if c == [] then true
    else if s == [] then false
    else if c[0] == s[0] then IsSubsequence(c[1..], s[1..])
    else IsSubsequence(c, s[1..])
  }

  /** An element appended to `s` may be left out of a subsequence. */
  lemma {:induction false} SubsequenceExtend<T>(c: seq<T>, s: seq<T>, x: T)
    requires IsSubsequence(c, s)
    ensures IsSubsequence(c, s + [x])
  {
    if c != [] {
      assert (s + [x])[1..] == s[1..] + [x];
      if c[0] == s[0] {
        SubsequenceExtend(c[1..], s[1..], x);
      } else {
        SubsequenceExtend(c, s[1..], x);
      }
    }
  }

  /** An element appended to both keeps a subsequence one. */
  lemma {:induction false} SubsequenceSnoc<T>(c: seq<T>, s: seq<T>, x: T)
    requires IsSubsequence(c, s)
    ensures IsSubsequence(c + [x], s + [x])
  {
    if s != [] {
      assert (s + [x])[1..] == s[1..] + [x];
      if c == [] {
        if s[0] != x {
          SubsequenceSnoc(c, s[1..], x);
          assert c + [x] == [x];
        }
      } else {
        assert (c + [x])[1..] == c[1..] + [x];
        if c[0] == s[0] {
          SubsequenceSnoc(c[1..], s[1..], x);
        } else {
          SubsequenceSnoc(c, s[1..], x);
        }
      }
    }
  }

  /** `d.get(k)`. */
  function Get<K, V>(d: Dict<K, V>, k: K): Option<V> {
    if k in d.vals then Some(d.vals[k]) else None
  }

  /** `d[k] = v`: overwrite in place when present, append otherwise. */
  function Put<K(!new), V>(d: Dict<K, V>, k: K, v: V): (r: Dict<K, V>)
    ensures Wf(d) ==> Wf(r)
    ensures Wf(d) ==> |r.keys| == if k in d.vals then |d.keys| else |d.keys| + 1
  {
    Dict(if k in d.vals then d.keys else d.keys + [k], d.vals[k := v])
  }

  /** After `d[k] = v`, `k` holds `v` and every other key its old value; a
      present key keeps its place and a new key goes last. */
  lemma PutAssigns<K(!new), V>(d: Dict<K, V>, k: K, v: V)
    ensures Get(Put(d, k, v), k) == Some(v)
    ensures forall j :: j != k ==> Get(Put(d, k, v), j) == Get(d, j)
    ensures k in d.vals ==> Put(d, k, v).keys == d.keys
    ensures k !in d.vals ==> Put(d, k, v).keys == d.keys + [k]
  {
  }

  /** The keys other than `k`, in their order. */
  function RemoveKey<K(==,!new)>(s: seq<K>, k: K): (r: seq<K>)
    ensures forall x :: x in r <==> x in s && x != k
    ensures Distinct(s) ==> Distinct(r)
    ensures Distinct(s) && k in s ==> |r| == |s| - 1
    ensures k !in s ==> r == s
  {
    if s == [] then []
    else
      var rest := RemoveKey(s[1..], k);
      assert Distinct(s) ==> s[0] !in s[1..];
      if s[0] == k then rest else [s[0]] + rest
  }

  /** `del d[k]`. */
  function Remove<K(!new), V>(d: Dict<K, V>, k: K): (r: Dict<K, V>)
    ensures Wf(d) ==> Wf(r)
    ensures Wf(d) && k in d.vals ==> |r.keys| == |d.keys| - 1
    ensures Wf(d) && k !in d.vals ==> r == d
  {
    Dict(RemoveKey(d.keys, k), d.vals - {k})
  }

  /** Deleting a key that was just added restores the dict, position and
      all. */
  lemma {:induction false} PutThenRemove<K(!new), V>(d: Dict<K, V>, k: K, v: V)
    requires Wf(d) && k !in d.vals
    ensures Remove(Put(d, k, v), k) == d
  {
    RemoveLast(d.keys, k);
    assert d.vals[k := v] - {k} == d.vals;
  }

  lemma {:induction false} RemoveLast<K(!new)>(s: seq<K>, k: K)
    requires k !in s
    ensures RemoveKey(s + [k], k) == s
  {
    if s != [] {
      assert (s + [k])[1..] == s[1..] + [k];
      RemoveLast(s[1..], k);
      assert s == [s[0]] + s[1..];
    }
  }
}
