/** Sequences mapped, reversed and indexed by a key. */
module Sequences {

  function Mapped<A, B>(f: A -> B, s: seq<A>): seq<B> {
    if s == [] then [] else Mapped(f, s[..|s| - 1]) + [f(s[|s| - 1])]
  }

  lemma {:induction false} MappedAt<A, B>(f: A -> B, s: seq<A>)
    ensures |Mapped(f, s)| == |s|
    ensures forall k :: 0 <= k < |s| ==> Mapped(f, s)[k] == f(s[k])
    decreases |s|
  {
    if s != [] { MappedAt(f, s[..|s| - 1]); }
  }

  lemma {:induction false} MappedConcat<A, B>(f: A -> B, a: seq<A>, b: seq<A>)
    ensures Mapped(f, a + b) == Mapped(f, a) + Mapped(f, b)
    decreases |b|
  {
    if b == [] {
      assert a + b == a;
    } else {
      MappedConcat(f, a, b[..|b| - 1]);
      assert (a + b)[..|a + b| - 1] == a + b[..|b| - 1];
    }
  }

  lemma MappedPush<A, B>(f: A -> B, s: seq<A>, x: A)
    ensures Mapped(f, s + [x]) == Mapped(f, s) + [f(x)]
  {
    assert (s + [x])[..|s|] == s;
  }

  lemma MappedSame<A, B>(f: A -> B, g: A -> B, s: seq<A>)
    ensures Mapped(f, s) == Mapped(g, s) <==> forall i :: 0 <= i < |s| ==> f(s[i]) == g(s[i])
  {
    MappedAt(f, s);
    MappedAt(g, s);
    if Mapped(f, s) == Mapped(g, s) {
      forall i | 0 <= i < |s|
        ensures f(s[i]) == g(s[i])
      {
        assert Mapped(f, s)[i] == Mapped(g, s)[i];
      }
    }
  }

  lemma MappedTwice<A, B, C>(f: A -> B, g: B -> C, h: A -> C, s: seq<A>)
    requires forall i :: 0 <= i < |s| ==> h(s[i]) == g(f(s[i]))
    ensures Mapped(g, Mapped(f, s)) == Mapped(h, s)
  {
    MappedAt(f, s);
    MappedAt(g, Mapped(f, s));
    MappedAt(h, s);
  }

  function Reversed<A>(s: seq<A>): (r: seq<A>)
    ensures |r| == |s| && forall k :: 0 <= k < |s| ==> r[k] == s[|s| - 1 - k]
  {
    if s == [] then [] else Reversed(s[1..]) + [s[0]]
  }

  /** A map filled element by element. */
  function LastByKey<A, K, V>(key: A -> K, value: A -> V, s: seq<A>): map<K, V> {
    if s == [] then map[]
    else LastByKey(key, value, s[..|s| - 1])[key(s[|s| - 1]) := value(s[|s| - 1])]
  }

  /** The last element of a key. */
  predicate LastWith<A, K(==)>(key: A -> K, s: seq<A>, i: nat, k: K) {
    i < |s| && key(s[i]) == k && forall j :: i < j < |s| ==> key(s[j]) != k
  }

  /** The map has the keys of the elements, and for each key the value of its last element. */
  lemma {:induction false} LastByKeyMeaning<A, K, V>(key: A -> K, value: A -> V, s: seq<A>, k: K)
    ensures k in LastByKey(key, value, s) <==> exists i: nat :: LastWith(key, s, i, k)
    ensures forall i: nat :: LastWith(key, s, i, k) ==>
              k in LastByKey(key, value, s) && LastByKey(key, value, s)[k] == value(s[i])
    decreases |s|
  {
    if s != [] {
      var n := |s| - 1;
      LastByKeyMeaning(key, value, s[..n], k);
      if key(s[n]) == k {
        assert LastWith(key, s, n, k);
      } else {
        forall i: nat
          ensures LastWith(key, s, i, k) <==> LastWith(key, s[..n], i, k)
        {
        }
      }
    }
  }
}
