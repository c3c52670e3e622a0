/** Counting the members of a set by kind: the dictionaries that `d[k] = d.get(k, 0) + 1` loops fill. */
module Tallies {

  function OfKind<E, K(==)>(s: set<E>, kind: E -> K, k: K): set<E> {
    set e | e in s && kind(e) == k
  }

  ghost predicate IsTally<E, K>(tally: map<K, nat>, s: set<E>, kind: E -> K) {
    && (forall e :: e in s ==> kind(e) in tally)
    && (forall k :: k in tally ==> tally[k] == |OfKind(s, kind, k)| && tally[k] > 0)
  }

  function Bumped<K>(tally: map<K, nat>, k: K): map<K, nat> {
    tally[k := (if k in tally then tally[k] else 0) + 1]
  }

  /** One more member adds to its own kind and to no other. */
  lemma OneMoreOfKind<E, K>(s: set<E>, kind: E -> K, e: E, k: K)
    requires e !in s
    ensures OfKind(s + {e}, kind, k) == if k == kind(e) then OfKind(s, kind, k) + {e} else OfKind(s, kind, k)
    ensures |OfKind(s + {e}, kind, k)| == |OfKind(s, kind, k)| + if k == kind(e) then 1 else 0
  {
  }

  lemma CountOne<E, K>(tally: map<K, nat>, s: set<E>, kind: E -> K, e: E)
    requires IsTally(tally, s, kind) && e !in s
    ensures IsTally(Bumped(tally, kind(e)), s + {e}, kind)
  {
    if kind(e) !in tally {
      assert OfKind(s, kind, kind(e)) == {};
    }
    forall k | k in Bumped(tally, kind(e))
      ensures Bumped(tally, kind(e))[k] == |OfKind(s + {e}, kind, k)|
    {
      OneMoreOfKind(s, kind, e, k);
    }
  }

  function Sum<K>(tally: map<K, nat>, ks: seq<K>): nat
    requires forall k :: k in ks ==> k in tally
  {
    if ks == [] then 0 else tally[ks[0]] + Sum(tally, ks[1..])
  }

  ghost predicate NoRepeats<K(!new)>(ks: seq<K>) {
    forall i, j :: 0 <= i < j < |ks| ==> ks[i] != ks[j]
  }

  function Among<E, K(==)>(s: set<E>, kind: E -> K, ks: seq<K>): set<E> {
    set e | e in s && kind(e) in ks
  }

  lemma AmongCons<E, K>(s: set<E>, kind: E -> K, k: K, rest: seq<K>)
    requires k !in rest
    ensures |Among(s, kind, [k] + rest)| == |OfKind(s, kind, k)| + |Among(s, kind, rest)|
  {
    assert Among(s, kind, [k] + rest) == OfKind(s, kind, k) + Among(s, kind, rest);
    assert OfKind(s, kind, k) !! Among(s, kind, rest);
  }

  lemma {:induction false} SumIsSize<E, K(!new)>(tally: map<K, nat>, s: set<E>, kind: E -> K, ks: seq<K>)
    requires IsTally(tally, s, kind) && NoRepeats(ks) && forall k :: k in ks ==> k in tally
    ensures Sum(tally, ks) == |Among(s, kind, ks)|
  {
    if ks == [] {
      assert Among(s, kind, ks) == {};
    } else {
      var k, rest := ks[0], ks[1..];
      assert ks == [k] + rest;
      assert k in ks;
      SumIsSize(tally, s, kind, rest);
      AmongCons(s, kind, k, rest);
    }
  }

  /** Nothing is lost between the counts: summed in any order, once each, they give the size of the set. */
  lemma TallySumsToSize<E, K(!new)>(tally: map<K, nat>, s: set<E>, kind: E -> K, ks: seq<K>)
    requires IsTally(tally, s, kind) && NoRepeats(ks) && forall k :: k in ks <==> k in tally
    ensures Sum(tally, ks) == |s|
  {
    SumIsSize(tally, s, kind, ks);
    assert Among(s, kind, ks) == s;
  }
}
