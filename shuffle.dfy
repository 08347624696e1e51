/** `std::shuffle` and `std::random_shuffle` with the random engine made
    explicit: `rng` is the stream of numbers the engine hands out, and the
    shuffle is the Fisher–Yates procedure driven by it. Every permutation of
    the input is reachable (PermutationReachable), so a caller that supplies
    `rng` supplies an arbitrary permutation. */
module Shuffling {

  /** The engine's next draw, reduced to an index below `n`; an exhausted
      stream draws 0. */
  function Draw(rng: seq<nat>, n: nat): (j: nat)
    requires n > 0
    ensures j < n
  {
    if rng == [] then 0 else rng[0] % n
  }

  lemma DrawBelow(rng: seq<nat>, n: nat)
    requires n > 0 && rng != [] && rng[0] < n
    ensures Draw(rng, n) == rng[0]
  {
  }

  function Advance(rng: seq<nat>): seq<nat> {
    if rng == [] then [] else rng[1..]
  }

  /** Exchanges positions `i` and `j`. */
  function Swap<T>(s: seq<T>, i: nat, j: nat): (r: seq<T>)
    requires i < |s| && j < |s|
    ensures |r| == |s| && r[i] == s[j] && r[j] == s[i]
    ensures forall k :: 0 <= k < |s| && k != i && k != j ==> r[k] == s[k]
    ensures multiset(r) == multiset(s)
  {
    s[i := s[j]][j := s[i]]
  }

  /** Fisher–Yates: draw the element for the last position, then shuffle
      what is left in front of it. */
  function Shuffle<T>(s: seq<T>, rng: seq<nat>): (r: seq<T>)
    ensures |r| == |s|
    ensures multiset(r) == multiset(s)
    decreases |s|
  {
    if |s| <= 1 then s
    else
      var last := |s| - 1;
      var t := Swap(s, Draw(rng, |s|), last);
      assert t == t[..last] + [t[last]];
      Shuffle(t[..last], Advance(rng)) + [t[last]]
  }

  lemma ShuffleUnfold<T>(s: seq<T>, rng: seq<nat>)
    requires |s| > 1
    ensures Shuffle(s, rng) ==
      Shuffle(Swap(s, Draw(rng, |s|), |s| - 1)[..|s| - 1], Advance(rng)) + [Swap(s, Draw(rng, |s|), |s| - 1)[|s| - 1]]
  {
  }

  /** Shuffling keeps exactly the elements of the input. */
  lemma ShuffleMembers<T>(s: seq<T>, rng: seq<nat>, x: T)
    ensures x in Shuffle(s, rng) <==> x in s
  {
    assert x in multiset(Shuffle(s, rng)) <==> x in multiset(s);
  }

  /** No two positions of `s` have the same key. */
  predicate DistinctBy<T, K(==)>(s: seq<T>, key: T -> K) {
    forall i, j :: 0 <= i < j < |s| ==> key(s[i]) != key(s[j])
  }

  /** Exchanging two positions keeps the keys distinct. */
  lemma SwapDistinctBy<T, K>(s: seq<T>, key: T -> K, a: nat, b: nat)
    requires DistinctBy(s, key) && a < |s| && b < |s|
    ensures DistinctBy(Swap(s, a, b), key)
  {
    var t := Swap(s, a, b);
    forall i, j | 0 <= i < j < |t| ensures key(t[i]) != key(t[j]) {
      var si := if i == a then b else if i == b then a else i;
      var sj := if j == a then b else if j == b then a else j;
      assert t[i] == s[si] && t[j] == s[sj] && si != sj;
    }
  }

  /** Appending an element whose key no element of a permutation of `front`
      has keeps the keys distinct. */
  lemma SnocDistinctBy<T, K>(front: seq<T>, u: seq<T>, x: T, key: T -> K)
    requires DistinctBy(u, key) && multiset(u) == multiset(front)
    requires forall m :: 0 <= m < |front| ==> key(front[m]) != key(x)
    ensures DistinctBy(u + [x], key)
  {
    forall k | 0 <= k < |u| ensures key(u[k]) != key(x) {
      assert u[k] in multiset(front);
      var m :| 0 <= m < |front| && front[m] == u[k];
    }
    var v := u + [x];
    forall i, j | 0 <= i < j < |v| ensures key(v[i]) != key(v[j]) {
      if j == |u| {
        assert v[i] == u[i] && v[j] == x;
      } else {
        assert v[i] == u[i] && v[j] == u[j];
      }
    }
  }

  /** A shuffle of a list whose keys do not repeat has no repeated key. */
  lemma {:induction false} ShuffleDistinctBy<T, K>(s: seq<T>, key: T -> K, rng: seq<nat>)
    requires DistinctBy(s, key)
    ensures DistinctBy(Shuffle(s, rng), key)
    decreases |s|
  {
    if |s| > 1 {
      var last := |s| - 1;
      var t := Swap(s, Draw(rng, |s|), last);
      SwapDistinctBy(s, key, Draw(rng, |s|), last);
      var front := t[..last];
      assert forall m :: 0 <= m < |front| ==> front[m] == t[m];
      ShuffleDistinctBy(front, key, Advance(rng));
      SnocDistinctBy(front, Shuffle(front, Advance(rng)), t[last], key);
      ShuffleUnfold(s, rng);
    }
  }

  /** The position of `x` in `s`. */
  function IndexOf<T(==)>(s: seq<T>, x: T): (i: nat)
    requires x in s
    ensures i < |s| && s[i] == x
  {
    if s[0] == x then 0 else 1 + IndexOf(s[1..], x)
  }

  /** Taking the last element of a permutation `t` of `s` to the end of `s`
      leaves two permutations of each other in front. */
  lemma PeelLast<T>(s: seq<T>, t: seq<T>)
    requires multiset(t) == multiset(s) && |s| > 1
    ensures |t| == |s| && t[|s| - 1] in s
    ensures var u := Swap(s, IndexOf(s, t[|s| - 1]), |s| - 1);
      u[|s| - 1] == t[|s| - 1] && multiset(t[..|s| - 1]) == multiset(u[..|s| - 1])
  {
    assert |t| == |s| by { assert |multiset(t)| == |multiset(s)|; }
    var last := |s| - 1;
    var x := t[last];
    assert x in multiset(t);
    var u := Swap(s, IndexOf(s, x), last);
    SplitLast(t);
    SplitLast(u);
    Cancel(multiset(t[..last]), multiset(u[..last]), x);
  }

  lemma LastSplit<T>(s: seq<T>)
    requires |s| > 0
    ensures s == s[..|s| - 1] + [s[|s| - 1]]
  {
  }

  lemma SplitLast<T>(s: seq<T>)
    requires |s| > 0
    ensures multiset(s) == multiset(s[..|s| - 1]) + multiset{s[|s| - 1]}
  {
    assert s == s[..|s| - 1] + [s[|s| - 1]];
  }

  lemma Cancel<T>(a: multiset<T>, b: multiset<T>, x: T)
    requires a + multiset{x} == b + multiset{x}
    ensures a == b
  {
    forall y ensures a[y] == b[y] {
      assert (a + multiset{x})[y] == (b + multiset{x})[y];
    }
  }

  /** Draws that make Shuffle produce `t` from `s`. */
  function DrawsFor<T(==)>(s: seq<T>, t: seq<T>): (rng: seq<nat>)
    requires multiset(t) == multiset(s)
    decreases |s|
  {
    if |s| <= 1 then []
    else
      PeelLast(s, t);
      var last := |s| - 1;
      var j := IndexOf(s, t[last]);
      var u := Swap(s, j, last);
      [j] + DrawsFor(u[..last], t[..last])
  }

  /** Every permutation of `s` is the shuffle of `s` for some draws. */
  lemma {:induction false} PermutationReachable<T>(s: seq<T>, t: seq<T>)
    requires multiset(t) == multiset(s)
    ensures Shuffle(s, DrawsFor(s, t)) == t
    decreases |s|
  {
    assert |t| == |s| by { assert |multiset(t)| == |multiset(s)|; }
    if |s| <= 1 {
      if |s| == 1 {
        assert t[0] in multiset(s);
      }
    } else {
      PeelLast(s, t);
      var last := |s| - 1;
      var j := IndexOf(s, t[last]);
      var u := Swap(s, j, last);
      var rest := DrawsFor(u[..last], t[..last]);
      var rng := DrawsFor(s, t);
      assert rng == [j] + rest;
      DrawBelow(rng, |s|);
      assert Advance(rng) == rest;
      PermutationReachable(u[..last], t[..last]);
      calc {
        Shuffle(s, rng);
        { ShuffleUnfold(s, rng); }
        Shuffle(Swap(s, Draw(rng, |s|), last)[..last], Advance(rng)) + [Swap(s, Draw(rng, |s|), last)[last]];
        Shuffle(u[..last], rest) + [u[last]];
        t[..last] + [t[last]];
        { LastSplit(t); }
        t;
      }
    }
  }
}
