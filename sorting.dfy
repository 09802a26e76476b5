/** The list operations the orderings use: Python's stable `list.sort`
    (with `reverse`), `list.reverse()` and `random.shuffle`. */
module Sorting {

  /** `le(a, b)`: `a` may stay before `b`. Python's sort only asks `<`;
      `le(a, b)` is "not `b < a`", which is total for the keys used here. */
  ghost predicate Total<T(!new)>(le: (T, T) -> bool) {
    forall a, b :: le(a, b) || le(b, a)
  }

  ghost predicate Transitive<T(!new)>(le: (T, T) -> bool) {
    forall a, b, c :: le(a, b) && le(b, c) ==> le(a, c)
  }

  /** Each element may stay before the next. */
  predicate Sorted<T>(xs: seq<T>, le: (T, T) -> bool) {
    forall i :: 0 <= i < |xs| - 1 ==> le(xs[i], xs[i + 1])
  }

  /** `x` goes before the first element it may stay before, so it stays
      ahead of elements equal to it. */
  function Insert<T>(x: T, xs: seq<T>, le: (T, T) -> bool): (r: seq<T>)
    ensures |r| == |xs| + 1
  {
    if xs == [] || le(x, xs[0]) then [x] + xs else [xs[0]] + Insert(x, xs[1..], le)
  }

  /** `sorted(xs, key=...)`: a stable sort, so elements with equal keys keep
      their order. With `le(a, b)` meaning "`key(a) >= key(b)`" it is
      `reverse=True`, which Python also keeps stable. */
  function SortBy<T>(xs: seq<T>, le: (T, T) -> bool): (r: seq<T>)
    ensures |r| == |xs|
  {
    if xs == [] then [] else Insert(xs[0], SortBy(xs[1..], le), le)
  }

  lemma {:induction false} InsertMultiset<T>(x: T, xs: seq<T>, le: (T, T) -> bool)
    ensures multiset(Insert(x, xs, le)) == multiset{x} + multiset(xs)
  {
    if xs != [] && !le(x, xs[0]) {
      InsertMultiset(x, xs[1..], le);
      assert xs == [xs[0]] + xs[1..];
    }
  }

  /** Sorting rearranges the elements: none is lost or added. */
  lemma {:induction false} SortByMultiset<T>(xs: seq<T>, le: (T, T) -> bool)
    ensures multiset(SortBy(xs, le)) == multiset(xs)
  {
    if xs != [] {
      SortByMultiset(xs[1..], le);
      InsertMultiset(xs[0], SortBy(xs[1..], le), le);
      assert xs == [xs[0]] + xs[1..];
    }
  }

  lemma {:induction false} InsertSorted<T(!new)>(x: T, xs: seq<T>, le: (T, T) -> bool)
    requires Total(le) && Sorted(xs, le)
    ensures Sorted(Insert(x, xs, le), le)
    ensures Insert(x, xs, le)[0] == x || (xs != [] && Insert(x, xs, le)[0] == xs[0])
  {
    if xs != [] && !le(x, xs[0]) {
      InsertSorted(x, xs[1..], le);
      assert le(xs[0], x);
    }
  }

  /** The result is in order. */
  lemma {:induction false} SortBySorted<T(!new)>(xs: seq<T>, le: (T, T) -> bool)
    requires Total(le)
    ensures Sorted(SortBy(xs, le), le)
  {
    if xs != [] {
      SortBySorted(xs[1..], le);
      InsertSorted(xs[0], SortBy(xs[1..], le), le);
    }
  }

  /** A list that is already in order is left as it is. */
  lemma {:induction false} SortBySortedIdentity<T>(xs: seq<T>, le: (T, T) -> bool)
    requires Sorted(xs, le)
    ensures SortBy(xs, le) == xs
  {
    if xs != [] {
      SortBySortedIdentity(xs[1..], le);
      assert xs == [xs[0]] + xs[1..];
    }
  }

  /** `xs == sorted(xs)` holds exactly when `xs` is in order: the test the
      orderings use to decide the direction of the next sort. */
  lemma SortedIffUnchanged<T(!new)>(xs: seq<T>, le: (T, T) -> bool)
    requires Total(le)
    ensures SortBy(xs, le) == xs <==> Sorted(xs, le)
  {
    SortBySorted(xs, le);
    if Sorted(xs, le) {
      SortBySortedIdentity(xs, le);
    }
  }

  /** `list.reverse()`. */
  function Reverse<T>(xs: seq<T>): (r: seq<T>)
    ensures |r| == |xs|
    ensures forall i :: 0 <= i < |xs| ==> r[i] == xs[|xs| - 1 - i]
  {
    if xs == [] then [] else Reverse(xs[1..]) + [xs[0]]
  }

  /** Reversing twice gives the list back, and keeps the elements. */
  lemma ReverseReverse<T>(xs: seq<T>)
    ensures Reverse(Reverse(xs)) == xs
  {
  }

  lemma {:induction false} ReverseMultiset<T>(xs: seq<T>)
    ensures multiset(Reverse(xs)) == multiset(xs)
  {
    if xs != [] {
      ReverseMultiset(xs[1..]);
      assert xs == [xs[0]] + xs[1..];
    }
  }

  /** A list in order reversed is in the opposite order. */
  lemma ReverseSorted<T>(xs: seq<T>, le: (T, T) -> bool)
    requires Sorted(xs, le)
    ensures Sorted(Reverse(xs), (a, b) => le(b, a))
  {
    var r := Reverse(xs);
    forall i | 0 <= i < |r| - 1 ensures le(r[i + 1], r[i]) {
      assert r[i + 1] == xs[|xs| - 2 - i] && r[i] == xs[|xs| - 1 - i];
    }
  }

  /** The choices `random.shuffle` makes: for `i` from the last index down
      to 1, an index `j <= i` to swap with (`picks[k]` for `i = n - 1 - k`). */
  predicate ValidPicks(n: nat, picks: seq<nat>) {
    |picks| == (if n == 0 then 0 else n - 1)
    && forall k :: 0 <= k < |picks| ==> picks[k] <= n - 1 - k
  }

  /** The swaps from the `k`-th on applied to `r`: index `n - 1 - k` with
      `picks[k]`. */
  function SwapsFrom<T>(r: seq<T>, picks: seq<nat>, k: nat): seq<T>
    requires ValidPicks(|r|, picks) && k <= |picks|
    decreases |picks| - k
  {
    if k == |picks| then r
    else
      var i := |r| - 1 - k;
      var j := picks[k];
      SwapsFrom(r[i := r[j]][j := r[i]], picks, k + 1)
  }

  /** The order `random.shuffle` leaves for the choices `picks`. */
  function Shuffled<T>(xs: seq<T>, picks: seq<nat>): seq<T>
    requires ValidPicks(|xs|, picks)
  {
    SwapsFrom(xs, picks, 0)
  }

  /** `random.shuffle(xs)`: the Fisher-Yates swaps, with the random
      choices given as `picks`. */
  method Shuffle<T>(xs: seq<T>, picks: seq<nat>) returns (r: seq<T>)
    requires ValidPicks(|xs|, picks)
    ensures r == Shuffled(xs, picks)
    ensures |r| == |xs| && multiset(r) == multiset(xs)
  {
    r := xs;
    var k := 0;
    while k < |picks|
      invariant 0 <= k <= |picks| && |r| == |xs| && multiset(r) == multiset(xs)
      invariant SwapsFrom(r, picks, k) == Shuffled(xs, picks)
    {
      var i := |xs| - 1 - k;
      var j := picks[k];
      SwapMultiset(r, i, j);
      r := r[i := r[j]][j := r[i]];
      k := k + 1;
    }
  }

  lemma SwapMultiset<T>(s: seq<T>, i: nat, j: nat)
    requires i < |s| && j < |s|
    ensures multiset(s[i := s[j]][j := s[i]]) == multiset(s)
  {
    if i != j {
      var t := s[i := s[j]];
      assert multiset(t) == multiset(s) - multiset{s[i]} + multiset{s[j]};
      assert multiset(t[j := s[i]]) == multiset(t) - multiset{t[j]} + multiset{s[i]};
    }
  }
}
