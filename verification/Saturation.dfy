/** Running totals that saturate on the way: each is the true sum, capped once. */
module Saturation {
  import opened Words
  import opened Sequences

  /**
   * What a counter that starts at zero holds after `acc = acc.saturating_add(w(x))` for each `x` of `s` in turn. The
   * weights are words wherever this is used, and `Cap` leaves a word as it is.
   */
  function Chain<T>(w: T -> nat, s: seq<T>): U64 {
    if s == [] then 0 else SatAdd(Chain(w, s[..|s| - 1]), Cap(w(s[|s| - 1])))
  }

  /** One more round of the loop. */
  lemma {:induction false} ChainSnoc<T>(w: T -> nat, s: seq<T>, x: T)
    ensures Chain(w, s + [x]) == SatAdd(Chain(w, s), Cap(w(x)))
  {
    assert (s + [x])[..|s|] == s;
  }

  /** However often the counter saturates, it ends at the true sum or, where that does not fit, at the maximum. */
  lemma {:induction false} ChainIsCappedSum<T>(w: T -> nat, s: seq<T>)
    ensures Chain(w, s) == Cap(Sum(w, s))
    ensures Chain(w, s) == if Sum(w, s) < 0x1_0000_0000_0000_0000 then Sum(w, s) else 0xFFFF_FFFF_FFFF_FFFF
  {
    if s != [] {
      var k := |s| - 1;
      ChainIsCappedSum(w, s[..k]);
      SumSnoc(w, s, k);
      CapAdd(Sum(w, s[..k]), w(s[k]));
      assert s[..k + 1] == s;
    }
  }

  /** A saturating total does not depend on the order of its terms. */
  lemma {:induction false} ChainIgnoresOrder<T>(w: T -> nat, s: seq<T>, t: seq<T>)
    requires multiset(s) == multiset(t)
    ensures Chain(w, s) == Chain(w, t)
  {
    ChainIsCappedSum(w, s);
    ChainIsCappedSum(w, t);
    SumPermutation(w, s, t);
  }

  /** Skipping the terms outside `p`, or counting them as zero, comes to the same. */
  lemma {:induction false} ChainDropsZeros<T>(w: T -> nat, v: T -> nat, p: T -> bool, s: seq<T>)
    requires forall x :: x in s ==> v(x) == if p(x) then w(x) else 0
    ensures Chain(w, Filter(p, s)) == Chain(v, s)
  {
    ChainIsCappedSum(w, Filter(p, s));
    ChainIsCappedSum(v, s);
    SumFilter(w, v, p, s);
  }

  /** Two counters kept apart and added with saturation are one counter for both, whichever of them saturates. */
  lemma {:induction false} ChainSplits<T>(w: T -> nat, u: T -> nat, v: T -> nat, s: seq<T>)
    requires forall x :: x in s ==> w(x) == u(x) + v(x)
    ensures SatAdd(Chain(u, s), Chain(v, s)) == Chain(w, s)
  {
    ChainIsCappedSum(w, s);
    ChainIsCappedSum(u, s);
    ChainIsCappedSum(v, s);
    SumSplit(w, u, v, s);
    CapAdd(Sum(u, s), Sum(v, s));
  }
}
