/** Folds, filters and stable ordering over sequences: the simple specification the three accountings meet. */
module Sequences {

  function Map<A, B>(f: A -> B, s: seq<A>): (r: seq<B>)
    ensures |r| == |s|
    ensures forall i :: 0 <= i < |s| ==> r[i] == f(s[i])
  {
    seq(|s|, i requires 0 <= i < |s| => f(s[i]))
  }

  lemma MapMembers<A, B>(f: A -> B, s: seq<A>)
    ensures forall a :: a in s ==> f(a) in Map(f, s)
    ensures forall b :: b in Map(f, s) ==> exists a :: a in s && b == f(a)
  {
    forall a | a in s
      ensures f(a) in Map(f, s)
    {
      var i :| 0 <= i < |s| && s[i] == a;
      assert Map(f, s)[i] == f(a);
    }
    forall b | b in Map(f, s)
      ensures exists a :: a in s && b == f(a)
    {
      var i :| 0 <= i < |s| && Map(f, s)[i] == b;
      assert s[i] in s;
    }
  }

  function Filter<T>(p: T -> bool, s: seq<T>): seq<T> {
    if s == [] then []
    else if p(s[0]) then [s[0]] + Filter(p, s[1..])
    else Filter(p, s[1..])
  }

  /** The true (unbounded) sum of a weight over a sequence. */
  function Sum<T>(w: T -> nat, s: seq<T>): nat {
    if s == [] then 0 else w(s[0]) + Sum(w, s[1..])
  }

  lemma {:induction false} SumConcat<T>(w: T -> nat, s: seq<T>, t: seq<T>)
    ensures Sum(w, s + t) == Sum(w, s) + Sum(w, t)
  {
    if s == [] {
      assert s + t == t;
    } else {
      assert (s + t)[1..] == s[1..] + t;
      SumConcat(w, s[1..], t);
    }
  }

  lemma {:induction false} SumSnoc<T>(w: T -> nat, s: seq<T>, k: nat)
    requires k < |s|
    ensures Sum(w, s[..k + 1]) == Sum(w, s[..k]) + w(s[k])
  {
    assert s[..k + 1] == s[..k] + [s[k]];
    SumConcat(w, s[..k], [s[k]]);
  }

  /** A prefix never weighs more than the whole. */
  lemma {:induction false} SumPrefix<T>(w: T -> nat, s: seq<T>, k: nat)
    requires k <= |s|
    ensures Sum(w, s[..k]) <= Sum(w, s)
  {
    assert s == s[..k] + s[k..];
    SumConcat(w, s[..k], s[k..]);
  }

  lemma {:induction false} SumMap<A, B>(f: A -> B, v: B -> nat, w: A -> nat, s: seq<A>)
    requires forall a :: a in s ==> v(f(a)) == w(a)
    ensures Sum(v, Map(f, s)) == Sum(w, s)
  {
    if s != [] {
      assert Map(f, s)[1..] == Map(f, s[1..]);
      SumMap(f, v, w, s[1..]);
    }
  }

  /** Weights add pointwise. */
  lemma {:induction false} SumSplit<T>(w: T -> nat, u: T -> nat, v: T -> nat, s: seq<T>)
    requires forall x :: x in s ==> w(x) == u(x) + v(x)
    ensures Sum(w, s) == Sum(u, s) + Sum(v, s)
  {
    if s != [] {
      SumSplit(w, u, v, s[1..]);
    }
  }

  lemma {:induction false} SumMonotone<T>(w: T -> nat, v: T -> nat, s: seq<T>)
    requires forall x :: x in s ==> w(x) <= v(x)
    ensures Sum(w, s) <= Sum(v, s)
    ensures Sum(w, s) == Sum(v, s) ==> forall x :: x in s ==> w(x) == v(x)
  {
    if s != [] {
      SumMonotone(w, v, s[1..]);
      assert s == [s[0]] + s[1..];
    }
  }

  lemma {:induction false} SumIsZero<T>(w: T -> nat, s: seq<T>)
    ensures Sum(w, s) == 0 <==> forall x :: x in s ==> w(x) == 0
  {
    if s != [] {
      SumIsZero(w, s[1..]);
      assert s == [s[0]] + s[1..];
    }
  }

  /** Dropping elements of weight zero leaves the sum as it was; keeping all others is what filtering by `p` does. */
  lemma {:induction false} SumFilter<T>(w: T -> nat, v: T -> nat, p: T -> bool, s: seq<T>)
    requires forall x :: x in s ==> v(x) == if p(x) then w(x) else 0
    ensures Sum(w, Filter(p, s)) == Sum(v, s)
  {
    if s != [] {
      SumFilter(w, v, p, s[1..]);
    }
  }

  function Without<T>(t: seq<T>, k: nat): (r: seq<T>)
    requires k < |t|
    ensures |r| == |t| - 1
  {
    t[..k] + t[k + 1..]
  }

  /** Taking one element out of a sequence takes one copy of it out of the multiset. */
  lemma WithoutOne<T>(t: seq<T>, k: nat)
    requires k < |t|
    ensures multiset(Without(t, k)) == multiset(t) - multiset{t[k]}
  {
    assert t == t[..k] + [t[k]] + t[k + 1..];
  }

  lemma {:induction false} SumWithoutOne<T>(w: T -> nat, t: seq<T>, k: nat)
    requires k < |t|
    ensures Sum(w, t) == w(t[k]) + Sum(w, Without(t, k))
  {
    assert t == t[..k] + ([t[k]] + t[k + 1..]);
    SumConcat(w, t[..k], [t[k]] + t[k + 1..]);
    SumConcat(w, t[..k], t[k + 1..]);
  }

  /** The head of a sequence stands somewhere in each of its permutations, and the rests are permutations too. */
  lemma HeadInPermutation<T>(s: seq<T>, t: seq<T>) returns (k: nat)
    requires multiset(s) == multiset(t) && s != []
    ensures k < |t| && t[k] == s[0] && multiset(s[1..]) == multiset(Without(t, k))
  {
    assert s[0] in multiset(t);
    k :| 0 <= k < |t| && t[k] == s[0];
    WithoutOne(s, 0);
    WithoutOne(t, k);
    assert Without(s, 0) == s[1..];
  }

  /** Sums do not see the order of the elements. */
  lemma {:induction false} SumPermutation<T>(w: T -> nat, s: seq<T>, t: seq<T>)
    requires multiset(s) == multiset(t)
    ensures Sum(w, s) == Sum(w, t)
  {
    if s == [] {
      assert |multiset(t)| == 0;
    } else {
      var k := HeadInPermutation(s, t);
      SumPermutation(w, s[1..], Without(t, k));
      SumWithoutOne(w, t, k);
    }
  }

  lemma {:induction false} FilterConcat<T>(p: T -> bool, s: seq<T>, t: seq<T>)
    ensures Filter(p, s + t) == Filter(p, s) + Filter(p, t)
  {
    if s == [] {
      assert s + t == t;
    } else {
      assert (s + t)[1..] == s[1..] + t;
      FilterConcat(p, s[1..], t);
    }
  }

  lemma {:induction false} FilterSnoc<T>(p: T -> bool, s: seq<T>, k: nat)
    requires k < |s|
    ensures Filter(p, s[..k + 1]) == Filter(p, s[..k]) + (if p(s[k]) then [s[k]] else [])
  {
    assert s[..k + 1] == s[..k] + [s[k]];
    FilterConcat(p, s[..k], [s[k]]);
  }

  /** Membership in a filtered sequence, and when filtering changes nothing. */
  lemma {:induction false} FilterMembers<T>(p: T -> bool, s: seq<T>)
    ensures forall x :: x in Filter(p, s) ==> x in s && p(x)
    ensures forall x :: x in s && p(x) ==> x in Filter(p, s)
    ensures |Filter(p, s)| <= |s|
    ensures (forall x :: x in s ==> p(x)) ==> Filter(p, s) == s
    ensures Filter(p, s) == [] <==> forall x :: x in s ==> !p(x)
  {
    if s != [] {
      FilterMembers(p, s[1..]);
      assert s == [s[0]] + s[1..];
    }
  }

  lemma {:induction false} FilterMap<A, B>(f: A -> B, p: B -> bool, q: A -> bool, s: seq<A>)
    requires forall a :: a in s ==> (p(f(a)) <==> q(a))
    ensures Filter(p, Map(f, s)) == Map(f, Filter(q, s))
  {
    if s != [] {
      FilterMap(f, p, q, s[1..]);
      assert Map(f, s)[1..] == Map(f, s[1..]);
      assert Map(f, s)[0] == f(s[0]);
      if q(s[0]) {
        assert Map(f, [s[0]] + Filter(q, s[1..])) == [f(s[0])] + Map(f, Filter(q, s[1..]));
      }
    }
  }

  lemma {:induction false} FilterSame<T>(p: T -> bool, q: T -> bool, s: seq<T>)
    requires forall x :: x in s ==> (p(x) <==> q(x))
    ensures Filter(p, s) == Filter(q, s)
  {
    if s != [] {
      FilterSame(p, q, s[1..]);
    }
  }

  lemma {:induction false} FilterTwice<T>(p: T -> bool, q: T -> bool, s: seq<T>)
    ensures Filter(p, Filter(q, s)) == Filter(q, Filter(p, s))
  {
    if s != [] {
      FilterTwice(p, q, s[1..]);
      var rp, rq := Filter(p, s[1..]), Filter(q, s[1..]);
      assert ([s[0]] + rp)[1..] == rp && ([s[0]] + rq)[1..] == rq;
    }
  }

  lemma SameMembers<T>(s: seq<T>, t: seq<T>)
    requires multiset(s) == multiset(t)
    ensures forall x :: x in s <==> x in t
  {
    forall x
      ensures x in s <==> x in t
    {
      assert x in multiset(s) <==> x in multiset(t);
    }
  }

  // ---- Regrouping of concatenations: the pieces written one after the other, and the pieces read one at a time ----

  lemma Regroup3<T>(a: seq<T>, b: seq<T>, c: seq<T>)
    ensures a + b + c == a + (b + c)
  {
  }

  lemma Regroup4<T>(a: seq<T>, b: seq<T>, c: seq<T>, d: seq<T>)
    ensures a + b + c + d == a + (b + c + d)
    ensures a + b + c + d == a + (b + (c + d))
  {
  }

  lemma Regroup5<T>(a: seq<T>, b: seq<T>, c: seq<T>, d: seq<T>, e: seq<T>)
    ensures a + b + c + d + e == a + (b + c + d + e)
    ensures a + b + c + d + e == a + (b + (c + (d + e)))
  {
  }

  lemma Regroup6<T>(a: seq<T>, b: seq<T>, c: seq<T>, d: seq<T>, e: seq<T>, f: seq<T>)
    ensures a + b + c + d + e + f == a + (b + c + d + e + f)
    ensures a + b + c + d + e + f == a + (b + (c + (d + (e + f))))
  {
  }

  lemma Regroup8<T>(a: seq<T>, b: seq<T>, c: seq<T>, d: seq<T>, e: seq<T>, f: seq<T>, g: seq<T>, h: seq<T>)
    ensures a + b + c + d + e + f + g + h == a + (b + c + d + e + f + g + h)
    ensures a + b + c + d + e + f + g + h == a + (b + (c + (d + (e + (f + (g + h))))))
  {
  }

  lemma EmptyEnds<T>(s: seq<T>)
    ensures [] + s == s && s + [] == s
  {
  }
}
