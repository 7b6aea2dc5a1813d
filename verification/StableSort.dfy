/** What `slice::sort_by_key` promises (sorted, equal keys keep their order), and that the promise fixes the result. */
module StableSort {
  import opened Sequences

  ghost predicate Sorted<T>(key: T -> int, s: seq<T>) {
    forall i, j :: 0 <= i < j < |s| ==> key(s[i]) <= key(s[j])
  }

  function AtKey<T>(key: T -> int, k: int): T -> bool {
    x => key(x) == k
  }

  function WithKey<T>(key: T -> int, k: int, s: seq<T>): seq<T> {
    Filter(AtKey(key, k), s)
  }

  /** `t` holds, for every key, the elements of `s` with that key in the order `s` has them. */
  ghost predicate SameByKey<T>(key: T -> int, s: seq<T>, t: seq<T>) {
    forall k: int :: WithKey(key, k, s) == WithKey(key, k, t)
  }

  /** Puts `x`, which came before all of `s`, in front of the first element whose key is not smaller. */
  function Insert<T>(key: T -> int, x: T, s: seq<T>): seq<T> {
    if s == [] then [x]
    else if key(x) <= key(s[0]) then [x] + s
    else [s[0]] + Insert(key, x, s[1..])
  }

  function SortByKey<T>(key: T -> int, s: seq<T>): seq<T> {
    if s == [] then [] else Insert(key, s[0], SortByKey(key, s[1..]))
  }

  lemma {:induction false} InsertMembers<T>(key: T -> int, x: T, s: seq<T>)
    ensures multiset(Insert(key, x, s)) == multiset{x} + multiset(s)
    ensures |Insert(key, x, s)| == 1 + |s|
  {
    if s != [] && key(x) > key(s[0]) {
      InsertMembers(key, x, s[1..]);
      assert s == [s[0]] + s[1..];
    }
  }

  lemma SortedCons<T>(key: T -> int, x: T, s: seq<T>)
    requires Sorted(key, s)
    requires forall y :: y in s ==> key(x) <= key(y)
    ensures Sorted(key, [x] + s)
  {
  }

  lemma SortedHead<T>(key: T -> int, s: seq<T>)
    requires Sorted(key, s) && s != []
    ensures forall y :: y in s ==> key(s[0]) <= key(y)
  {
  }

  lemma {:induction false} InsertSorted<T>(key: T -> int, x: T, s: seq<T>)
    requires Sorted(key, s)
    ensures Sorted(key, Insert(key, x, s))
  {
    if s == [] {
    } else if key(x) <= key(s[0]) {
      SortedCons(key, x, s);
    } else {
      InsertSorted(key, x, s[1..]);
      var r := Insert(key, x, s[1..]);
      InsertMembers(key, x, s[1..]);
      forall y | y in r
        ensures key(s[0]) <= key(y)
      {
        assert y in multiset(r);
        assert y == x || y in s[1..];
      }
      SortedCons(key, s[0], r);
    }
  }

  lemma {:induction false} FilterCons<T>(p: T -> bool, x: T, s: seq<T>)
    ensures Filter(p, [x] + s) == (if p(x) then [x] else []) + Filter(p, s)
  {
    assert ([x] + s)[1..] == s;
  }

  lemma {:induction false} InsertKeepsKeyOrder<T>(key: T -> int, x: T, s: seq<T>, k: int)
    ensures WithKey(key, k, Insert(key, x, s)) == WithKey(key, k, [x] + s)
  {
    if s == [] || key(x) <= key(s[0]) {
      assert Insert(key, x, s) == [x] + s;
    } else {
      var p, ins := AtKey(key, k), Insert(key, x, s[1..]);
      InsertKeepsKeyOrder(key, x, s[1..], k);
      FilterCons(p, s[0], ins);
      FilterCons(p, x, s[1..]);
      FilterCons(p, x, s);
    }
  }

  lemma {:induction false} InsertKeepsStability<T>(key: T -> int, x: T, s: seq<T>, r: seq<T>)
    requires SameByKey(key, s, r)
    ensures SameByKey(key, [x] + s, Insert(key, x, r))
  {
    forall k: int
      ensures WithKey(key, k, [x] + s) == WithKey(key, k, Insert(key, x, r))
    {
      InsertKeepsKeyOrder(key, x, r, k);
      FilterCons(AtKey(key, k), x, s);
      FilterCons(AtKey(key, k), x, r);
      assert WithKey(key, k, s) == WithKey(key, k, r);
    }
  }

  /** The sort is a sorted, stable permutation. */
  lemma {:induction false} SortIsStable<T>(key: T -> int, s: seq<T>)
    ensures Sorted(key, SortByKey(key, s))
    ensures SameByKey(key, s, SortByKey(key, s))
    ensures multiset(SortByKey(key, s)) == multiset(s)
    ensures |SortByKey(key, s)| == |s|
  {
    if s != [] {
      var r := SortByKey(key, s[1..]);
      SortIsStable(key, s[1..]);
      InsertSorted(key, s[0], r);
      InsertMembers(key, s[0], r);
      assert s == [s[0]] + s[1..];
      InsertKeepsStability(key, s[0], s[1..], r);
    }
  }

  lemma EmptyByKey<T>(key: T -> int, t: seq<T>)
    requires SameByKey(key, [], t)
    ensures t == []
  {
    assert t != [] ==> WithKey(key, key(t[0]), []) == WithKey(key, key(t[0]), t);
  }

  lemma HeadHasSmallestKey<T>(key: T -> int, s: seq<T>, t: seq<T>)
    requires s != [] && Sorted(key, t) && SameByKey(key, s, t)
    ensures t != [] && key(t[0]) <= key(s[0])
  {
    var k := key(s[0]);
    assert WithKey(key, k, s) == WithKey(key, k, t);
    assert s[0] in WithKey(key, k, s);
    FilterMembers(AtKey(key, k), t);
    assert s[0] in t;
  }

  /** Two sorted sequences that agree key by key are equal, so any correct stable sort returns `SortByKey`. */
  lemma {:induction false} StableOrderIsUnique<T>(key: T -> int, s: seq<T>, t: seq<T>)
    requires Sorted(key, s) && Sorted(key, t) && SameByKey(key, s, t)
    ensures s == t
    decreases |s|
  {
    if s == [] {
      EmptyByKey(key, t);
    } else {
      HeadHasSmallestKey(key, s, t);
      HeadHasSmallestKey(key, t, s);
      var k0 := key(s[0]);
      assert WithKey(key, k0, s) == WithKey(key, k0, t);
      assert WithKey(key, k0, s)[0] == s[0];
      forall k: int
        ensures WithKey(key, k, s[1..]) == WithKey(key, k, t[1..])
      {
        assert WithKey(key, k, s) == WithKey(key, k, t);
        assert k == k0 ==> WithKey(key, k, s)[1..] == WithKey(key, k, s[1..]);
        assert k == k0 ==> WithKey(key, k, t)[1..] == WithKey(key, k, t[1..]);
      }
      StableOrderIsUnique(key, s[1..], t[1..]);
      assert s == [s[0]] + s[1..] && t == [t[0]] + t[1..];
    }
  }

  lemma SortedHeadOfRest<T>(key: T -> int, s: seq<T>)
    requires Sorted(key, s) && s != []
    ensures forall y :: y in s[1..] ==> key(s[0]) <= key(y)
  {
    assert s == [s[0]] + s[1..];
    SortedHead(key, s);
  }

  lemma {:induction false} SortedFilter<T>(key: T -> int, p: T -> bool, s: seq<T>)
    requires Sorted(key, s)
    ensures Sorted(key, Filter(p, s))
  {
    if s != [] {
      SortedFilter(key, p, s[1..]);
      FilterMembers(p, s[1..]);
      SortedHeadOfRest(key, s);
      SortedCons(key, s[0], Filter(p, s[1..]));
    }
  }

  /** Sorting and dropping elements commute. */
  lemma {:induction false} FilterOfSort<T>(key: T -> int, p: T -> bool, s: seq<T>)
    ensures Filter(p, SortByKey(key, s)) == SortByKey(key, Filter(p, s))
  {
    var t := SortByKey(key, s);
    SortIsStable(key, s);
    SortIsStable(key, Filter(p, s));
    SortedFilter(key, p, t);
    forall k: int
      ensures WithKey(key, k, Filter(p, t)) == WithKey(key, k, SortByKey(key, Filter(p, s)))
    {
      assert WithKey(key, k, s) == WithKey(key, k, t);
      FilterTwice(AtKey(key, k), p, t);
      FilterTwice(AtKey(key, k), p, s);
      assert WithKey(key, k, Filter(p, s)) == WithKey(key, k, SortByKey(key, Filter(p, s)));
    }
    StableOrderIsUnique(key, Filter(p, t), SortByKey(key, Filter(p, s)));
  }

  lemma {:induction false} InsertOfMap<A, B>(f: A -> B, ka: A -> int, kb: B -> int, x: A, s: seq<A>)
    requires forall a :: kb(f(a)) == ka(a)
    ensures Insert(kb, f(x), Map(f, s)) == Map(f, Insert(ka, x, s))
  {
    if s != [] {
      assert Map(f, s)[1..] == Map(f, s[1..]);
      InsertOfMap(f, ka, kb, x, s[1..]);
      assert kb(f(s[0])) == ka(s[0]) && kb(f(x)) == ka(x);
    }
  }

  /** Sorting and a relabelling that keeps the keys commute. */
  lemma {:induction false} SortOfMap<A, B>(f: A -> B, ka: A -> int, kb: B -> int, s: seq<A>)
    requires forall a :: kb(f(a)) == ka(a)
    ensures SortByKey(kb, Map(f, s)) == Map(f, SortByKey(ka, s))
  {
    if s != [] {
      SortOfMap(f, ka, kb, s[1..]);
      assert Map(f, s)[1..] == Map(f, s[1..]);
      InsertOfMap(f, ka, kb, s[0], SortByKey(ka, s[1..]));
    }
  }
}
