/** Facts about sequences and sets shared by the other modules. */
module Collections {

  /** The first position of `x`, or -1. */
  function IndexOf<T(==)>(s: seq<T>, x: T): (i: int)
    ensures -1 <= i < |s|
    ensures i >= 0 ==> s[i] == x && forall j :: 0 <= j < i ==> s[j] != x
    ensures i < 0 ==> x !in s
  {
    if s == [] then -1
    else if s[0] == x then 0
    else var i := IndexOf(s[1..], x); if i < 0 then -1 else i + 1
  }

  lemma {:induction false} IndexOfConcat<T>(s: seq<T>, t: seq<T>, x: T)
    ensures IndexOf(s + t, x) ==
      if x in s then IndexOf(s, x) else if x in t then |s| + IndexOf(t, x) else -1
  {
    if s == [] {
      assert s + t == t;
    } else {
      assert (s + t)[1..] == s[1..] + t;
      IndexOfConcat(s[1..], t, x);
    }
  }

  lemma {:induction false} SmallerSubset<T>(x: set<T>, y: set<T>)
    requires x <= y
    ensures |x| <= |y|
  {
    if x != {} {
      var k :| k in x;
      SmallerSubset(x - {k}, y - {k});
    }
  }

  lemma Member<T>(s: set<T>) returns (x: T)
    requires s != {}
    ensures x in s
  {
    x :| x in s;
  }

  // ---------------------------------------------------------- without repetition

  predicate Distinct<T(==)>(s: seq<T>) {
    forall i, j :: 0 <= i < j < |s| ==> s[i] != s[j]
  }

  lemma {:induction false} DistinctCount<T>(s: seq<T>, x: T)
    requires Distinct(s)
    ensures multiset(s)[x] == if x in s then 1 else 0
  {
    if s != [] {
      var init := s[..|s| - 1];
      assert s == init + [s[|s| - 1]];
      DistinctCount(init, x);
      assert x in s <==> x in init || x == s[|s| - 1];
    }
  }

  /** Without repetition, being a reordering is having the same members. */
  lemma SameMembers<T>(s: seq<T>, t: seq<T>)
    requires Distinct(s) && Distinct(t)
    ensures multiset(s) == multiset(t) <==>
      (forall i :: 0 <= i < |s| ==> s[i] in t) && (forall i :: 0 <= i < |t| ==> t[i] in s)
  {
    if multiset(s) == multiset(t) {
      forall i | 0 <= i < |s| ensures s[i] in t { assert s[i] in multiset(s); }
      forall i | 0 <= i < |t| ensures t[i] in s { assert t[i] in multiset(t); }
    }
    if (forall i :: 0 <= i < |s| ==> s[i] in t) && (forall i :: 0 <= i < |t| ==> t[i] in s) {
      forall x ensures multiset(s)[x] == multiset(t)[x] {
        DistinctCount(s, x);
        DistinctCount(t, x);
      }
    }
  }

  lemma DistinctIndex<T>(keys: seq<T>, j: int)
    requires Distinct(keys) && 0 <= j < |keys|
    ensures IndexOf(keys, keys[j]) == j
  {
  }

  /** Distinct members inside another list of the same length are all of it. */
  lemma DistinctFills<T>(f: seq<T>, g: seq<T>)
    requires Distinct(f) && Distinct(g) && |f| == |g| && forall i :: 0 <= i < |f| ==> f[i] in g
    ensures forall j :: 0 <= j < |g| ==> g[j] in f
  {
    var fs, gs := set k | k in f, set k | k in g;
    DistinctSize(f);
    DistinctSize(g);
    assert fs <= gs;
    if exists k :: k in gs && k !in fs {
      var k :| k in gs && k !in fs;
      SmallerSubset(fs, gs - {k});
      assert false;
    }
    forall j | 0 <= j < |g| ensures g[j] in f { assert g[j] in gs; }
  }

  lemma {:induction false} DistinctSize<T>(f: seq<T>)
    requires Distinct(f)
    ensures |set k | k in f| == |f|
  {
    if f != [] {
      var init := f[..|f| - 1];
      DistinctSize(init);
      assert (set k | k in f) == (set k | k in init) + {f[|f| - 1]};
    }
  }

  lemma DistinctParts<T>(x: seq<T>, y: seq<T>)
    ensures Distinct(x + y) <==> Distinct(x) && Distinct(y) && forall i :: 0 <= i < |x| ==> x[i] !in y
  {
    if Distinct(x + y) {
      assert forall i :: 0 <= i < |x| ==> x[i] == (x + y)[i];
      assert forall j :: 0 <= j < |y| ==> y[j] == (x + y)[|x| + j];
    }
  }

  lemma DistinctReplaced<T>(s: seq<T>, i: int, x: T)
    requires Distinct(s) && 0 <= i < |s| && (x == s[i] || x !in s)
    ensures Distinct(s[i := x])
  {
  }

  lemma DistinctSwapped<T>(x: seq<T>, y: seq<T>)
    ensures Distinct(x + y) <==> Distinct(y + x)
  {
    DistinctParts(x, y);
    DistinctParts(y, x);
  }

  // ---------------------------------------------------------- permutations

  /** Every position below `n`, once. */
  predicate IsPermutation(m: seq<int>, n: nat) {
    |m| == n && Distinct(m) && forall i :: 0 <= i < n ==> 0 <= m[i] < n
  }

  lemma PermutationHits(m: seq<int>, n: nat, j: int) returns (i: int)
    requires IsPermutation(m, n) && 0 <= j < n
    ensures 0 <= i < n && m[i] == j
  {
    var all := seq(n, k => k);
    forall k | 0 <= k < n ensures m[k] in all { assert all[m[k]] == m[k]; }
    DistinctFills(m, all);
    assert all[j] in m;
    i :| 0 <= i < n && m[i] == j;
  }

  lemma IdentityPermutes(n: nat) returns (m: seq<int>)
    ensures IsPermutation(m, n) && forall i :: 0 <= i < n ==> m[i] == i
  {
    m := seq(n, i => i);
  }
}
