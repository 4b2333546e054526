/** Sums of multisets of lines, and the sum over two lists matched by key. */
module Bags {
  import opened Collections
  import opened JsonDiff

  type Bag = multiset<(nat, string)>

  function Sum(f: int -> Bag, lo: int, hi: int): Bag
    decreases hi - lo
  {
    if lo >= hi then multiset{} else f(lo) + Sum(f, lo + 1, hi)
  }

  lemma {:induction false} SumAdds(f: int -> Bag, g: int -> Bag, h: int -> Bag, lo: int, hi: int)
    requires forall i :: lo <= i < hi ==> h(i) == f(i) + g(i)
    ensures Sum(h, lo, hi) == Sum(f, lo, hi) + Sum(g, lo, hi)
    decreases hi - lo
  {
    if lo < hi {
      SumAdds(f, g, h, lo + 1, hi);
    }
  }

  lemma {:induction false} SumEmpty(f: int -> Bag, lo: int, hi: int)
    requires forall i :: lo <= i < hi ==> f(i) == multiset{}
    ensures Sum(f, lo, hi) == multiset{}
    decreases hi - lo
  {
    if lo < hi {
      SumEmpty(f, lo + 1, hi);
    }
  }

  lemma {:induction false} SumEqual(f: int -> Bag, g: int -> Bag, lo: int, hi: int)
    requires forall i :: lo <= i < hi ==> f(i) == g(i)
    ensures Sum(f, lo, hi) == Sum(g, lo, hi)
    decreases hi - lo
  {
    if lo < hi {
      SumEqual(f, g, lo + 1, hi);
    }
  }

  /** A sum with one term that may not be empty. */
  lemma {:induction false} SumSingle(f: int -> Bag, k: int, lo: int, hi: int)
    requires lo <= k < hi && forall i :: lo <= i < hi && i != k ==> f(i) == multiset{}
    ensures Sum(f, lo, hi) == f(k)
    decreases hi - lo
  {
    if lo == k {
      SumEmpty(f, lo + 1, hi);
    } else {
      SumSingle(f, k, lo + 1, hi);
    }
  }

  function Row(w: (int, int) -> Bag, i: int): int -> Bag { j => w(i, j) }
  function Column(w: (int, int) -> Bag, j: int): int -> Bag { i => w(i, j) }
  function RowSums(w: (int, int) -> Bag, n: int): int -> Bag { i => Sum(Row(w, i), 0, n) }
  function ColumnSums(w: (int, int) -> Bag, k: int, m: int): int -> Bag { j => Sum(Column(w, j), k, m) }

  /** Adding a table up by rows or by columns. */
  lemma {:induction false} Exchange(w: (int, int) -> Bag, k: int, m: int, n: int)
    requires k <= m
    ensures Sum(RowSums(w, n), k, m) == Sum(ColumnSums(w, k, m), 0, n)
    decreases m - k
  {
    if k == m {
      SumEmpty(ColumnSums(w, k, m), 0, n);
    } else {
      Exchange(w, k + 1, m, n);
      SumAdds(Row(w, k), ColumnSums(w, k + 1, m), ColumnSums(w, k, m), 0, n);
    }
  }

  /** The table of matched pairs: newer items by older items. */
  function Pairs(older: seq<string>, newer: seq<string>, w: (int, int) -> Bag): (int, int) -> Bag {
    (i, j) => if 0 <= i < |newer| && 0 <= j < |older| && newer[i] == older[j] then w(i, j) else multiset{}
  }

  predicate FromNewer(older: seq<string>, newer: seq<string>, w: (int, int) -> Bag, own: int -> Bag, f: int -> Bag) {
    forall i :: 0 <= i < |newer| ==> f(i) == if newer[i] in older then w(i, IndexOf(older, newer[i])) else own(i)
  }

  predicate FromOlder(older: seq<string>, newer: seq<string>, w: (int, int) -> Bag, f: int -> Bag) {
    forall j :: 0 <= j < |older| ==> f(j) == if older[j] in newer then w(IndexOf(newer, older[j]), j) else multiset{}
  }

  predicate Alone(older: seq<string>, newer: seq<string>, own: int -> Bag, f: int -> Bag) {
    forall i :: 0 <= i < |newer| ==> f(i) == if newer[i] in older then multiset{} else own(i)
  }

  /** Terms of matched pairs, counted from either list: each newer item gives
      its pair's term or, unmatched, a term of its own. */
  lemma MatchedSums(older: seq<string>, newer: seq<string>, w: (int, int) -> Bag, own: int -> Bag,
                    byNewer: int -> Bag, byOlder: int -> Bag, alone: int -> Bag)
    requires Distinct(older) && Distinct(newer)
    requires FromNewer(older, newer, w, own, byNewer)
    requires FromOlder(older, newer, w, byOlder)
    requires Alone(older, newer, own, alone)
    ensures Sum(byNewer, 0, |newer|) == Sum(byOlder, 0, |older|) + Sum(alone, 0, |newer|)
  {
    var d := Pairs(older, newer, w);
    hide Distinct, FromNewer, FromOlder, Alone, ColumnSums, RowSums, Pairs, Sum;
    forall j | 0 <= j < |older| ensures ColumnSums(d, 0, |newer|)(j) == byOlder(j) {
      ColumnMatches(older, newer, w, byOlder, j);
    }
    forall i | 0 <= i < |newer| ensures byNewer(i) == RowSums(d, |older|)(i) + alone(i) {
      RowMatches(older, newer, w, own, byNewer, alone, i);
    }
    AddUp(d, byNewer, byOlder, alone, |newer|, |older|);
  }

  lemma ColumnMatches(older: seq<string>, newer: seq<string>, w: (int, int) -> Bag, byOlder: int -> Bag, j: int)
    requires Distinct(newer) && FromOlder(older, newer, w, byOlder) && 0 <= j < |older|
    ensures ColumnSums(Pairs(older, newer, w), 0, |newer|)(j) == byOlder(j)
  {
    hide Distinct, Sum, IndexOf;
    OneMatch(newer, older[j], Column(Pairs(older, newer, w), j), Column(w, j));
  }

  lemma RowMatches(older: seq<string>, newer: seq<string>, w: (int, int) -> Bag, own: int -> Bag,
                   byNewer: int -> Bag, alone: int -> Bag, i: int)
    requires Distinct(older) && FromNewer(older, newer, w, own, byNewer) && Alone(older, newer, own,
        alone) && 0 <= i < |newer|
    ensures byNewer(i) == RowSums(Pairs(older, newer, w), |older|)(i) + alone(i)
  {
    hide Distinct, Sum, IndexOf;
    OneMatch(older, newer[i], Row(Pairs(older, newer, w), i), Row(w, i));
  }

  lemma AddUp(d: (int, int) -> Bag, byNewer: int -> Bag, byOlder: int -> Bag, alone: int -> Bag, m: int, n: int)
    requires 0 <= m && 0 <= n
    requires forall j :: 0 <= j < n ==> ColumnSums(d, 0, m)(j) == byOlder(j)
    requires forall i :: 0 <= i < m ==> byNewer(i) == RowSums(d, n)(i) + alone(i)
    ensures Sum(byNewer, 0, m) == Sum(byOlder, 0, n) + Sum(alone, 0, m)
  {
    Exchange(d, 0, m, n);
    SumEqual(ColumnSums(d, 0, m), byOlder, 0, n);
    SumAdds(RowSums(d, n), alone, byNewer, 0, m);
  }

  lemma OneMatch(keys: seq<string>, k: string, f: int -> Bag, w: int -> Bag)
    requires Distinct(keys)
    requires forall i :: 0 <= i < |keys| ==> f(i) == if keys[i] == k then w(i) else multiset{}
    ensures Sum(f, 0, |keys|) == if k in keys then w(IndexOf(keys, k)) else multiset{}
  {
    if k in keys {
      SumSingle(f, IndexOf(keys, k), 0, |keys|);
    } else {
      SumEmpty(f, 0, |keys|);
    }
  }

  // ---------------------------------------------------------- lines

  /** The lines of one mark, with how often each occurs. */
  function Marked(lines: seq<DiffLine>, mark: Mark): Bag {
    multiset(Texts(lines, mark))
  }

  function Texts(lines: seq<DiffLine>, mark: Mark): seq<(nat, string)> {
    if lines == [] then []
    else (if lines[0].mark == mark then [(lines[0].depth, lines[0].text)] else []) + Texts(lines[1..], mark)
  }

  lemma {:induction false} TextsConcat(x: seq<DiffLine>, y: seq<DiffLine>, mark: Mark)
    ensures Texts(x + y, mark) == Texts(x, mark) + Texts(y, mark)
  {
    if x == [] {
      assert x + y == y;
    } else {
      TextsConcat(x[1..], y, mark);
      assert (x + y)[1..] == x[1..] + y;
    }
  }

  lemma MarkedConcat(x: seq<DiffLine>, y: seq<DiffLine>, mark: Mark)
    ensures Marked(x + y, mark) == Marked(x, mark) + Marked(y, mark)
  {
    TextsConcat(x, y, mark);
  }

  lemma MarkedBlock(open: DiffLine, x: seq<DiffLine>, close: DiffLine, mark: Mark)
    ensures Marked([open] + x + [close], mark) == Marked([open], mark) + Marked(x, mark) + Marked([close], mark)
  {
    MarkedConcat([open] + x, [close], mark);
    MarkedConcat([open], x, mark);
  }
}
