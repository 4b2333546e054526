/** Reversing a diff swaps what it adds and what it removes. */
module DiffSymmetry {
  import opened Wrappers
  import opened Collections
  import opened JsonDiff
  import opened DiffExactness
  import opened Bags

  // ---------------------------------------------------------- expansion

  /** Expansion shows the same text under either mark, and nothing under the other. */
  ghost predicate Recolours(added: seq<DiffLine>, removed: seq<DiffLine>) {
    && Marked(added, Added) == Marked(removed, Removed)
    && Marked(added, Removed) == multiset{} && Marked(removed, Added) == multiset{}
  }

  lemma RecoloursConcat(x: seq<DiffLine>, x': seq<DiffLine>, y: seq<DiffLine>, y': seq<DiffLine>)
    requires Recolours(x, x') && Recolours(y, y')
    ensures Recolours(x + y, x' + y')
  {
    MarkedConcat(x, y, Added);
    MarkedConcat(x, y, Removed);
    MarkedConcat(x', y', Added);
    MarkedConcat(x', y', Removed);
  }

  lemma LineRecolours(depth: nat, text: string)
    ensures Recolours([DiffLine(depth, Added, text)], [DiffLine(depth, Removed, text)])
  {
    TextsOfLine(DiffLine(depth, Added, text), Added);
    TextsOfLine(DiffLine(depth, Added, text), Removed);
    TextsOfLine(DiffLine(depth, Removed, text), Added);
    TextsOfLine(DiffLine(depth, Removed, text), Removed);
    hide Texts;
  }

  lemma TextsOfLine(l: DiffLine, mark: Mark)
    ensures Texts([l], mark) == if l.mark == mark then [(l.depth, l.text)] else []
  {
    assert [l][1..] == [];
    assert Texts([], mark) == [];
  }

  lemma SameIsUnmarked(depth: nat, text: string, mark: Mark)
    requires mark != Same
    ensures Marked([DiffLine(depth, Same, text)], mark) == multiset{}
  {
    assert Texts([DiffLine(depth, Same, text)], mark) == [];
  }

  lemma FlushIsUnmarked(quiet: nat, depth: nat, mark: Mark)
    requires mark != Same
    ensures Marked(Flush(quiet, depth), mark) == multiset{}
  {
    if quiet > 0 {
      SameIsUnmarked(depth, Flush(quiet, depth)[0].text, mark);
    }
  }

  lemma {:induction false} ExpandRecolours(p: Printer, prefix: string, v: Json, depth: nat)
    ensures Recolours(ExpandLines(p, prefix, v, depth, Added), ExpandLines(p, prefix, v, depth, Removed))
    decreases v, 1
  {
    if v.Object? && v.fields != [] {
      ExpandFieldsRecolours(p, v.fields, depth + 1);
      BlockRecolours(depth, prefix + "{", ExpandFields(p, v.fields, depth + 1, Added),
                     ExpandFields(p, v.fields, depth + 1, Removed), "}");
    } else if v.Array? && v.items != [] && Inline(p, v.items).None? {
      ExpandItemsRecolours(p, v.items, depth + 1);
      BlockRecolours(depth, prefix + "[", ExpandItems(p, v.items, depth + 1, Added),
                     ExpandItems(p, v.items, depth + 1, Removed), "]");
    } else {
      LineRecolours(depth, prefix + Collapsed(p, v));
    }
  }

  lemma BlockRecolours(depth: nat, open: string, x: seq<DiffLine>, x': seq<DiffLine>, close: string)
    requires Recolours(x, x')
    ensures Recolours([DiffLine(depth, Added, open)] + x + [DiffLine(depth, Added, close)],
                      [DiffLine(depth, Removed, open)] + x' + [DiffLine(depth, Removed, close)])
  {
    LineRecolours(depth, open);
    LineRecolours(depth, close);
    RecoloursConcat([DiffLine(depth, Added, open)], [DiffLine(depth, Removed, open)], x, x');
    RecoloursConcat([DiffLine(depth, Added, open)] + x, [DiffLine(depth, Removed, open)] + x',
                    [DiffLine(depth, Added, close)], [DiffLine(depth, Removed, close)]);
  }

  lemma {:induction false} ExpandFieldsRecolours(p: Printer, fields: seq<Field>, depth: nat)
    ensures Recolours(ExpandFields(p, fields, depth, Added), ExpandFields(p, fields, depth, Removed))
    decreases fields, 0
  {
    if fields != [] {
      var prefix := Prefix(p, Some(fields[0].key));
      ExpandRecolours(p, prefix, fields[0].value, depth);
      ExpandFieldsRecolours(p, fields[1..], depth);
      RecoloursConcat(ExpandLines(p, prefix, fields[0].value, depth, Added),
                      ExpandLines(p, prefix, fields[0].value, depth, Removed),
                      ExpandFields(p, fields[1..], depth, Added), ExpandFields(p, fields[1..], depth, Removed));
    }
  }

  lemma {:induction false} ExpandItemsRecolours(p: Printer, items: seq<Json>, depth: nat)
    ensures Recolours(ExpandItems(p, items, depth, Added), ExpandItems(p, items, depth, Removed))
    decreases items, 0
  {
    if items != [] {
      ExpandRecolours(p, "", items[0], depth);
      ExpandItemsRecolours(p, items[1..], depth);
      RecoloursConcat(ExpandLines(p, "", items[0], depth, Added), ExpandLines(p, "", items[0], depth, Removed),
                      ExpandItems(p, items[1..], depth, Added), ExpandItems(p, items[1..], depth, Removed));
    }
  }

  // ---------------------------------------------------------- parts of a diff

  function NewItemPart(p: Printer, keyed: bool, before: seq<Json>, a: Json, depth: nat, mark: Mark): Bag {
    var j := IndexOf(ItemKeys(p, keyed, before), ItemKey(p, keyed, a));
    if j >= 0 then Marked(PairLines(p, "", before[j], a, depth), mark)
    else Marked(ExpandLines(p, "", a, depth, Added), mark)
  }

  lemma FlushedPart(quiet: nat, depth: nat, shown: seq<DiffLine>, rest: seq<DiffLine>, mark: Mark)
    requires mark != Same
    ensures Marked(Flush(quiet, depth) + shown + rest, mark) == Marked(shown, mark) + Marked(rest, mark)
  {
    MarkedConcat(Flush(quiet, depth) + shown, rest, mark);
    MarkedConcat(Flush(quiet, depth), shown, mark);
    FlushIsUnmarked(quiet, depth, mark);
  }

  function NewItemParts(p: Printer, keyed: bool, before: seq<Json>, after: seq<Json>, depth: nat,
                        mark: Mark): int -> Bag {
    i => if 0 <= i < |after| then NewItemPart(p, keyed, before, after[i], depth, mark) else multiset{}
  }

  lemma NewItemsStep(p: Printer, keyed: bool, before: seq<Json>, after: seq<Json>, k: nat, quiet: nat, depth: nat,
                     mark: Mark)
    requires k < |after| && mark != Same
    ensures
      var j := IndexOf(ItemKeys(p, keyed, before), ItemKey(p, keyed, after[k]));
      var quieter := if j >= 0 && !keyed && SameValue(before[j], after[k]) then quiet + 1 else 0;
      Marked(NewItemLines(p, keyed, before, after[k..], quiet, depth), mark)
      == NewItemPart(p, keyed, before, after[k], depth, mark) + Marked(NewItemLines(p, keyed, before, after[k + 1..],
          quieter, depth), mark)
  {
    var a := after[k];
    var j := IndexOf(ItemKeys(p, keyed, before), ItemKey(p, keyed, a));
    assert after[k..][1..] == after[k + 1..] && after[k..][0] == a;
    if j >= 0 && !keyed && SameValue(before[j], a) {
      SameIsUnmarked(depth, "" + Collapsed(p, a), mark);
    } else {
      hide PairLines, ExpandLines, IndexOf, SameValue, ItemKey, ItemKeys, Marked, Flush;
      FlushedPart(quiet, depth, ItemLines(p, keyed, before, a, depth),
                  NewItemLines(p, keyed, before, after[k + 1..], 0, depth), mark);
    }
  }

  lemma {:induction false} NewItemsSum(p: Printer, keyed: bool, before: seq<Json>, after: seq<Json>, k: nat,
                                       quiet: nat, depth: nat, mark: Mark)
    requires k <= |after| && mark != Same
    ensures Marked(NewItemLines(p, keyed, before, after[k..], quiet, depth), mark)
         == Sum(NewItemParts(p, keyed, before, after, depth, mark), k, |after|)
    decreases |after| - k
  {
    if k < |after| {
      hide NewItemLines, NewItemPart, IndexOf, SameValue, ItemKey, ItemKeys, Marked;
      var j := IndexOf(ItemKeys(p, keyed, before), ItemKey(p, keyed, after[k]));
      NewItemsStep(p, keyed, before, after, k, quiet, depth, mark);
      NewItemsSum(p, keyed, before, after, k + 1, if j >= 0 && !keyed && SameValue(before[j],
          after[k]) then quiet + 1 else 0, depth, mark);
    } else {
      FlushIsUnmarked(quiet, depth, mark);
    }
  }

  function OldItemParts(p: Printer, keyed: bool, before: seq<Json>, after: seq<Json>, depth: nat,
                        mark: Mark): int -> Bag {
    j => if 0 <= j < |before| && ItemKey(p, keyed, before[j]) !in ItemKeys(p, keyed, after)
      then Marked(ExpandLines(p, "", before[j], depth, Removed), mark) else multiset{}
  }

  lemma {:induction false} OldItemsSum(p: Printer, keyed: bool, before: seq<Json>, after: seq<Json>, k: nat,
                                       depth: nat, mark: Mark)
    requires k <= |before|
    ensures Marked(OldItemLines(p, keyed, before[k..], after, depth), mark)
         == Sum(OldItemParts(p, keyed, before, after, depth, mark), k, |before|)
    decreases |before| - k
  {
    if k < |before| {
      assert before[k..][1..] == before[k + 1..] && before[k..][0] == before[k];
      OldItemsSum(p, keyed, before, after, k + 1, depth, mark);
      hide ExpandLines, ItemKey, ItemKeys;
      var shown := if ItemKey(p, keyed, before[k]) in ItemKeys(p, keyed, after) then [] else ExpandLines(p, "",
          before[k], depth, Removed);
      MarkedConcat(shown, OldItemLines(p, keyed, before[k + 1..], after, depth), mark);
    }
  }

  function FieldPart(p: Printer, f: Field, after: seq<Field>, depth: nat, mark: Mark): Bag {
    var i := IndexOf(FieldKeys(after), f.key);
    if i >= 0 then Marked(PairLines(p, Prefix(p, Some(f.key)), f.value, after[i].value, depth), mark)
    else Marked(ExpandLines(p, Prefix(p, Some(f.key)), f.value, depth, Removed), mark)
  }

  function FieldParts(p: Printer, before: seq<Field>, after: seq<Field>, depth: nat, mark: Mark): int -> Bag {
    j => if 0 <= j < |before| then FieldPart(p, before[j], after, depth, mark) else multiset{}
  }

  lemma {:induction false} FieldsSum(p: Printer, before: seq<Field>, after: seq<Field>, k: nat, depth: nat, mark: Mark)
    requires k <= |before|
    ensures Marked(FieldLines(p, before[k..], after, depth), mark) == Sum(FieldParts(p, before, after, depth, mark), k,
        |before|)
    decreases |before| - k
  {
    if k < |before| {
      var f := before[k];
      assert before[k..][1..] == before[k + 1..] && before[k..][0] == f;
      FieldsSum(p, before, after, k + 1, depth, mark);
      hide PairLines, ExpandLines, IndexOf, Prefix;
      var i := IndexOf(FieldKeys(after), f.key);
      var shown := if i >= 0 then PairLines(p, Prefix(p, Some(f.key)), f.value, after[i].value, depth)
                   else ExpandLines(p, Prefix(p, Some(f.key)), f.value, depth, Removed);
      MarkedConcat(shown, FieldLines(p, before[k + 1..], after, depth), mark);
    }
  }

  function NewFieldParts(p: Printer, before: seq<Field>, after: seq<Field>, depth: nat, mark: Mark): int -> Bag {
    i => if 0 <= i < |after| && after[i].key !in FieldKeys(before)
      then Marked(ExpandLines(p, Prefix(p, Some(after[i].key)), after[i].value, depth, Added), mark) else multiset{}
  }

  lemma {:induction false} NewFieldsSum(p: Printer, before: seq<Field>, after: seq<Field>, k: nat, depth: nat,
                                        mark: Mark)
    requires k <= |after|
    ensures Marked(NewFieldLines(p, before, after[k..], depth),
                   mark) == Sum(NewFieldParts(p, before, after, depth, mark), k, |after|)
    decreases |after| - k
  {
    if k < |after| {
      var f := after[k];
      assert after[k..][1..] == after[k + 1..] && after[k..][0] == f;
      NewFieldsSum(p, before, after, k + 1, depth, mark);
      hide ExpandLines, Prefix, FieldKeys;
      var shown := if f.key in FieldKeys(before) then [] else ExpandLines(p, Prefix(p, Some(f.key)), f.value, depth,
          Added);
      MarkedConcat(shown, NewFieldLines(p, before, after[k + 1..], depth), mark);
    }
  }

  // ---------------------------------------------------------- equality is symmetric

  lemma {:induction false} SameValueSwaps(x: Json, y: Json)
    requires UniqueKeys(x) && UniqueKeys(y) && SameValue(x, y)
    ensures SameValue(y, x)
  {
    match (x, y)
    case (Array(p), Array(q)) =>
      forall i | 0 <= i < |p| ensures SameValue(q[i], p[i]) { SameValueSwaps(p[i], q[i]); }
    case (Object(f), Object(g)) =>
      var fk, gk := FieldKeys(f), FieldKeys(g);
      forall i | 0 <= i < |f| ensures fk[i] in gk { assert IndexOf(gk, f[i].key) >= 0; }
      DistinctFills(fk, gk);
      forall j | 0 <= j < |g|
        ensures var i := IndexOf(fk, g[j].key); i >= 0 && SameValue(g[j].value, f[i].value)
      {
        assert gk[j] in fk;
        var i := IndexOf(fk, g[j].key);
        DistinctIndex(gk, j);
        SameValueSwaps(f[i].value, g[j].value);
      }
    case _ =>
  }

  // ---------------------------------------------------------- the theorem

  lemma {:induction false} PairSwaps(p: Printer, prefix: string, b: Json, a: Json, depth: nat)
    requires Injective(p) && UniqueKeys(b) && UniqueKeys(a)
    ensures Marked(PairLines(p, prefix, b, a, depth), Added) == Marked(PairLines(p, prefix, a, b, depth), Removed)
    decreases b, 1
  {
    if SameValue(b, a) {
      SameValueSwaps(b, a);
      SameIsUnmarked(depth, prefix + Collapsed(p, a), Added);
      SameIsUnmarked(depth, prefix + Collapsed(p, b), Removed);
    } else if SameValue(a, b) {
      SameValueSwaps(a, b);
      assert false;
    } else if b.Object? && a.Object? {
      FieldsSwap(p, b.fields, a.fields, depth + 1);
      ObjectBlock(p, prefix, b, a, depth, Added);
      ObjectBlock(p, prefix, a, b, depth, Removed);
    } else if b.Array? && a.Array? {
      ItemsSwap(p, b.items, a.items, depth + 1);
      ArrayBlock(p, prefix, b, a, depth, Added);
      ArrayBlock(p, prefix, a, b, depth, Removed);
    } else {
      ExpandRecolours(p, prefix, b, depth);
      ExpandRecolours(p, prefix, a, depth);
      MarkedConcat(ExpandLines(p, prefix, b, depth, Removed), ExpandLines(p, prefix, a, depth, Added), Added);
      MarkedConcat(ExpandLines(p, prefix, a, depth, Removed), ExpandLines(p, prefix, b, depth, Added), Removed);
    }
  }

  lemma ObjectBlock(p: Printer, prefix: string, b: Json, a: Json, depth: nat, mark: Mark)
    requires b.Object? && a.Object? && !SameValue(b, a) && mark != Same
    ensures Marked(PairLines(p, prefix, b, a, depth), mark)
         == Marked(FieldLines(p, b.fields, a.fields, depth + 1) + NewFieldLines(p, b.fields, a.fields, depth + 1), mark)
  {
    hide FieldLines, NewFieldLines;
    var inner := FieldLines(p, b.fields, a.fields, depth + 1) + NewFieldLines(p, b.fields, a.fields, depth + 1);
    var open, close := DiffLine(depth, Same, prefix + "{"), DiffLine(depth, Same, "}");
    assert PairLines(p, prefix, b, a, depth) == [open] + inner + [close];
    MarkedBlock(open, inner, close, mark);
    SameIsUnmarked(depth, prefix + "{", mark);
    SameIsUnmarked(depth, "}", mark);
  }

  lemma ArrayBlock(p: Printer, prefix: string, b: Json, a: Json, depth: nat, mark: Mark)
    requires b.Array? && a.Array? && !SameValue(b, a) && mark != Same
    ensures Marked(PairLines(p, prefix, b, a, depth), mark) == Marked(ArrayLines(p, b.items, a.items, depth + 1), mark)
  {
    hide ArrayLines;
    MarkedBlock(DiffLine(depth, Same, prefix + "["), ArrayLines(p, b.items, a.items, depth + 1),
                DiffLine(depth, Same, "]"), mark);
    SameIsUnmarked(depth, prefix + "[", mark);
    SameIsUnmarked(depth, "]", mark);
  }

  function FieldPairTable(p: Printer, b: seq<Field>, a: seq<Field>, depth: nat): (int, int) -> Bag {
    (i, j) => if 0 <= i < |a| && 0 <= j < |b|
      then Marked(PairLines(p, Prefix(p, Some(b[j].key)), b[j].value, a[i].value, depth), Added) else multiset{}
  }

  function FieldOwnTable(p: Printer, a: seq<Field>, depth: nat): int -> Bag {
    i => if 0 <= i < |a|
      then Marked(ExpandLines(p, Prefix(p, Some(a[i].key)), a[i].value, depth, Added), Added) else multiset{}
  }

  lemma {:induction false} FieldsSwap(p: Printer, b: seq<Field>, a: seq<Field>, depth: nat)
    requires Injective(p) && UniqueKeys(Object(b)) && UniqueKeys(Object(a))
    ensures Marked(FieldLines(p, b, a, depth) + NewFieldLines(p, b, a, depth), Added)
         == Marked(FieldLines(p, a, b, depth) + NewFieldLines(p, a, b, depth), Removed)
    decreases b, 0
  {
    forall i, j | 0 <= i < |a| && 0 <= j < |b|
      ensures Marked(PairLines(p, Prefix(p, Some(b[j].key)), b[j].value, a[i].value, depth), Added)
           == Marked(PairLines(p, Prefix(p, Some(b[j].key)), a[i].value, b[j].value, depth), Removed)
    {
      PairSwaps(p, Prefix(p, Some(b[j].key)), b[j].value, a[i].value, depth);
    }
    FieldsSwapMatched(p, b, a, depth);
    FieldsTotal(p, b, a, depth, Added);
    FieldsTotal(p, a, b, depth, Removed);
  }

  predicate FieldPairsSwap(p: Printer, b: seq<Field>, a: seq<Field>, depth: nat) {
    forall i, j :: 0 <= i < |a| && 0 <= j < |b| ==>
      Marked(PairLines(p, Prefix(p, Some(b[j].key)), b[j].value, a[i].value, depth), Added)
        == Marked(PairLines(p, Prefix(p, Some(b[j].key)), a[i].value, b[j].value, depth), Removed)
  }

  lemma FieldRows(p: Printer, b: seq<Field>, a: seq<Field>, depth: nat)
    requires FieldPairsSwap(p, b, a, depth)
    ensures FromNewer(FieldKeys(b), FieldKeys(a), FieldPairTable(p, b, a, depth), FieldOwnTable(p, a, depth),
                      FieldParts(p, a, b, depth, Removed))
    ensures Alone(FieldKeys(b), FieldKeys(a), FieldOwnTable(p, a, depth), NewFieldParts(p, b, a, depth, Added))
  {
    hide PairLines, ExpandLines, IndexOf, Prefix, Marked;
    var bk, ak := FieldKeys(b), FieldKeys(a);
    var w, own := FieldPairTable(p, b, a, depth), FieldOwnTable(p, a, depth);
    forall i | 0 <= i < |a|
      ensures FieldParts(p, a, b, depth, Removed)(i) == if ak[i] in bk then w(i, IndexOf(bk, ak[i])) else own(i)
      ensures NewFieldParts(p, b, a, depth, Added)(i) == if ak[i] in bk then multiset{} else own(i)
    {
      ExpandRecolours(p, Prefix(p, Some(a[i].key)), a[i].value, depth);
    }
  }

  lemma FieldColumns(p: Printer, b: seq<Field>, a: seq<Field>, depth: nat)
    ensures FromOlder(FieldKeys(b), FieldKeys(a), FieldPairTable(p, b, a, depth), FieldParts(p, b, a, depth, Added))
    ensures forall j :: 0 <= j < |b| ==> NewFieldParts(p, a, b, depth, Removed)(j) == multiset{}
  {
    hide PairLines, ExpandLines, IndexOf, Prefix, Marked;
    var bk, ak := FieldKeys(b), FieldKeys(a);
    var w := FieldPairTable(p, b, a, depth);
    forall j | 0 <= j < |b|
      ensures FieldParts(p, b, a, depth, Added)(j) == if bk[j] in ak then w(IndexOf(ak, bk[j]), j) else multiset{}
      ensures NewFieldParts(p, a, b, depth, Removed)(j) == multiset{}
    {
      ExpandRecolours(p, Prefix(p, Some(b[j].key)), b[j].value, depth);
    }
  }

  lemma FieldsSwapMatched(p: Printer, b: seq<Field>, a: seq<Field>, depth: nat)
    requires Distinct(FieldKeys(b)) && Distinct(FieldKeys(a)) && FieldPairsSwap(p, b, a, depth)
    ensures Sum(FieldParts(p, b, a, depth, Added), 0, |b|) + Sum(NewFieldParts(p, b, a, depth, Added), 0, |a|)
         == Sum(FieldParts(p, a, b, depth, Removed), 0, |a|) + Sum(NewFieldParts(p, a, b, depth, Removed), 0, |b|)
  {
    hide Distinct, FieldPairsSwap, FieldParts, NewFieldParts, FieldPairTable, FieldOwnTable;
    hide FromNewer, FromOlder, Alone, Sum;
    FieldRows(p, b, a, depth);
    FieldColumns(p, b, a, depth);
    MatchedSums(FieldKeys(b), FieldKeys(a), FieldPairTable(p, b, a, depth), FieldOwnTable(p, a, depth),
                FieldParts(p, a, b, depth, Removed), FieldParts(p, b, a, depth, Added), NewFieldParts(p, b, a, depth,
                    Added));
    SumEmpty(NewFieldParts(p, a, b, depth, Removed), 0, |b|);
  }

  lemma FieldsTotal(p: Printer, b: seq<Field>, a: seq<Field>, depth: nat, mark: Mark)
    ensures Marked(FieldLines(p, b, a, depth) + NewFieldLines(p, b, a, depth), mark)
         == Sum(FieldParts(p, b, a, depth, mark), 0, |b|) + Sum(NewFieldParts(p, b, a, depth, mark), 0, |a|)
  {
    MarkedConcat(FieldLines(p, b, a, depth), NewFieldLines(p, b, a, depth), mark);
    FieldsSum(p, b, a, 0, depth, mark);
    NewFieldsSum(p, b, a, 0, depth, mark);
    assert b[0..] == b && a[0..] == a;
  }

  lemma ItemsTotal(p: Printer, b: seq<Json>, a: seq<Json>, depth: nat, mark: Mark)
    requires mark != Same
    ensures var keyed := Keyed(b, a);
      Marked(ArrayLines(p, b, a, depth), mark)
         == Sum(NewItemParts(p, keyed, b, a, depth, mark), 0, |a|) + Sum(OldItemParts(p, keyed, b, a, depth, mark), 0,
             |b|)
  {
    var keyed := Keyed(b, a);
    MarkedConcat(NewItemLines(p, keyed, b, a, 0, depth), OldItemLines(p, keyed, b, a, depth), mark);
    NewItemsSum(p, keyed, b, a, 0, 0, depth, mark);
    OldItemsSum(p, keyed, b, a, 0, depth, mark);
    assert b[0..] == b && a[0..] == a;
  }

  lemma KeysDistinct(p: Printer, items: seq<Json>, keyed: bool)
    requires Injective(p) && UniqueKeys(Array(items)) && (keyed ==> AllIds(items))
    ensures Distinct(ItemKeys(p, keyed, items))
  {
    if keyed {
      assert ItemKeys(p, keyed, items) == Ids(items);
    }
  }

  function PairTable(p: Printer, b: seq<Json>, a: seq<Json>, depth: nat): (int, int) -> Bag {
    (i, j) => if 0 <= i < |a| && 0 <= j < |b| then Marked(PairLines(p, "", b[j], a[i], depth), Added) else multiset{}
  }

  function OwnTable(p: Printer, a: seq<Json>, depth: nat): int -> Bag {
    i => if 0 <= i < |a| then Marked(ExpandLines(p, "", a[i], depth, Added), Added) else multiset{}
  }

  lemma {:induction false} ItemsSwap(p: Printer, b: seq<Json>, a: seq<Json>, depth: nat)
    requires Injective(p) && UniqueKeys(Array(b)) && UniqueKeys(Array(a))
    ensures Marked(ArrayLines(p, b, a, depth), Added) == Marked(ArrayLines(p, a, b, depth), Removed)
    decreases b, 0
  {
    forall i, j | 0 <= i < |a| && 0 <= j < |b|
      ensures Marked(PairLines(p, "", b[j], a[i], depth), Added) == Marked(PairLines(p, "", a[i], b[j], depth), Removed)
    {
      PairSwaps(p, "", b[j], a[i], depth);
    }
    var keyed := Keyed(b, a);
    KeysDistinct(p, b, keyed);
    KeysDistinct(p, a, keyed);
    ItemsSwapMatched(p, keyed, b, a, depth);
    ItemsTotal(p, b, a, depth, Added);
    ItemsTotal(p, a, b, depth, Removed);
  }

  predicate ItemPairsSwap(p: Printer, b: seq<Json>, a: seq<Json>, depth: nat) {
    forall i, j :: 0 <= i < |a| && 0 <= j < |b| ==>
      Marked(PairLines(p, "", b[j], a[i], depth), Added) == Marked(PairLines(p, "", a[i], b[j], depth), Removed)
  }

  lemma ItemRows(p: Printer, keyed: bool, b: seq<Json>, a: seq<Json>, depth: nat)
    ensures FromNewer(ItemKeys(p, keyed, b), ItemKeys(p, keyed, a), PairTable(p, b, a, depth), OwnTable(p, a, depth),
                      NewItemParts(p, keyed, b, a, depth, Added))
    ensures Alone(ItemKeys(p, keyed, b), ItemKeys(p, keyed, a), OwnTable(p, a, depth),
                  OldItemParts(p, keyed, a, b, depth, Removed))
  {
    hide PairLines, ExpandLines, IndexOf, ItemKey, Marked;
    var bk, ak := ItemKeys(p, keyed, b), ItemKeys(p, keyed, a);
    var w, own := PairTable(p, b, a, depth), OwnTable(p, a, depth);
    forall i | 0 <= i < |a|
      ensures NewItemParts(p, keyed, b, a, depth, Added)(i) == if ak[i] in bk then w(i, IndexOf(bk, ak[i])) else own(i)
      ensures OldItemParts(p, keyed, a, b, depth, Removed)(i) == if ak[i] in bk then multiset{} else own(i)
    {
      ExpandRecolours(p, "", a[i], depth);
    }
  }

  lemma ItemColumns(p: Printer, keyed: bool, b: seq<Json>, a: seq<Json>, depth: nat)
    requires ItemPairsSwap(p, b, a, depth)
    ensures FromOlder(ItemKeys(p, keyed, b), ItemKeys(p, keyed, a), PairTable(p, b, a, depth),
                      NewItemParts(p, keyed, a, b, depth, Removed))
    ensures forall j :: 0 <= j < |b| ==> OldItemParts(p, keyed, b, a, depth, Added)(j) == multiset{}
  {
    hide PairLines, ExpandLines, IndexOf, ItemKey, Marked;
    var bk, ak := ItemKeys(p, keyed, b), ItemKeys(p, keyed, a);
    var w := PairTable(p, b, a, depth);
    forall j | 0 <= j < |b|
      ensures NewItemParts(p, keyed, a, b, depth, Removed)(j) == if bk[j] in ak then w(IndexOf(ak, bk[j]),
          j) else multiset{}
      ensures OldItemParts(p, keyed, b, a, depth, Added)(j) == multiset{}
    {
      ExpandRecolours(p, "", b[j], depth);
    }
  }

  lemma ItemsSwapMatched(p: Printer, keyed: bool, b: seq<Json>, a: seq<Json>, depth: nat)
    requires Distinct(ItemKeys(p, keyed, b)) && Distinct(ItemKeys(p, keyed, a)) && ItemPairsSwap(p, b, a, depth)
    ensures Sum(NewItemParts(p, keyed, b, a, depth, Added), 0, |a|) + Sum(OldItemParts(p, keyed, b, a, depth, Added),
        0, |b|)
         == Sum(NewItemParts(p, keyed, a, b, depth, Removed), 0,
                |b|) + Sum(OldItemParts(p, keyed, a, b, depth, Removed), 0, |a|)
  {
    hide Distinct, ItemPairsSwap, NewItemParts, OldItemParts, PairTable, OwnTable, FromNewer, FromOlder, Alone, Sum;
    ItemRows(p, keyed, b, a, depth);
    ItemColumns(p, keyed, b, a, depth);
    MatchedSums(ItemKeys(p, keyed, b), ItemKeys(p, keyed, a), PairTable(p, b, a, depth), OwnTable(p, a, depth),
                NewItemParts(p, keyed, b, a, depth, Added), NewItemParts(p, keyed, a, b, depth, Removed),
                OldItemParts(p, keyed, a, b, depth, Removed));
    SumEmpty(OldItemParts(p, keyed, b, a, depth, Added), 0, |b|);
  }

  /** With unique keys, what a diff adds is what the reversed diff removes, and
      the other way round: the same lines at the same depths, as often. */
  lemma DiffIsSymmetric(p: Printer, b: Json, a: Json)
    requires Injective(p) && UniqueKeys(b) && UniqueKeys(a)
    ensures Marked(DiffLines(p, Some(b), a), Added) == Marked(DiffLines(p, Some(a), b), Removed)
    ensures Marked(DiffLines(p, Some(b), a), Removed) == Marked(DiffLines(p, Some(a), b), Added)
  {
    PairSwaps(p, "", b, a, 0);
    PairSwaps(p, "", a, b, 0);
  }
}
