/** When the diff of two documents shows no change. */
module DiffExactness {
  import opened Wrappers
  import opened Collections
  import opened JsonDiff

  predicate AllSame(lines: seq<DiffLine>) {
    forall i :: 0 <= i < |lines| ==> lines[i].mark == Same
  }

  lemma AllSameConcat(x: seq<DiffLine>, y: seq<DiffLine>)
    ensures AllSame(x + y) <==> AllSame(x) && AllSame(y)
  {
    if AllSame(x + y) {
      assert forall i :: 0 <= i < |x| ==> x[i] == (x + y)[i];
      assert forall i :: 0 <= i < |y| ==> y[i] == (x + y)[|x| + i];
    }
  }

  lemma ExpandShows(p: Printer, prefix: string, v: Json, depth: nat, mark: Mark)
    requires mark != Same
    ensures !AllSame(ExpandLines(p, prefix, v, depth, mark))
  {
    assert ExpandLines(p, prefix, v, depth, mark)[0].mark == mark;
  }

  // ---------------------------------------------------------- all documents

  /** Two values show no change when they are equal, or are objects of the same
      keys, or arrays of the same keys, whose matched parts show none. An array
      item is matched with the first older item of its key. */
  predicate Unmoved(p: Printer, b: Json, a: Json)
    decreases b, 1
  {
    || SameValue(b, a)
    || (b.Object? && a.Object? && FieldsUnmoved(p, b.fields, a.fields))
    || (b.Array? && a.Array? && ItemsUnmoved(p, b.items, a.items, Keyed(b.items, a.items)))
  }

  predicate FieldsUnmoved(p: Printer, before: seq<Field>, after: seq<Field>)
    decreases before, 0
  {
    && (forall i :: 0 <= i < |before| ==>
          var j := IndexOf(FieldKeys(after), before[i].key);
          j >= 0 && Unmoved(p, before[i].value, after[j].value))
    && (forall i :: 0 <= i < |after| ==> after[i].key in FieldKeys(before))
  }

  predicate ItemsUnmoved(p: Printer, before: seq<Json>, after: seq<Json>, keyed: bool)
    decreases before, 2
  {
    && (forall i :: 0 <= i < |after| ==> ItemUnmoved(p, before, after[i], keyed))
    && (forall j :: 0 <= j < |before| ==> ItemKey(p, keyed, before[j]) in ItemKeys(p, keyed, after))
  }

  predicate ItemUnmoved(p: Printer, before: seq<Json>, a: Json, keyed: bool)
    decreases before, 0
  {
    var j := IndexOf(ItemKeys(p, keyed, before), ItemKey(p, keyed, a));
    j >= 0 && Unmoved(p, before[j], a)
  }

  lemma {:induction false} PairExact(p: Printer, prefix: string, b: Json, a: Json, depth: nat)
    ensures AllSame(PairLines(p, prefix, b, a, depth)) <==> Unmoved(p, b, a)
    decreases b, 1
  {
    if !SameValue(b, a) {
      hide FieldLines, NewFieldLines, NewItemLines, OldItemLines, FieldsUnmoved, ItemsUnmoved;
      hide IndexOf, SameValue, Keyed;
      if b.Object? && a.Object? {
        ObjectExact(p, prefix + "{", b, a, depth);
      } else if b.Array? && a.Array? {
        ArrayExact(p, prefix + "[", b, a, depth);
      } else {
        AllSameConcat(ExpandLines(p, prefix, b, depth, Removed), ExpandLines(p, prefix, a, depth, Added));
        ExpandShows(p, prefix, b, depth, Removed);
      }
    }
  }

  lemma {:induction false} ObjectExact(p: Printer, text: string, b: Json, a: Json, depth: nat)
    requires b.Object? && a.Object?
    ensures
      AllSame([DiffLine(depth, Same, text)] + FieldLines(p, b.fields, a.fields, depth + 1)
              + NewFieldLines(p, b.fields, a.fields, depth + 1) + [DiffLine(depth, Same, "}")])
      <==> FieldsUnmoved(p, b.fields, a.fields)
    decreases b, 0
  {
    hide FieldLines, NewFieldLines, IndexOf;
    var open, close := [DiffLine(depth, Same, text)], [DiffLine(depth, Same, "}")];
    var older, added := FieldLines(p, b.fields, a.fields, depth + 1), NewFieldLines(p, b.fields, a.fields, depth + 1);
    AllSameConcat(open + older + added, close);
    AllSameConcat(open + older, added);
    AllSameConcat(open, older);
    FieldsExact(p, b.fields, a.fields, depth + 1);
    NewFieldsExact(p, b.fields, a.fields, depth + 1);
  }

  lemma {:induction false} ArrayExact(p: Printer, text: string, b: Json, a: Json, depth: nat)
    requires b.Array? && a.Array?
    ensures
      AllSame([DiffLine(depth, Same, text)] + ArrayLines(p, b.items, a.items, depth + 1) + [DiffLine(depth, Same, "]")])
      <==> ItemsUnmoved(p, b.items, a.items, Keyed(b.items, a.items))
    decreases b, 0
  {
    hide NewItemLines, OldItemLines, IndexOf, Keyed;
    var open, close := [DiffLine(depth, Same, text)], [DiffLine(depth, Same, "]")];
    var keyed := Keyed(b.items, a.items);
    AllSameConcat(open + ArrayLines(p, b.items, a.items, depth + 1), close);
    AllSameConcat(open, ArrayLines(p, b.items, a.items, depth + 1));
    AllSameConcat(NewItemLines(p, keyed, b.items, a.items, 0, depth + 1),
                  OldItemLines(p, keyed, b.items, a.items, depth + 1));
    NewItemsExact(p, keyed, b.items, a.items, 0, depth + 1);
    OldItemsExact(p, keyed, b.items, a.items, depth + 1);
  }

  lemma {:induction false} FieldsExact(p: Printer, before: seq<Field>, after: seq<Field>, depth: nat)
    ensures AllSame(FieldLines(p, before, after, depth)) <==>
      forall i :: 0 <= i < |before| ==>
        var j := IndexOf(FieldKeys(after), before[i].key);
        j >= 0 && Unmoved(p, before[i].value, after[j].value)
    decreases before, 0
  {
    if before != [] {
      var f := before[0];
      var j := IndexOf(FieldKeys(after), f.key);
      var prefix := Prefix(p, Some(f.key));
      FieldsExact(p, before[1..], after, depth);
      if j >= 0 {
        PairExact(p, prefix, f.value, after[j].value, depth);
        AllSameConcat(PairLines(p, prefix, f.value, after[j].value, depth), FieldLines(p, before[1..], after, depth));
      } else {
        ExpandShows(p, prefix, f.value, depth, Removed);
        AllSameConcat(ExpandLines(p, prefix, f.value, depth, Removed), FieldLines(p, before[1..], after, depth));
      }
      assert forall i :: 1 <= i < |before| ==> before[i] == before[1..][i - 1];
    }
  }

  lemma {:induction false} NewFieldsExact(p: Printer, before: seq<Field>, after: seq<Field>, depth: nat)
    ensures AllSame(NewFieldLines(p, before, after, depth)) <==>
      forall i :: 0 <= i < |after| ==> after[i].key in FieldKeys(before)
  {
    if after != [] {
      NewFieldsExact(p, before, after[1..], depth);
      assert forall i :: 1 <= i < |after| ==> after[i] == after[1..][i - 1];
      if after[0].key in FieldKeys(before) {
        assert NewFieldLines(p, before, after, depth) == NewFieldLines(p, before, after[1..], depth);
      } else {
        var shown := ExpandLines(p, Prefix(p, Some(after[0].key)), after[0].value, depth, Added);
        ExpandShows(p, Prefix(p, Some(after[0].key)), after[0].value, depth, Added);
        AllSameConcat(shown, NewFieldLines(p, before, after[1..], depth));
      }
    }
  }

  /** The first newer item shows no change when it is matched and unmoved. */
  lemma {:induction false} NewItemExact(p: Printer, keyed: bool, before: seq<Json>, after: seq<Json>, quiet: nat,
                                        depth: nat)
    requires after != []
    ensures
      var j := IndexOf(ItemKeys(p, keyed, before), ItemKey(p, keyed, after[0]));
      var quieter := if j >= 0 && !keyed && SameValue(before[j], after[0]) then quiet + 1 else 0;
      AllSame(NewItemLines(p, keyed, before, after, quiet, depth)) <==>
      ItemUnmoved(p, before, after[0], keyed) && AllSame(NewItemLines(p, keyed, before, after[1..], quieter, depth))
    decreases before, 0, 0
  {
    var a := after[0];
    var j := IndexOf(ItemKeys(p, keyed, before), ItemKey(p, keyed, a));
    if !(j >= 0 && !keyed && SameValue(before[j], a)) {
      hide IndexOf, SameValue, ItemKeys, ItemKey, Unmoved;
      var shown := ItemLines(p, keyed, before, a, depth);
      AllSameConcat(Flush(quiet, depth) + shown, NewItemLines(p, keyed, before, after[1..], 0, depth));
      AllSameConcat(Flush(quiet, depth), shown);
      if j >= 0 {
        PairExact(p, "", before[j], a, depth);
      } else {
        ExpandShows(p, "", a, depth, Added);
      }
    }
  }

  lemma {:induction false} NewItemsExact(p: Printer, keyed: bool, before: seq<Json>, after: seq<Json>, quiet: nat,
                                         depth: nat)
    ensures AllSame(NewItemLines(p, keyed, before, after, quiet, depth)) <==>
      forall i :: 0 <= i < |after| ==> ItemUnmoved(p, before, after[i], keyed)
    decreases before, 0, |after|
  {
    if after != [] {
      hide NewItemLines, ItemUnmoved, IndexOf, SameValue, ItemKeys, ItemKey, AllSame;
      var j := IndexOf(ItemKeys(p, keyed, before), ItemKey(p, keyed, after[0]));
      NewItemExact(p, keyed, before, after, quiet, depth);
      NewItemsExact(p, keyed, before, after[1..], if j >= 0 && !keyed && SameValue(before[j],
          after[0]) then quiet + 1 else 0, depth);
      assert forall i :: 1 <= i < |after| ==> after[i] == after[1..][i - 1];
    }
  }

  lemma {:induction false} OldItemsExact(p: Printer, keyed: bool, before: seq<Json>, after: seq<Json>, depth: nat)
    ensures AllSame(OldItemLines(p, keyed, before, after, depth)) <==>
      forall j :: 0 <= j < |before| ==> ItemKey(p, keyed, before[j]) in ItemKeys(p, keyed, after)
  {
    if before != [] {
      OldItemsExact(p, keyed, before[1..], after, depth);
      assert forall j :: 1 <= j < |before| ==> before[j] == before[1..][j - 1];
      if ItemKey(p, keyed, before[0]) in ItemKeys(p, keyed, after) {
        assert OldItemLines(p, keyed, before, after, depth) == OldItemLines(p, keyed, before[1..], after, depth);
      } else {
        ExpandShows(p, "", before[0], depth, Removed);
        AllSameConcat(ExpandLines(p, "", before[0], depth, Removed), OldItemLines(p, keyed, before[1..], after, depth));
      }
    }
  }

  // ---------------------------------------------------------- unique keys

  function Ids(items: seq<Json>): (ids: seq<string>)
    requires AllIds(items)
    ensures |ids| == |items| && forall i :: 0 <= i < |items| ==> ids[i] == Id(items[i]).value
  {
    seq(|items|, i requires 0 <= i < |items| => Id(items[i]).value)
  }

  /** Keys are unique at every level: an object's names, the IDs of an array
      matched by ID, the items of any other array. */
  predicate UniqueKeys(v: Json) {
    match v
    case Object(fields) => Distinct(FieldKeys(fields)) && forall i :: 0 <= i < |fields| ==> UniqueKeys(fields[i].value)
    case Array(items) =>
      && Distinct(items)
      && (AllIds(items) ==> Distinct(Ids(items)))
      && forall i :: 0 <= i < |items| ==> UniqueKeys(items[i])
    case _ => true
  }

  /** Equal up to the order of arrays as the diff matches them: rules of the same IDs
      with equal contents, or exactly the same items, counted and in print. */
  predicate Verbatim(b: Json, a: Json)
    decreases b, 1
  {
    || SameValue(b, a)
    || (b.Object? && a.Object? && FieldsReordered(b.fields, a.fields))
    || (b.Array? && a.Array? && Keyed(b.items, a.items) && RulesReordered(b.items, a.items))
    || (b.Array? && a.Array? && !Keyed(b.items, a.items) && multiset(b.items) == multiset(a.items))
  }

  predicate FieldsReordered(b: seq<Field>, a: seq<Field>)
    decreases b, 0
  {
    && multiset(FieldKeys(b)) == multiset(FieldKeys(a))
    && forall i, j :: 0 <= i < |b| && 0 <= j < |a| && b[i].key == a[j].key ==> Verbatim(b[i].value, a[j].value)
  }

  predicate RulesReordered(b: seq<Json>, a: seq<Json>)
    requires Keyed(b, a)
    decreases b, 0
  {
    && multiset(Ids(b)) == multiset(Ids(a))
    && forall i, j :: 0 <= i < |b| && 0 <= j < |a| && Id(b[i]) == Id(a[j]) ==> Verbatim(b[i], a[j])
  }

  ghost predicate Injective(p: Printer) {
    forall x, y :: p(x) == p(y) ==> x == y
  }

  lemma {:induction false} UnmovedIsVerbatim(p: Printer, b: Json, a: Json)
    requires Injective(p) && UniqueKeys(b) && UniqueKeys(a)
    ensures Unmoved(p, b, a) <==> Verbatim(b, a)
    decreases b, 1
  {
    if !SameValue(b, a) {
      if b.Object? && a.Object? {
        ObjectsVerbatim(p, b.fields, a.fields);
      } else if b.Array? && a.Array? && Keyed(b.items, a.items) {
        KeyedVerbatim(p, b.items, a.items);
      } else if b.Array? && a.Array? {
        ValuesVerbatim(p, b.items, a.items);
      }
    }
  }

  lemma {:induction false} ObjectsVerbatim(p: Printer, b: seq<Field>, a: seq<Field>)
    requires Injective(p) && UniqueKeys(Object(b)) && UniqueKeys(Object(a))
    ensures FieldsUnmoved(p, b, a) <==> FieldsReordered(b, a)
    decreases b, 0
  {
    var bk, ak := FieldKeys(b), FieldKeys(a);
    SameMembers(bk, ak);
    forall i, j | 0 <= i < |b| && 0 <= j < |a| && b[i].key == a[j].key
      ensures IndexOf(ak, b[i].key) == j
      ensures Unmoved(p, b[i].value, a[j].value) <==> Verbatim(b[i].value, a[j].value)
    {
      DistinctIndex(ak, j);
      UnmovedIsVerbatim(p, b[i].value, a[j].value);
    }
    hide Unmoved, Verbatim, UniqueKeys, Distinct;
    forall i | 0 <= i < |b| ensures bk[i] in ak <==> IndexOf(ak, b[i].key) >= 0 { }
    if FieldsReordered(b, a) {
      forall i | 0 <= i < |b|
        ensures var j := IndexOf(ak, b[i].key); j >= 0 && Unmoved(p, b[i].value, a[j].value)
      {
        assert bk[i] in ak;
      }
    }
  }

  lemma {:induction false} KeyedVerbatim(p: Printer, b: seq<Json>, a: seq<Json>)
    requires Injective(p) && UniqueKeys(Array(b)) && UniqueKeys(Array(a)) && Keyed(b, a)
    ensures ItemsUnmoved(p, b, a, true) <==> RulesReordered(b, a)
    decreases b, 0
  {
    forall i, j | 0 <= i < |b| && 0 <= j < |a| && Id(b[i]) == Id(a[j])
      ensures Unmoved(p, b[i], a[j]) <==> Verbatim(b[i], a[j])
    {
      UnmovedIsVerbatim(p, b[i], a[j]);
    }
    RulesMatched(p, b, a);
  }

  predicate RulesAgree(p: Printer, b: seq<Json>, a: seq<Json>) {
    forall i, j :: 0 <= i < |b| && 0 <= j < |a| && Id(b[i]) == Id(a[j]) ==>
      (Unmoved(p, b[i], a[j]) <==> Verbatim(b[i], a[j]))
  }

  lemma RulesMatched(p: Printer, b: seq<Json>, a: seq<Json>)
    requires Keyed(b, a) && Distinct(Ids(b)) && Distinct(Ids(a)) && RulesAgree(p, b, a)
    ensures ItemsUnmoved(p, b, a, true) <==> RulesReordered(b, a)
  {
    hide Unmoved, Verbatim, Id, IndexOf;
    var bk, ak := Ids(b), Ids(a);
    assert ItemKeys(p, true, b) == bk && ItemKeys(p, true, a) == ak;
    SameMembers(bk, ak);
    if ItemsUnmoved(p, b, a, true) {
      forall j | 0 <= j < |a| ensures ak[j] in bk {
        assert ItemUnmoved(p, b, a[j], true);
      }
      forall i, j | 0 <= i < |b| && 0 <= j < |a| && Id(b[i]) == Id(a[j]) ensures Verbatim(b[i], a[j]) {
        assert ItemUnmoved(p, b, a[j], true);
        DistinctIndex(bk, i);
      }
    }
    if RulesReordered(b, a) {
      forall j | 0 <= j < |a| ensures ItemUnmoved(p, b, a[j], true) {
        assert ak[j] in bk;
        var i := IndexOf(bk, ak[j]);
        assert bk[i] == ak[j];
        assert Id(b[i]) == Id(a[j]);
      }
    }
  }

  lemma ValuesVerbatim(p: Printer, b: seq<Json>, a: seq<Json>)
    requires Injective(p) && UniqueKeys(Array(b)) && UniqueKeys(Array(a))
    ensures ItemsUnmoved(p, b, a, false) <==> multiset(b) == multiset(a)
  {
    SameMembers(b, a);
    var bk, ak := ItemKeys(p, false, b), ItemKeys(p, false, a);
    forall j | 0 <= j < |b| ensures b[j] in a <==> bk[j] in ak { TextMember(p, a, b[j]); }
    forall i | 0 <= i < |a| ensures a[i] in b <==> ItemUnmoved(p, b, a[i], false)
    {
      TextMember(p, b, a[i]);
      var j := IndexOf(bk, ItemKey(p, false, a[i]));
      if j >= 0 {
        assert p(b[j]) == p(a[i]);
        SameValueReflexive(a[i]);
      }
    }
  }

  lemma TextMember(p: Printer, items: seq<Json>, v: Json)
    requires Injective(p)
    ensures v in items <==> ItemKey(p, false, v) in ItemKeys(p, false, items)
  {
    var keys := ItemKeys(p, false, items);
    if p(v) in keys {
      var i :| 0 <= i < |keys| && keys[i] == p(v);
      assert p(items[i]) == p(v);
    }
    if v in items {
      var i :| 0 <= i < |items| && items[i] == v;
      assert keys[i] == p(v);
    }
  }

  lemma {:induction false} SameValueReflexive(v: Json)
    requires UniqueKeys(v)
    ensures SameValue(v, v)
  {
    match v
    case Array(items) =>
      forall i | 0 <= i < |items| ensures SameValue(items[i], items[i]) { SameValueReflexive(items[i]); }
    case Object(fields) =>
      forall i | 0 <= i < |fields|
        ensures IndexOf(FieldKeys(fields), fields[i].key) == i && SameValue(fields[i].value, fields[i].value)
      {
        DistinctIndex(FieldKeys(fields), i);
        SameValueReflexive(fields[i].value);
      }
    case _ =>
  }
}
