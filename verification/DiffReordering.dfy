/** What a diff without changes means: the two documents are equal up to the order of
    their arrays, at every depth. */
module DiffReordering {
  import opened Wrappers
  import opened Collections
  import opened JsonDiff
  import opened DiffExactness

  /** Equal up to the order of arrays and of fields: objects by key, arrays of rules by
      ID, any other array by some pairing of its items. */
  ghost predicate Reordered(b: Json, a: Json)
    decreases b, 1
  {
    match b
    case Object(fields) => a.Object? && FieldsAlike(fields, a.fields)
    case Array(items) =>
      a.Array? && if Keyed(items, a.items) then RulesAlike(items, a.items) else ItemsAlike(items, a.items)
    case _ => a == b
  }

  ghost predicate FieldsAlike(b: seq<Field>, a: seq<Field>)
    decreases b, 0
  {
    && multiset(FieldKeys(b)) == multiset(FieldKeys(a))
    && forall i, j :: 0 <= i < |b| && 0 <= j < |a| && b[i].key == a[j].key ==> Reordered(b[i].value, a[j].value)
  }

  ghost predicate RulesAlike(b: seq<Json>, a: seq<Json>)
    requires Keyed(b, a)
    decreases b, 0
  {
    && multiset(Ids(b)) == multiset(Ids(a))
    && forall i, j :: 0 <= i < |b| && 0 <= j < |a| && Id(b[i]) == Id(a[j]) ==> Reordered(b[i], a[j])
  }

  ghost predicate ItemsAlike(b: seq<Json>, a: seq<Json>)
    decreases b, 1
  {
    |b| == |a| && exists m :: IsPermutation(m, |b|) && Paired(b, a, m)
  }

  ghost predicate Paired(b: seq<Json>, a: seq<Json>, m: seq<int>)
    requires |b| == |a| && IsPermutation(m, |b|)
    decreases b, 0
  {
    forall i :: 0 <= i < |b| ==> Reordered(b[i], a[m[i]])
  }

  // ---------------------------------------------------------- equality is a reordering

  lemma SameValueSameId(x: Json, y: Json)
    requires UniqueKeys(x) && UniqueKeys(y) && SameValue(x, y)
    ensures Id(x) == Id(y)
  {
    if x.Object? {
      var f, g := x.fields, y.fields;
      SameValueFills(f, g);
      var fk, gk := FieldKeys(f), FieldKeys(g);
      if "id" in fk {
        var i := IndexOf(fk, "id");
        assert f[i].key == "id";
        var j := IndexOf(gk, f[i].key);
        assert SameValue(f[i].value, g[j].value);
      } else {
        assert "id" !in gk;
      }
    }
  }

  /** Equal objects have the same keys. */
  lemma SameValueFills(f: seq<Field>, g: seq<Field>)
    requires Distinct(FieldKeys(f)) && Distinct(FieldKeys(g)) && SameValue(Object(f), Object(g))
    ensures multiset(FieldKeys(f)) == multiset(FieldKeys(g))
    ensures forall k :: k in FieldKeys(f) <==> k in FieldKeys(g)
  {
    var fk, gk := FieldKeys(f), FieldKeys(g);
    forall i | 0 <= i < |f| ensures fk[i] in gk {
      var j := IndexOf(gk, f[i].key);
      assert j >= 0;
    }
    DistinctFills(fk, gk);
    SameMembers(fk, gk);
  }

  lemma {:induction false} SameValueIsReordered(b: Json, a: Json)
    requires UniqueKeys(b) && UniqueKeys(a) && SameValue(b, a)
    ensures Reordered(b, a)
    decreases b, 1
  {
    if b.Object? {
      SameObjects(b.fields, a.fields);
    } else if b.Array? {
      SameArrays(b.items, a.items);
    }
  }

  lemma {:induction false} SameObjects(f: seq<Field>, g: seq<Field>)
    requires UniqueKeys(Object(f)) && UniqueKeys(Object(g)) && SameValue(Object(f), Object(g))
    ensures Reordered(Object(f), Object(g))
    decreases f, 0
  {
    SameValueFills(f, g);
    forall i, j | 0 <= i < |f| && 0 <= j < |g| && f[i].key == g[j].key ensures Reordered(f[i].value, g[j].value) {
      DistinctIndex(FieldKeys(g), j);
      SameValueIsReordered(f[i].value, g[j].value);
    }
    hide SameValue, UniqueKeys, FieldKeys, Distinct;
    assert FieldsAlike(f, g);
  }

  lemma {:induction false} SameArrays(x: seq<Json>, y: seq<Json>)
    requires UniqueKeys(Array(x)) && UniqueKeys(Array(y)) && SameValue(Array(x), Array(y))
    ensures Reordered(Array(x), Array(y))
    decreases x, 0
  {
    forall i | 0 <= i < |x| ensures Reordered(x[i], y[i]) && Id(x[i]) == Id(y[i]) {
      SameValueIsReordered(x[i], y[i]);
      SameValueSameId(x[i], y[i]);
    }
    hide Reordered, Id, SameValue;
    if Keyed(x, y) {
      assert Ids(x) == Ids(y);
      forall i, j | 0 <= i < |x| && 0 <= j < |y| && Id(x[i]) == Id(y[j]) ensures Reordered(x[i], y[j]) {
        assert Ids(y)[i] == Ids(y)[j];
      }
      RulesAreReordered(x, y);
    } else {
      var m := IdentityPermutes(|x|);
      assert Paired(x, y, m);
      ItemsAreReordered(x, y);
    }
  }

  lemma RulesAreReordered(x: seq<Json>, y: seq<Json>)
    requires Keyed(x, y) && RulesAlike(x, y)
    ensures Reordered(Array(x), Array(y))
  {
  }

  lemma ItemsAreReordered(x: seq<Json>, y: seq<Json>)
    requires !Keyed(x, y) && ItemsAlike(x, y)
    ensures Reordered(Array(x), Array(y))
  {
  }

  // ---------------------------------------------------------- what the diff matches is a reordering

  lemma {:induction false} VerbatimIsReordered(b: Json, a: Json)
    requires UniqueKeys(b) && UniqueKeys(a) && Verbatim(b, a)
    ensures Reordered(b, a)
    decreases b
  {
    if SameValue(b, a) {
      SameValueIsReordered(b, a);
    } else {
      hide SameValue, Reordered;
      if b.Object? && a.Object? {
        FieldsVerbatim(b, a);
      } else if Keyed(b.items, a.items) {
        RulesVerbatim(b, a);
      } else {
        ItemsVerbatim(b.items, a.items);
      }
    }
  }

  lemma {:induction false} FieldsVerbatim(b: Json, a: Json)
    requires b.Object? && a.Object? && UniqueKeys(b) && UniqueKeys(a) && FieldsReordered(b.fields, a.fields)
    ensures Reordered(b, a)
    decreases b, 0
  {
    hide SameValue, Verbatim;
    var f, g := b.fields, a.fields;
    forall i, j | 0 <= i < |f| && 0 <= j < |g| && f[i].key == g[j].key ensures Reordered(f[i].value, g[j].value) {
      VerbatimIsReordered(f[i].value, g[j].value);
    }
  }

  lemma {:induction false} RulesVerbatim(b: Json, a: Json)
    requires b.Array? && a.Array? && UniqueKeys(b) && UniqueKeys(a)
    requires Keyed(b.items, a.items) && RulesReordered(b.items, a.items)
    ensures Reordered(b, a)
    decreases b, 0
  {
    hide SameValue, Verbatim, Id;
    var x, y := b.items, a.items;
    forall i, j | 0 <= i < |x| && 0 <= j < |y| && Id(x[i]) == Id(y[j]) ensures Reordered(x[i], y[j]) {
      VerbatimIsReordered(x[i], y[j]);
    }
    hide Reordered;
    RulesAreReordered(x, y);
  }

  lemma ItemsVerbatim(x: seq<Json>, y: seq<Json>)
    requires UniqueKeys(Array(x)) && UniqueKeys(Array(y)) && !Keyed(x, y) && multiset(x) == multiset(y)
    ensures Reordered(Array(x), Array(y))
  {
    hide Reordered, SameValue, Keyed;
    SameMembers(x, y);
    assert |x| == |multiset(x)| && |y| == |multiset(y)|;
    var m := seq(|x|, i requires 0 <= i < |x| => IndexOf(y, x[i]));
    assert IsPermutation(m, |x|);
    forall i | 0 <= i < |x| ensures Reordered(x[i], y[m[i]]) {
      SameValueReflexive(x[i]);
      SameValueIsReordered(x[i], x[i]);
    }
    assert Paired(x, y, m);
    ItemsAreReordered(x, y);
  }

  // ---------------------------------------------------------- when a reordering is not shown

  /** Wherever two arrays are matched by value, unless they are equal, they hold exactly
      the same items: none is reordered inside. */
  predicate ItemsKept(b: Json, a: Json)
    decreases b
  {
    SameValue(b, a) ||
    match (b, a)
    case (Object(f), Object(g)) =>
      forall i, j :: 0 <= i < |f| && 0 <= j < |g| && f[i].key == g[j].key ==> ItemsKept(f[i].value, g[j].value)
    case (Array(x), Array(y)) =>
      if Keyed(x, y) then forall i, j :: 0 <= i < |x| && 0 <= j < |y| && Id(x[i]) == Id(y[j]) ==> ItemsKept(x[i], y[j])
      else multiset(x) == multiset(y)
    case _ => true
  }

  lemma {:induction false} KeptIsVerbatim(b: Json, a: Json)
    requires Reordered(b, a) && ItemsKept(b, a) && UniqueKeys(b) && UniqueKeys(a)
    ensures Verbatim(b, a)
    decreases b
  {
    if !SameValue(b, a) {
      hide SameValue, Id;
      match b
      case Object(f) =>
        var g := a.fields;
        forall i, j | 0 <= i < |f| && 0 <= j < |g| && f[i].key == g[j].key ensures Verbatim(f[i].value, g[j].value) {
          KeptIsVerbatim(f[i].value, g[j].value);
        }
      case Array(x) =>
        var y := a.items;
        if Keyed(x, y) {
          forall i, j | 0 <= i < |x| && 0 <= j < |y| && Id(x[i]) == Id(y[j]) ensures Verbatim(x[i], y[j]) {
            KeptIsVerbatim(x[i], y[j]);
          }
        }
      case _ => ScalarsEqual(b);
    }
  }

  lemma ScalarsEqual(b: Json)
    requires !b.Object? && !b.Array?
    ensures SameValue(b, b)
  {
  }

  lemma {:induction false} VerbatimIsKept(b: Json, a: Json)
    requires Verbatim(b, a)
    ensures ItemsKept(b, a)
    decreases b
  {
    if !SameValue(b, a) {
      hide SameValue, Id;
      if b.Object? && a.Object? {
        var f, g := b.fields, a.fields;
        forall i, j | 0 <= i < |f| && 0 <= j < |g| && f[i].key == g[j].key ensures ItemsKept(f[i].value, g[j].value) {
          VerbatimIsKept(f[i].value, g[j].value);
        }
      } else if Keyed(b.items, a.items) {
        var x, y := b.items, a.items;
        forall i, j | 0 <= i < |x| && 0 <= j < |y| && Id(x[i]) == Id(y[j]) ensures ItemsKept(x[i], y[j]) {
          VerbatimIsKept(x[i], y[j]);
        }
      }
    }
  }

  /** With unique keys, a diff without Added or Removed lines means that the documents are
      equal up to order, at every depth; and the other way round exactly when no item of
      a value-matched array is itself reordered. */
  lemma DiffIsExact(p: Printer, b: Json, a: Json)
    requires Injective(p) && UniqueKeys(b) && UniqueKeys(a)
    ensures AllSame(DiffLines(p, Some(b), a)) <==> Reordered(b, a) && ItemsKept(b, a)
  {
    PairExact(p, "", b, a, 0);
    UnmovedIsVerbatim(p, b, a);
    hide Reordered, ItemsKept, Verbatim, Unmoved, UniqueKeys;
    if Verbatim(b, a) {
      VerbatimIsReordered(b, a);
      VerbatimIsKept(b, a);
    }
    if Reordered(b, a) && ItemsKept(b, a) {
      KeptIsVerbatim(b, a);
    }
  }

  // ---------------------------------------------------------- plain documents

  /** Nothing inside can be put in another order. */
  predicate Rigid(v: Json) {
    match v
    case Object(fields) => |fields| <= 1 && forall i :: 0 <= i < |fields| ==> Rigid(fields[i].value)
    case Array(items) => |items| <= 1 && forall i :: 0 <= i < |items| ==> Rigid(items[i])
    case _ => true
  }

  /** Every array is one of rules, or of rigid items such as strings and numbers. */
  predicate Plain(v: Json) {
    match v
    case Object(fields) => forall i :: 0 <= i < |fields| ==> Plain(fields[i].value)
    case Array(items) =>
      && (AllIds(items) || forall i :: 0 <= i < |items| ==> Rigid(items[i]))
      && forall i :: 0 <= i < |items| ==> Plain(items[i])
    case _ => true
  }

  lemma {:induction false} RigidIsFixed(b: Json, a: Json)
    requires Rigid(b) && Reordered(b, a)
    ensures a == b
    decreases b
  {
    match b
    case Object(f) =>
      var g := a.fields;
      assert |f| == |multiset(FieldKeys(f))| && |g| == |multiset(FieldKeys(g))|;
      if |f| == 1 {
        assert FieldKeys(f)[0] in multiset(FieldKeys(f));
        assert FieldKeys(f)[0] in multiset(FieldKeys(g));
        assert g[0].key == f[0].key;
        RigidIsFixed(f[0].value, g[0].value);
        assert f == [f[0]] && g == [g[0]];
      }
    case Array(x) =>
      var y := a.items;
      RigidItem(x, y);
      if |x| == 1 {
        RigidIsFixed(x[0], y[0]);
        assert x == [x[0]] && y == [y[0]];
      }
    case _ =>
  }

  lemma RigidItem(x: seq<Json>, y: seq<Json>)
    requires |x| <= 1 && Reordered(Array(x), Array(y))
    ensures |x| == |y| && (|x| == 1 ==> Reordered(x[0], y[0]))
  {
    if Keyed(x, y) {
      assert |x| == |multiset(Ids(x))| && |y| == |multiset(Ids(y))|;
      if |x| == 1 {
        assert Ids(x)[0] in multiset(Ids(x));
        assert Ids(x)[0] in multiset(Ids(y));
        assert Id(x[0]) == Id(y[0]);
      }
    } else {
      var m :| IsPermutation(m, |x|) && Paired(x, y, m);
      assert |x| == 1 ==> m[0] == 0;
    }
  }

  lemma ReorderedKeepsId(x: Json, y: Json)
    requires Reordered(x, y) && Id(x).Some?
    ensures Id(y) == Id(x)
  {
    var f, g := x.fields, y.fields;
    var fk, gk := FieldKeys(f), FieldKeys(g);
    var i := IndexOf(fk, "id");
    assert fk[i] in multiset(fk);
    assert fk[i] in multiset(gk);
    var j := IndexOf(gk, "id");
    assert f[i].key == g[j].key;
    assert Reordered(f[i].value, g[j].value);
  }

  lemma AlikeKeepsIds(x: seq<Json>, y: seq<Json>)
    requires ItemsAlike(x, y) && AllIds(x)
    ensures AllIds(y)
  {
    var m :| IsPermutation(m, |x|) && Paired(x, y, m);
    hide Reordered, Id;
    forall j | 0 <= j < |y| ensures Id(y[j]).Some? {
      var i := PermutationHits(m, |x|, j);
      ReorderedKeepsId(x[i], y[j]);
    }
  }

  lemma RigidItemsKept(x: seq<Json>, y: seq<Json>)
    requires ItemsAlike(x, y) && Distinct(x) && Distinct(y) && forall i :: 0 <= i < |x| ==> Rigid(x[i])
    ensures multiset(x) == multiset(y)
  {
    var m :| IsPermutation(m, |x|) && Paired(x, y, m);
    hide Reordered, Rigid;
    forall i | 0 <= i < |x| ensures x[i] in y {
      RigidIsFixed(x[i], y[m[i]]);
    }
    DistinctFills(x, y);
    SameMembers(x, y);
  }

  lemma {:induction false} PlainIsKept(b: Json, a: Json)
    requires Plain(b) && Reordered(b, a) && UniqueKeys(b) && UniqueKeys(a)
    ensures ItemsKept(b, a)
    decreases b
  {
    hide SameValue, Id;
    match b
    case Object(f) =>
      var g := a.fields;
      forall i, j | 0 <= i < |f| && 0 <= j < |g| && f[i].key == g[j].key ensures ItemsKept(f[i].value, g[j].value) {
        PlainIsKept(f[i].value, g[j].value);
      }
    case Array(x) =>
      var y := a.items;
      if Keyed(x, y) {
        forall i, j | 0 <= i < |x| && 0 <= j < |y| && Id(x[i]) == Id(y[j]) ensures ItemsKept(x[i], y[j]) {
          PlainIsKept(x[i], y[j]);
        }
      } else {
        assert !AllIds(x) by { if AllIds(x) { AlikeKeepsIds(x, y); } }
        RigidItemsKept(x, y);
      }
    case _ =>
  }

  /** On a document whose value-matched arrays hold rigid items, the diff shows no change
      exactly when the other document is equal to it up to order, at every depth. */
  lemma PlainDiffIsExact(p: Printer, b: Json, a: Json)
    requires Injective(p) && UniqueKeys(b) && UniqueKeys(a) && Plain(b)
    ensures AllSame(DiffLines(p, Some(b), a)) <==> Reordered(b, a)
  {
    DiffIsExact(p, b, a);
    hide Reordered, ItemsKept, Plain, UniqueKeys;
    if Reordered(b, a) {
      PlainIsKept(b, a);
    }
  }

  // ---------------------------------------------------------- documents that are not

  lemma SwappedPair(u: Json, v: Json)
    requires u != v && !u.Object? && !u.Array? && !v.Object? && !v.Array?
    ensures
      var x, y := Array([u, v]), Array([v, u]);
      UniqueKeys(x) && UniqueKeys(y) && Reordered(x, y) && !SameValue(x, y) && x != y
  {
    var x, y := [u, v], [v, u];
    assert Id(x[0]).None? && Id(y[0]).None?;
    assert !AllIds(x) && !AllIds(y);
    var m := [1, 0];
    assert IsPermutation(m, 2);
    assert Reordered(x[0], y[1]) && Reordered(x[1], y[0]);
    assert Paired(x, y, m);
    assert ItemsAlike(x, y);
    ItemsAreReordered(x, y);
    assert !SameValue(x[0], y[0]);
  }

  /** Whatever is reordered inside a list is shown as a change. */
  lemma InnerReorderingIsShown(p: Printer, x: Json, y: Json)
    requires Injective(p) && UniqueKeys(x) && UniqueKeys(y) && Reordered(x, y) && !SameValue(x, y)
    requires x != y && x != Null && y != Null
    ensures
      var b, a := Array([x, Null]), Array([y, Null]);
      UniqueKeys(b) && UniqueKeys(a) && Reordered(b, a) && !AllSame(DiffLines(p, Some(b), a))
  {
    hide DiffLines;
    var b, a := [x, Null], [y, Null];
    NoIds(x);
    NoIds(y);
    NotKept(x, y);
    NullPaired(x, y);
    hide SameValue, Reordered, ItemsKept, Id;
    DiffIsExact(p, Array(b), Array(a));
  }

  lemma NotKept(x: Json, y: Json)
    requires x != y && x != Null && !SameValue(x, y)
    ensures !ItemsKept(Array([x, Null]), Array([y, Null]))
  {
    var b, a := [x, Null], [y, Null];
    hide Id;
    NoIds(x);
    assert b[0] == x && a[0] == y;
    assert !SameValue(Array(b), Array(a));
    assert multiset(b)[x] == 1 && multiset(a)[x] == 0;
  }

  lemma NoIds(x: Json)
    ensures !AllIds([x, Null]) && Reordered(Null, Null)
  {
    assert Id([x, Null][1]).None?;
  }

  lemma NullPaired(x: Json, y: Json)
    requires Reordered(x, y)
    ensures Reordered(Array([x, Null]), Array([y, Null]))
  {
    hide Reordered, Id;
    NoIds(x);
    var b, a, m := [x, Null], [y, Null], [0, 1];
    assert IsPermutation(m, 2);
    forall i | 0 <= i < 2 ensures Reordered(b[i], a[m[i]]) {
      assert i == 0 || i == 1;
    }
    assert Paired(b, a, m);
    ItemsAreReordered(b, a);
  }

  /** A concrete pair: `[[1, 2], null]` and `[[2, 1], null]`. */
  lemma NestedReorderingIsShown(p: Printer)
    requires Injective(p)
    ensures
      var one, two := Number("1"), Number("2");
      var b, a := Array([Array([one, two]), Null]), Array([Array([two, one]), Null]);
      UniqueKeys(b) && UniqueKeys(a) && Reordered(b, a) && !AllSame(DiffLines(p, Some(b), a))
  {
    hide SameValue, Reordered, UniqueKeys, DiffLines;
    var one, two := Number("1"), Number("2");
    assert one.digits[0] != two.digits[0];
    SwappedPair(one, two);
    InnerReorderingIsShown(p, Array([one, two]), Array([two, one]));
  }

  /** Repeated keys hide changes: dropping one of two equal items is not shown. */
  lemma RepetitionHidesAChange(p: Printer)
    ensures var twice, once := Array([Number("443"), Number("443")]), Array([Number("443")]);
      AllSame(DiffLines(p, Some(twice), once)) && !Reordered(twice, once)
  {
    hide PairLines;
    var n := Number("443");
    var twice, once := Array([n, n]), Array([n]);
    assert !AllIds([n]) by { assert Id([n][0]).None?; }
    assert ItemKeys(p, false, [n, n])[0] == p(n) && ItemKeys(p, false, [n])[0] == p(n);
    PairExact(p, "", twice, once, 0);
  }
}
