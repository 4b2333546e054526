/** A diff in full, and the lines that stand for unchanged values (`desktop/src/org.rs`). */
module DiffExample {
  import opened Wrappers
  import opened Collections
  import opened Numerals
  import opened JsonDiff

  predicate Scalar(v: Json) {
    !v.Object? && !v.Array?
  }

  lemma SmallNumerals()
    ensures Decimal(1) == "1" && Decimal(2) == "2"
  {
  }

  /** An unchanged object stands by its ID if it has one, wherever that is among its fields. */
  lemma ObjectTexts(p: Printer, key: string, v: Json, id: Json)
    requires key != "id"
    ensures Collapsed(p, Object([])) == "{}" && Collapsed(p, Object([Field(key, v)])) == "{ \U{2026} }"
    ensures Collapsed(p, Object([Field(key, v), Field("id", id)])) == "{ \"id\": " + p(id) + ", \U{2026} }"
  {
    var one, two := [Field(key, v)], [Field(key, v), Field("id", id)];
    assert FieldKeys(two) == [key, "id"] && [key, "id"][1..] == ["id"];
    assert FieldKeys(one) == [key] && [key][1..] == [];
  }

  /** An unchanged list of scalars is shown in full while the line takes 48 characters. */
  lemma ScalarsText(p: Printer, v: Json, w: Json)
    requires Scalar(v) && Scalar(w)
    ensures Collapsed(p, Array([])) == "[]"
    ensures Collapsed(p, Array([v])) == if |p(v)| <= 46 then "[" + p(v) + "]" else "[ \U{2026} 1 item ]"
    ensures |p(v)| + |p(w)| <= 44 ==> Collapsed(p, Array([v, w])) == "[" + (p(v) + ", " + p(w)) + "]"
  {
    SmallNumerals();
    hide Decimal;
    assert Joined(p, [v]) == p(v);
    assert [v, w][1..] == [w];
    assert Joined(p, [v, w]) == p(v) + ", " + p(w) by { assert Joined(p, [w]) == p(w); }
    CountedText(p, [v], "1");
  }

  /** A list that does not fit, or holds containers, stands by how long it is. */
  lemma ContainersText(p: Printer, v: Json, w: Json)
    requires !Scalar(v)
    ensures Collapsed(p, Array([v])) == "[ \U{2026} 1 item ]"
    ensures Collapsed(p, Array([v, w])) == "[ \U{2026} 2 items ]"
  {
    SmallNumerals();
    assert [v][0] == v && [v, w][0] == v;
    CountedText(p, [v], "1");
    CountedText(p, [v, w], "2");
  }

  lemma CountedText(p: Printer, items: seq<Json>, n: string)
    requires 1 <= |items| <= 2 && n == Decimal(|items|)
    ensures Inline(p, items).None? ==>
      Collapsed(p, Array(items)) == "[ \U{2026} " + n + (if |items| == 1 then " item" else " items") + " ]"
  {
    hide Inline, Decimal;
    if Inline(p, items).None? {
      assert " item" + "" == " item" && " item" + "s" == " items";
      Regroup("[ \U{2026} " + n, " item", if |items| == 1 then "" else "s", " ]");
    }
  }

  lemma Regroup(a: string, b: string, c: string, d: string)
    ensures a + b + c + d == a + (b + c) + d
  {
  }

  /** Names are matched by value: reordered ones are counted, and a new one is shown. */
  lemma NamesAreMatched(p: Printer, x: string, y: string, z: string)
    requires p(Str(x)) != p(Str(y)) && p(Str(z)) != p(Str(x)) && p(Str(z)) != p(Str(y))
    ensures
      var before := Object([Field("dns", Array([Str(x), Str(y)]))]);
      var after := Object([Field("dns", Array([Str(y), Str(x), Str(z)]))]);
      DiffLines(p, Some(before), after) ==
      [DiffLine(0, Same, "{"), DiffLine(1, Same, p(Str("dns")) + ": ["), DiffLine(2, Same, "\U{2026} 2 unchanged"),
       DiffLine(2, Added, p(Str(z))), DiffLine(1, Same, "]"), DiffLine(0, Same, "}")]
  {
    var before, after := [Str(x), Str(y)], [Str(y), Str(x), Str(z)];
    var f, g := Field("dns", Array(before)), Field("dns", Array(after));
    NotTheSame(f, g);
    ListLines(p, x, y, z);
    var inner := PairLines(p, Prefix(p, Some("dns")), Array(before), Array(after), 1);
    OneField(p, f, g, 1);
    hide PairLines, FieldLines, NewFieldLines;
    ObjectLines(p, [f], [g]);
    PlainTexts(p, z);
  }

  lemma PlainTexts(p: Printer, z: string)
    ensures "" + "{" == "{" && "" + p(Str(z)) == p(Str(z)) && p(Str("dns")) + ": " + "[" == p(Str("dns")) + ": ["
    ensures "\U{2026} " + "2" + " unchanged" == "\U{2026} 2 unchanged"
  {
  }

  lemma NotTheSame(f: Field, g: Field)
    requires f.key == g.key && f.value.Array? && g.value.Array? && |f.value.items| != |g.value.items|
    ensures !SameValue(Object([f]), Object([g]))
  {
    assert FieldKeys([g]) == [g.key];
    assert !SameValue(f.value, g.value);
    assert [f][0] == f;
  }

  lemma OneField(p: Printer, f: Field, g: Field, depth: nat)
    requires f.key == g.key
    ensures FieldLines(p, [f], [g], depth) == PairLines(p, Prefix(p, Some(f.key)), f.value, g.value, depth)
    ensures NewFieldLines(p, [f], [g], depth) == []
  {
    hide PairLines, ExpandLines;
    assert FieldKeys([f]) == [f.key] && FieldKeys([g]) == [g.key];
    assert [f][1..] == [] && [g][1..] == [];
    var inner := PairLines(p, Prefix(p, Some(f.key)), f.value, g.value, depth);
    assert FieldLines(p, [], [g], depth) == [] && inner + [] == inner;
    assert NewFieldLines(p, [f], [], depth) == [];
  }

  lemma ObjectLines(p: Printer, f: seq<Field>, g: seq<Field>)
    requires !SameValue(Object(f), Object(g))
    ensures DiffLines(p, Some(Object(f)), Object(g)) ==
      [DiffLine(0, Same, "" + "{")] + FieldLines(p, f, g, 1) + NewFieldLines(p, f, g, 1) + [DiffLine(0, Same, "}")]
  {
    hide SameValue, FieldLines, NewFieldLines, ExpandLines, Collapsed;
  }

  lemma ListLines(p: Printer, x: string, y: string, z: string)
    requires p(Str(x)) != p(Str(y)) && p(Str(z)) != p(Str(x)) && p(Str(z)) != p(Str(y))
    ensures PairLines(p, Prefix(p, Some("dns")), Array([Str(x), Str(y)]), Array([Str(y), Str(x), Str(z)]), 1) ==
      [DiffLine(1, Same, p(Str("dns")) + ": " + "["), DiffLine(2, Same, "\U{2026} " + "2" + " unchanged"),
       DiffLine(2, Added, "" + p(Str(z))), DiffLine(1, Same, "]")]
  {
    var before, after := [Str(x), Str(y)], [Str(y), Str(x), Str(z)];
    assert !SameValue(Array(before), Array(after));
    assert Id(before[0]).None?;
    assert !Keyed(before, after);
    NewItems(p, x, y, z);
    OldItems(p, x, y, z);
    hide NewItemLines, OldItemLines, SameValue, Keyed;
  }

  lemma NewItems(p: Printer, x: string, y: string, z: string)
    requires p(Str(x)) != p(Str(y)) && p(Str(z)) != p(Str(x)) && p(Str(z)) != p(Str(y))
    ensures NewItemLines(p, false, [Str(x), Str(y)], [Str(y), Str(x), Str(z)], 0, 2) ==
      [DiffLine(2, Same, "\U{2026} " + "2" + " unchanged"), DiffLine(2, Added, "" + p(Str(z)))]
  {
    var before, c := [Str(x), Str(y)], Str(z);
    var keys := ItemKeys(p, false, before);
    assert keys == [p(Str(x)), p(Str(y))] && keys[1..] == [p(Str(y))] && keys[1..][1..] == [];
    assert IndexOf(keys, p(Str(x))) == 0 && IndexOf(keys, p(Str(y))) == 1 && IndexOf(keys, p(c)) == -1;
    assert [Str(y), Str(x), c][1..] == [Str(x), c] && [Str(x), c][1..] == [c] && [c][1..] == [];
    SmallNumerals();
    assert ItemLines(p, false, before, c, 2) == [DiffLine(2, Added, "" + p(c))];
    assert NewItemLines(p, false, before, [], 0, 2) == [];
    hide ItemLines, ItemKeys, Decimal;
    assert NewItemLines(p, false, before, [c], 2, 2) ==
      Flush(2, 2) + ItemLines(p, false, before, c, 2) + NewItemLines(p, false, before, [], 0, 2);
    assert NewItemLines(p, false, before, [Str(x), c], 1, 2) == NewItemLines(p, false, before, [c], 2, 2);
  }

  lemma OldItems(p: Printer, x: string, y: string, z: string)
    ensures OldItemLines(p, false, [Str(x), Str(y)], [Str(y), Str(x), Str(z)], 2) == []
  {
    var keys := ItemKeys(p, false, [Str(y), Str(x), Str(z)]);
    assert keys[0] == p(Str(y)) && keys[1] == p(Str(x));
    assert [Str(x), Str(y)][1..] == [Str(y)] && [Str(y)][1..] == [];
    assert OldItemLines(p, false, [Str(y)], [Str(y), Str(x), Str(z)], 2) == [];
  }
}
