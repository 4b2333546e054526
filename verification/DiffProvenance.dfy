/** Where each line of a diff comes from. A diff visits pairs of values, the older against
    the newer; each pair says its own lines, and a value with no partner is written out whole. */
module DiffProvenance {
  import opened Wrappers
  import opened Collections
  import opened Numerals
  import opened JsonDiff

  // ---------------------------------------------------------- lists of lines

  function Flat(blocks: seq<seq<DiffLine>>): seq<DiffLine> {
    if blocks == [] then [] else blocks[0] + Flat(blocks[1..])
  }

  /** The block stands in the lines in one piece. */
  ghost predicate Contains(lines: seq<DiffLine>, block: seq<DiffLine>) {
    exists x, y :: lines == x + block + y
  }

  /** The one block stands before the other. */
  ghost predicate InOrder(lines: seq<DiffLine>, first: seq<DiffLine>, second: seq<DiffLine>) {
    exists x, y :: lines == x + y && Contains(x, first) && Contains(y, second)
  }

  lemma ContainsSelf(lines: seq<DiffLine>)
    ensures Contains(lines, lines)
  {
    assert lines == [] + lines + [];
  }

  lemma ContainsPart(x: seq<DiffLine>, block: seq<DiffLine>, y: seq<DiffLine>)
    ensures Contains(x + block + y, block)
  {
  }

  lemma ContainsTrans(lines: seq<DiffLine>, block: seq<DiffLine>, inner: seq<DiffLine>)
    requires Contains(lines, block) && Contains(block, inner)
    ensures Contains(lines, inner)
  {
    var x, y :| lines == x + block + y;
    var u, v :| block == u + inner + v;
    assert lines == (x + u) + inner + (v + y);
  }

  lemma ContainsMember(lines: seq<DiffLine>, block: seq<DiffLine>, l: DiffLine)
    requires Contains(lines, block) && l in block
    ensures l in lines
  {
  }

  lemma ContainsLine(lines: seq<DiffLine>, l: DiffLine)
    ensures Contains(lines, [l]) <==> l in lines
  {
    if l in lines {
      var i :| 0 <= i < |lines| && lines[i] == l;
      assert lines == lines[..i] + [l] + lines[i + 1..];
    }
    if Contains(lines, [l]) {
      assert l in [l];
      ContainsMember(lines, [l], l);
    }
  }

  lemma {:induction false} FlatConcat(a: seq<seq<DiffLine>>, b: seq<seq<DiffLine>>)
    ensures Flat(a + b) == Flat(a) + Flat(b)
  {
    if a == [] {
      assert a + b == b;
    } else {
      FlatConcat(a[1..], b);
      assert (a + b)[1..] == a[1..] + b;
      assert Flat(a) + Flat(b) == a[0] + (Flat(a[1..]) + Flat(b));
    }
  }

  lemma FlatContains(blocks: seq<seq<DiffLine>>, i: nat)
    requires i < |blocks|
    ensures Contains(Flat(blocks), blocks[i])
  {
    FlatSplit(blocks, i);
  }

  lemma FlatSplit(blocks: seq<seq<DiffLine>>, i: nat)
    requires i < |blocks|
    ensures Flat(blocks) == Flat(blocks[..i]) + blocks[i] + Flat(blocks[i + 1..])
  {
    var x, y := blocks[..i], blocks[i..];
    assert blocks == x + y;
    assert y[0] == blocks[i] && y[1..] == blocks[i + 1..];
    FlatConcat(x, y);
    FlatFirst(y);
    hide Flat;
    Appended(Flat(x), y[0], Flat(y[1..]));
  }

  lemma FlatFirst(blocks: seq<seq<DiffLine>>)
    requires blocks != []
    ensures Flat(blocks) == blocks[0] + Flat(blocks[1..])
  {
  }

  lemma FlatInOrder(blocks: seq<seq<DiffLine>>, i: nat, j: nat)
    requires i < j < |blocks|
    ensures InOrder(Flat(blocks), blocks[i], blocks[j])
  {
    var x, y := blocks[..j], blocks[j..];
    assert blocks == x + y;
    FlatConcat(x, y);
    FlatContains(x, i);
    FlatContains(y, 0);
    hide Flat, Contains;
    assert Flat(blocks) == Flat(x) + Flat(y);
  }

  lemma {:induction false} FlatMember(blocks: seq<seq<DiffLine>>, l: DiffLine) returns (i: nat)
    requires l in Flat(blocks)
    ensures i < |blocks| && l in blocks[i]
  {
    if l in blocks[0] {
      i := 0;
    } else {
      var k := FlatMember(blocks[1..], l);
      i := k + 1;
    }
  }

  lemma InOrderInside(open: DiffLine, lines: seq<DiffLine>, close: DiffLine, x: seq<DiffLine>, y: seq<DiffLine>)
    requires InOrder(lines, x, y)
    ensures InOrder([open] + lines + [close], x, y)
  {
    hide Contains;
    var u, v :| lines == u + v && Contains(u, x) && Contains(v, y);
    ContainsGrows([open], u, [], x);
    ContainsGrows([], v, [close], y);
    Regroup([open], u, v, [close]);
  }

  lemma Regroup(open: seq<DiffLine>, x: seq<DiffLine>, y: seq<DiffLine>, close: seq<DiffLine>)
    ensures open + (x + y) + close == (open + x + []) + ([] + y + close)
  {
  }

  lemma ContainsGrows(x: seq<DiffLine>, lines: seq<DiffLine>, y: seq<DiffLine>, block: seq<DiffLine>)
    requires Contains(lines, block)
    ensures Contains(x + lines + y, block)
  {
    ContainsPart(x, lines, y);
    ContainsTrans(x + lines + y, lines, block);
  }

  // ---------------------------------------------------------- sub-values

  /** A value inside a document, with its key and how deep it stands. */
  datatype Part = Part(key: Option<string>, value: Json, depth: nat)

  /** The values directly inside one. */
  function Inside(part: Part): (parts: seq<Part>)
    ensures forall i :: 0 <= i < |parts| ==> parts[i].value < part.value
  {
    match part.value
    case Object(fields) => FieldParts(fields, part.depth + 1)
    case Array(items) => ItemParts(items, part.depth + 1)
    case _ => []
  }

  function FieldParts(fields: seq<Field>, depth: nat): (parts: seq<Part>)
    ensures |parts| == |fields|
    ensures forall i :: 0 <= i < |fields| ==> parts[i] == Part(Some(fields[i].key), fields[i].value, depth)
  {
    seq(|fields|, i requires 0 <= i < |fields| => Part(Some(fields[i].key), fields[i].value, depth))
  }

  function ItemParts(items: seq<Json>, depth: nat): (parts: seq<Part>)
    ensures |parts| == |items| && forall i :: 0 <= i < |items| ==> parts[i] == Part(None, items[i], depth)
  {
    seq(|items|, i requires 0 <= i < |items| => Part(None, items[i], depth))
  }

  ghost predicate Within(whole: Part, part: Part)
    decreases whole.value
  {
    part == whole || exists i :: 0 <= i < |Inside(whole)| && Within(Inside(whole)[i], part)
  }

  lemma {:induction false} WithinTrans(whole: Part, middle: Part, part: Part)
    requires Within(whole, middle) && Within(middle, part)
    ensures Within(whole, part)
    decreases whole.value
  {
    if middle != whole {
      var i :| 0 <= i < |Inside(whole)| && Within(Inside(whole)[i], middle);
      WithinTrans(Inside(whole)[i], middle, part);
    }
  }

  lemma InsideIsWithin(whole: Part, i: nat)
    requires i < |Inside(whole)|
    ensures Within(whole, Inside(whole)[i])
  {
    assert Within(Inside(whole)[i], Inside(whole)[i]);
  }

  // ---------------------------------------------------------- expansion

  function PartLines(p: Printer, part: Part, mark: Mark): seq<DiffLine> {
    ExpandLines(p, Prefix(p, part.key), part.value, part.depth, mark)
  }

  function PartBlocks(p: Printer, parts: seq<Part>, mark: Mark): (blocks: seq<seq<DiffLine>>)
    ensures |blocks| == |parts| && forall i :: 0 <= i < |parts| ==> blocks[i] == PartLines(p, parts[i], mark)
  {
    seq(|parts|, i requires 0 <= i < |parts| => PartLines(p, parts[i], mark))
  }

  /** The value takes several lines: it is not empty, and no short list of scalars. */
  predicate Spread(p: Printer, v: Json) {
    (v.Object? && v.fields != []) || (v.Array? && v.items != [] && Inline(p, v.items).None?)
  }

  /** The lines a value itself is written in, apart from the values inside it. */
  predicate Writes(p: Printer, part: Part, mark: Mark, l: DiffLine) {
    var prefix := Prefix(p, part.key);
    if !Spread(p, part.value) then l == DiffLine(part.depth, mark, prefix + Collapsed(p, part.value))
    else if part.value.Object? then l in {DiffLine(part.depth, mark, prefix + "{"), DiffLine(part.depth, mark, "}")}
    else l in {DiffLine(part.depth, mark, prefix + "["), DiffLine(part.depth, mark, "]")}
  }

  /** The values written out when one is: those inside values that take several lines. */
  ghost predicate Unfolds(p: Printer, whole: Part, part: Part)
    decreases whole.value
  {
    || part == whole
    || (Spread(p, whole.value) && exists i :: 0 <= i < |Inside(whole)| && Unfolds(p, Inside(whole)[i], part))
  }

  lemma {:induction false} UnfoldsWithin(p: Printer, whole: Part, part: Part)
    requires Unfolds(p, whole, part)
    ensures Within(whole, part)
    decreases whole.value
  {
    if part != whole {
      var i :| 0 <= i < |Inside(whole)| && Unfolds(p, Inside(whole)[i], part);
      UnfoldsWithin(p, Inside(whole)[i], part);
    }
  }

  lemma {:induction false} FieldsLayout(p: Printer, fields: seq<Field>, depth: nat, mark: Mark)
    ensures ExpandFields(p, fields, depth, mark) == Flat(PartBlocks(p, FieldParts(fields, depth), mark))
  {
    if fields != [] {
      FieldsLayout(p, fields[1..], depth, mark);
      assert PartBlocks(p, FieldParts(fields, depth), mark)[1..] ==
        PartBlocks(p, FieldParts(fields[1..], depth), mark);
    }
  }

  lemma {:induction false} ItemsLayout(p: Printer, items: seq<Json>, depth: nat, mark: Mark)
    ensures ExpandItems(p, items, depth, mark) == Flat(PartBlocks(p, ItemParts(items, depth), mark))
  {
    if items != [] {
      ItemsLayout(p, items[1..], depth, mark);
      assert PartBlocks(p, ItemParts(items, depth), mark)[1..] == PartBlocks(p, ItemParts(items[1..], depth), mark);
    }
  }

  /** A value of several lines is written as an opening line, every value inside it in order,
      and a closing line. */
  lemma SpreadLayout(p: Printer, part: Part, mark: Mark) returns (open: DiffLine, close: DiffLine)
    requires Spread(p, part.value)
    ensures PartLines(p, part, mark) == [open] + Flat(PartBlocks(p, Inside(part), mark)) + [close]
    ensures forall l :: Writes(p, part, mark, l) <==> l == open || l == close
  {
    if part.value.Object? {
      FieldsLayout(p, part.value.fields, part.depth + 1, mark);
      open := DiffLine(part.depth, mark, Prefix(p, part.key) + "{");
      close := DiffLine(part.depth, mark, "}");
    } else {
      ItemsLayout(p, part.value.items, part.depth + 1, mark);
      open := DiffLine(part.depth, mark, Prefix(p, part.key) + "[");
      close := DiffLine(part.depth, mark, "]");
    }
  }

  /** The lines of an expansion are exactly those of the values it unfolds. */
  lemma {:induction false} ExpandExactly(p: Printer, part: Part, mark: Mark, l: DiffLine)
    ensures l in PartLines(p, part, mark) <==> exists sub :: Unfolds(p, part, sub) && Writes(p, sub, mark, l)
    decreases part.value
  {
    hide Writes, Inside;
    if Spread(p, part.value) {
      var open, close := SpreadLayout(p, part, mark);
      hide Spread, PartLines;
      var parts := Inside(part);
      var blocks := PartBlocks(p, parts, mark);
      if l in PartLines(p, part, mark) {
        if l == open || l == close {
          assert Unfolds(p, part, part);
        } else {
          var i := FlatMember(blocks, l);
          ExpandExactly(p, parts[i], mark, l);
          var sub :| Unfolds(p, parts[i], sub) && Writes(p, sub, mark, l);
          assert Unfolds(p, part, sub);
        }
      }
      if exists sub :: Unfolds(p, part, sub) && Writes(p, sub, mark, l) {
        var sub :| Unfolds(p, part, sub) && Writes(p, sub, mark, l);
        if sub != part {
          var i :| 0 <= i < |parts| && Unfolds(p, parts[i], sub);
          ExpandExactly(p, parts[i], mark, l);
          FlatContains(blocks, i);
          ContainsMember(Flat(blocks), blocks[i], l);
        }
      }
    } else {
      PlainLine(p, part, mark, l);
    }
  }

  lemma PlainLine(p: Printer, part: Part, mark: Mark, l: DiffLine)
    requires !Spread(p, part.value)
    ensures l in PartLines(p, part, mark) <==> exists sub :: Unfolds(p, part, sub) && Writes(p, sub, mark, l)
  {
    assert PartLines(p, part, mark) == [DiffLine(part.depth, mark, Prefix(p, part.key) + Collapsed(p, part.value))];
    assert forall sub :: Unfolds(p, part, sub) <==> sub == part;
    assert Writes(p, part, mark, l) <==> l in PartLines(p, part, mark);
  }

  lemma WrittenMark(p: Printer, part: Part, mark: Mark, l: DiffLine)
    requires l in PartLines(p, part, mark)
    ensures l.mark == mark
  {
    ExpandExactly(p, part, mark, l);
    var sub :| Unfolds(p, part, sub) && Writes(p, sub, mark, l);
    hide Unfolds, Spread;
  }

  // ---------------------------------------------------------- pairs

  /** An older and a newer value shown against each other. */
  datatype Pair = Pair(key: Option<string>, older: Json, newer: Json, depth: nat)

  function Compared(p: Printer, x: Pair): seq<DiffLine> {
    PairLines(p, Prefix(p, x.key), x.older, x.newer, x.depth)
  }

  predicate Objects(x: Pair) {
    !SameValue(x.older, x.newer) && x.older.Object? && x.newer.Object?
  }

  predicate Arrays(x: Pair) {
    !SameValue(x.older, x.newer) && x.older.Array? && x.newer.Array?
  }

  /** Different values, not both objects and not both arrays. */
  predicate Differs(x: Pair) {
    !SameValue(x.older, x.newer) && !(x.older.Object? && x.newer.Object?) && !(x.older.Array? && x.newer.Array?)
  }

  /** A newer item of a list matched by value that the older list has too. */
  predicate Quiet(p: Printer, before: seq<Json>, after: seq<Json>, i: int)
    requires 0 <= i < |after|
  {
    var keyed := Keyed(before, after);
    var j := IndexOf(ItemKeys(p, keyed, before), ItemKey(p, keyed, after[i]));
    !keyed && j >= 0 && SameValue(before[j], after[i])
  }

  /** How many quiet items stand just before position `i`. */
  function QuietBefore(p: Printer, before: seq<Json>, after: seq<Json>, i: nat): (n: nat)
    requires i <= |after|
    ensures n <= i && forall k :: i - n <= k < i ==> Quiet(p, before, after, k)
    ensures n < i ==> !Quiet(p, before, after, i - n - 1)
  {
    if i == 0 || !Quiet(p, before, after, i - 1) then 0 else QuietBefore(p, before, after, i - 1) + 1
  }

  /** Two values matched directly inside a pair: fields by name, items by key, in each case
      against the first of that name or key. */
  predicate Matches(p: Printer, x: Pair, y: Pair)
    ensures Matches(p, x, y) ==> y.older < x.older
  {
    || (Objects(x) && exists i :: 0 <= i < |x.older.fields| && MatchesField(x, y, i))
    || (Arrays(x) && exists i :: 0 <= i < |x.newer.items| && MatchesItem(p, x, y, i))
  }

  predicate MatchesField(x: Pair, y: Pair, i: int)
    requires Objects(x) && 0 <= i < |x.older.fields|
  {
    var key := x.older.fields[i].key;
    var j := IndexOf(FieldKeys(x.newer.fields), key);
    j >= 0 && y == Pair(Some(key), x.older.fields[i].value, x.newer.fields[j].value, x.depth + 1)
  }

  predicate MatchesItem(p: Printer, x: Pair, y: Pair, i: int)
    requires Arrays(x) && 0 <= i < |x.newer.items|
  {
    var before, after := x.older.items, x.newer.items;
    var keyed := Keyed(before, after);
    var j := IndexOf(ItemKeys(p, keyed, before), ItemKey(p, keyed, after[i]));
    j >= 0 && !Quiet(p, before, after, i) && y == Pair(None, before[j], after[i], x.depth + 1)
  }

  /** The pairs a diff visits, from the first. */
  ghost predicate Visits(p: Printer, x: Pair, y: Pair)
    decreases x.older
  {
    y == x || exists z :: Matches(p, x, z) && Visits(p, z, y)
  }

  // ---------------------------------------------------------- what a pair says

  /** The newer values with no partner: fields and items whose key the older side lacks, and
      the whole value where the two are not alike. */
  predicate Adds(p: Printer, x: Pair, part: Part) {
    || (Differs(x) && part == Part(x.key, x.newer, x.depth))
    || (Objects(x) && exists i :: 0 <= i < |x.newer.fields| && x.newer.fields[i].key !in FieldKeys(x.older.fields)
                                  && part == FieldParts(x.newer.fields, x.depth + 1)[i])
    || (Arrays(x) && exists i :: 0 <= i < |x.newer.items| && Unpartnered(p, x, x.older.items, x.newer.items[i])
                                 && part == ItemParts(x.newer.items, x.depth + 1)[i])
  }

  /** The older values with no partner. */
  predicate Removes(p: Printer, x: Pair, part: Part) {
    || (Differs(x) && part == Part(x.key, x.older, x.depth))
    || (Objects(x) && exists i :: 0 <= i < |x.older.fields| && x.older.fields[i].key !in FieldKeys(x.newer.fields)
                                  && part == FieldParts(x.older.fields, x.depth + 1)[i])
    || (Arrays(x) && exists i :: 0 <= i < |x.older.items| && Unpartnered(p, x, x.newer.items, x.older.items[i])
                                 && part == ItemParts(x.older.items, x.depth + 1)[i])
  }

  /** No item of the list has this item's key. */
  predicate Unpartnered(p: Printer, x: Pair, items: seq<Json>, item: Json)
    requires Arrays(x)
  {
    var keyed := Keyed(x.older.items, x.newer.items);
    ItemKey(p, keyed, item) !in ItemKeys(p, keyed, items)
  }

  /** The unmarked lines of a pair: its value when nothing changed, otherwise its brackets and
      a count for each run of quiet items. */
  predicate Keeps(p: Printer, x: Pair, l: DiffLine) {
    var prefix := Prefix(p, x.key);
    || (SameValue(x.older, x.newer) && l == DiffLine(x.depth, Same, prefix + Collapsed(p, x.newer)))
    || (Objects(x) && l in {DiffLine(x.depth, Same, prefix + "{"), DiffLine(x.depth, Same, "}")})
    || (Arrays(x) && l in {DiffLine(x.depth, Same, prefix + "["), DiffLine(x.depth, Same, "]")})
    || (Arrays(x) && exists i :: 0 <= i <= |x.newer.items| && Counts(p, x, i, l))
  }

  predicate Counts(p: Printer, x: Pair, i: int, l: DiffLine)
    requires Arrays(x) && 0 <= i <= |x.newer.items|
  {
    var n := QuietBefore(p, x.older.items, x.newer.items, i);
    && n > 0 && (i < |x.newer.items| ==> !Quiet(p, x.older.items, x.newer.items, i))
    && l == DiffLine(x.depth + 1, Same, "\U{2026} " + Decimal(n) + " unchanged")
  }

  /** The lines of a pair that are not those of a pair matched inside it. */
  ghost predicate Says(p: Printer, x: Pair, l: DiffLine) {
    || Keeps(p, x, l)
    || (exists part :: Adds(p, x, part) && l in PartLines(p, part, Added))
    || (exists part :: Removes(p, x, part) && l in PartLines(p, part, Removed))
  }

  // ---------------------------------------------------------- layout

  function FieldBlocks(p: Printer, before: seq<Field>, after: seq<Field>, depth: nat): (blocks: seq<seq<DiffLine>>)
    ensures |blocks| == |before|
    ensures forall i :: 0 <= i < |before| ==> blocks[i] == FieldBlock(p, before[i], after, depth)
  {
    seq(|before|, i requires 0 <= i < |before| => FieldBlock(p, before[i], after, depth))
  }

  function FieldBlock(p: Printer, f: Field, after: seq<Field>, depth: nat): seq<DiffLine> {
    var j := IndexOf(FieldKeys(after), f.key);
    if j >= 0 then Compared(p, Pair(Some(f.key), f.value, after[j].value, depth))
    else PartLines(p, Part(Some(f.key), f.value, depth), Removed)
  }

  function NewFieldBlocks(p: Printer, before: seq<Field>, after: seq<Field>, depth: nat): (blocks: seq<seq<DiffLine>>)
    ensures |blocks| == |after|
    ensures forall i :: 0 <= i < |after| ==> blocks[i] == NewFieldBlock(p, before, after[i], depth)
  {
    seq(|after|, i requires 0 <= i < |after| => NewFieldBlock(p, before, after[i], depth))
  }

  function NewFieldBlock(p: Printer, before: seq<Field>, f: Field, depth: nat): seq<DiffLine> {
    if f.key in FieldKeys(before) then [] else PartLines(p, Part(Some(f.key), f.value, depth), Added)
  }

  lemma {:induction false} FieldLinesLayout(p: Printer, before: seq<Field>, after: seq<Field>, depth: nat)
    ensures FieldLines(p, before, after, depth) == Flat(FieldBlocks(p, before, after, depth))
  {
    hide ExpandLines, PairLines;
    if before != [] {
      FieldLinesLayout(p, before[1..], after, depth);
      assert FieldBlocks(p, before, after, depth)[1..] == FieldBlocks(p, before[1..], after, depth);
    }
  }

  lemma {:induction false} NewFieldLinesLayout(p: Printer, before: seq<Field>, after: seq<Field>, depth: nat)
    ensures NewFieldLines(p, before, after, depth) == Flat(NewFieldBlocks(p, before, after, depth))
  {
    hide ExpandLines;
    if after != [] {
      NewFieldLinesLayout(p, before, after[1..], depth);
      assert NewFieldBlocks(p, before, after, depth)[1..] == NewFieldBlocks(p, before, after[1..], depth);
    }
  }

  function ObjectBlocks(p: Printer, x: Pair): seq<seq<DiffLine>>
    requires Objects(x)
  {
    FieldBlocks(p, x.older.fields, x.newer.fields, x.depth + 1)
    + NewFieldBlocks(p, x.older.fields, x.newer.fields, x.depth + 1)
  }

  function Opens(p: Printer, x: Pair): DiffLine {
    DiffLine(x.depth, Same, Prefix(p, x.key) + if x.older.Object? then "{" else "[")
  }

  function Closes(x: Pair): DiffLine {
    DiffLine(x.depth, Same, if x.older.Object? then "}" else "]")
  }

  /** Two objects: the older one's fields in its order, then those only the newer has in its. */
  lemma ObjectLayout(p: Printer, x: Pair)
    requires Objects(x)
    ensures Compared(p, x) == [Opens(p, x)] + Flat(ObjectBlocks(p, x)) + [Closes(x)]
  {
    var before, after, depth := x.older.fields, x.newer.fields, x.depth + 1;
    FieldLinesLayout(p, before, after, depth);
    NewFieldLinesLayout(p, before, after, depth);
    FlatConcat(FieldBlocks(p, before, after, depth), NewFieldBlocks(p, before, after, depth));
    hide FieldLines, NewFieldLines, FieldBlocks, NewFieldBlocks, SameValue, Flat;
    assert [Opens(p, x)] + FieldLines(p, before, after, depth) + NewFieldLines(p, before, after, depth) ==
      [Opens(p, x)] + (FieldLines(p, before, after, depth) + NewFieldLines(p, before, after, depth));
  }

  function NewItemBlocks(p: Printer, before: seq<Json>, after: seq<Json>, depth: nat): (blocks: seq<seq<DiffLine>>)
    ensures |blocks| == |after|
    ensures forall i :: 0 <= i < |after| ==> blocks[i] == NewItemBlock(p, before, after, i, depth)
  {
    seq(|after|, i requires 0 <= i < |after| => NewItemBlock(p, before, after, i, depth))
  }

  /** A shown item, after the count of the quiet ones just before it. */
  function NewItemBlock(p: Printer, before: seq<Json>, after: seq<Json>, i: int, depth: nat): seq<DiffLine>
    requires 0 <= i < |after|
  {
    if Quiet(p, before, after, i) then []
    else Flush(QuietBefore(p, before, after, i), depth) + ItemLines(p, Keyed(before, after), before, after[i], depth)
  }

  function OldItemBlocks(p: Printer, before: seq<Json>, after: seq<Json>, keyed: bool,
                         depth: nat): (blocks: seq<seq<DiffLine>>)
    ensures |blocks| == |before|
    ensures forall i :: 0 <= i < |before| ==> blocks[i] == OldItemBlock(p, before[i], after, keyed, depth)
  {
    seq(|before|, i requires 0 <= i < |before| => OldItemBlock(p, before[i], after, keyed, depth))
  }

  function OldItemBlock(p: Printer, b: Json, after: seq<Json>, keyed: bool, depth: nat): seq<DiffLine> {
    if ItemKey(p, keyed, b) in ItemKeys(p, keyed, after) then [] else PartLines(p, Part(None, b, depth), Removed)
  }

  /** The counter of the loop is the number of quiet items just before. */
  lemma NewItemStep(p: Printer, before: seq<Json>, after: seq<Json>, i: nat, depth: nat)
    requires i < |after|
    ensures
      var keyed := Keyed(before, after);
      NewItemLines(p, keyed, before, after[i..], QuietBefore(p, before, after, i), depth) ==
      NewItemBlock(p, before, after, i, depth)
      + NewItemLines(p, keyed, before, after[i + 1..], QuietBefore(p, before, after, i + 1), depth)
  {
    hide ItemLines, Flush, SameValue, Keyed, ItemKey, ItemKeys, IndexOf;
    assert after[i..][0] == after[i] && after[i..][1..] == after[i + 1..];
  }

  lemma {:induction false} NewItemLinesLayout(p: Printer, before: seq<Json>, after: seq<Json>, i: nat, depth: nat)
    requires i <= |after|
    ensures
      NewItemLines(p, Keyed(before, after), before, after[i..], QuietBefore(p, before, after, i), depth) ==
      Flat(NewItemBlocks(p, before, after, depth)[i..]) + Flush(QuietBefore(p, before, after, |after|), depth)
    decreases |after| - i
  {
    hide Flush, Keyed, QuietBefore, Quiet, NewItemBlock;
    var blocks := NewItemBlocks(p, before, after, depth);
    var end := Flush(QuietBefore(p, before, after, |after|), depth);
    if i < |after| {
      NewItemStep(p, before, after, i, depth);
      NewItemLinesLayout(p, before, after, i + 1, depth);
      assert blocks[i..][0] == blocks[i] && blocks[i..][1..] == blocks[i + 1..];
      hide NewItemLines, NewItemBlocks;
      Appended(blocks[i], Flat(blocks[i + 1..]), end);
    } else {
      assert after[i..] == [] && blocks[i..] == [];
      assert [] + end == end;
    }
  }

  lemma {:induction false} OldItemLinesLayout(p: Printer, keyed: bool, before: seq<Json>, after: seq<Json>, depth: nat)
    ensures OldItemLines(p, keyed, before, after, depth) == Flat(OldItemBlocks(p, before, after, keyed, depth))
  {
    hide ExpandLines;
    if before != [] {
      OldItemLinesLayout(p, keyed, before[1..], after, depth);
      assert OldItemBlocks(p, before, after, keyed, depth)[1..] == OldItemBlocks(p, before[1..], after, keyed, depth);
    }
  }

  function ArrayBlocks(p: Printer, x: Pair): seq<seq<DiffLine>>
    requires Arrays(x)
  {
    var before, after, depth := x.older.items, x.newer.items, x.depth + 1;
    NewItemBlocks(p, before, after, depth) + [Flush(QuietBefore(p, before, after, |after|), depth)]
    + OldItemBlocks(p, before, after, Keyed(before, after), depth)
  }

  lemma FlatAround(x: seq<seq<DiffLine>>, block: seq<DiffLine>, y: seq<seq<DiffLine>>)
    ensures Flat(x + [block] + y) == Flat(x) + block + Flat(y)
  {
    FlatConcat(x + [block], y);
    FlatConcat(x, [block]);
    assert [block][1..] == [];
    assert block + [] == block;
    assert Flat([block]) == block + Flat([]);
  }

  lemma ArrayLinesLayout(p: Printer, x: Pair)
    requires Arrays(x)
    ensures ArrayLines(p, x.older.items, x.newer.items, x.depth + 1) == Flat(ArrayBlocks(p, x))
  {
    hide SameValue, Flush, Keyed, NewItemLines, OldItemLines, NewItemBlocks, OldItemBlocks, Flat;
    var before, after, depth := x.older.items, x.newer.items, x.depth + 1;
    var keyed := Keyed(before, after);
    var newer, older := NewItemBlocks(p, before, after, depth), OldItemBlocks(p, before, after, keyed, depth);
    var end := Flush(QuietBefore(p, before, after, |after|), depth);
    NewItemLinesLayout(p, before, after, 0, depth);
    assert after[0..] == after && newer[0..] == newer;
    OldItemLinesLayout(p, keyed, before, after, depth);
    FlatAround(newer, end, older);
  }

  lemma ArrayOpened(p: Printer, x: Pair)
    requires Arrays(x)
    ensures Compared(p, x) ==
      [Opens(p, x)] + ArrayLines(p, x.older.items, x.newer.items, x.depth + 1) + [Closes(x)]
  {
    hide ArrayLines, SameValue, Prefix, FieldLines, NewFieldLines, ExpandLines, Collapsed;
  }

  /** Two lists: the newer items in their order, each run of quiet ones counted where it ends,
      then the older ones that are gone in theirs. */
  lemma ArrayLayout(p: Printer, x: Pair)
    requires Arrays(x)
    ensures Compared(p, x) == [Opens(p, x)] + Flat(ArrayBlocks(p, x)) + [Closes(x)]
  {
    hide ArrayLines, SameValue, Flat, ArrayBlocks, Prefix, Compared;
    ArrayLinesLayout(p, x);
    ArrayOpened(p, x);
  }

  predicate Nests(x: Pair) {
    Objects(x) || Arrays(x)
  }

  function Blocks(p: Printer, x: Pair): seq<seq<DiffLine>>
    requires Nests(x)
  {
    if Objects(x) then ObjectBlocks(p, x) else ArrayBlocks(p, x)
  }

  lemma Layout(p: Printer, x: Pair)
    requires Nests(x)
    ensures Compared(p, x) == [Opens(p, x)] + Flat(Blocks(p, x)) + [Closes(x)]
  {
    hide Compared, ObjectBlocks, ArrayBlocks, Opens, Closes, Flat, SameValue;
    if Objects(x) {
      ObjectLayout(p, x);
    } else {
      ArrayLayout(p, x);
    }
  }

  lemma BlockShown(p: Printer, x: Pair, i: nat, block: seq<DiffLine>)
    requires Nests(x) && i < |Blocks(p, x)| && Contains(Blocks(p, x)[i], block)
    ensures Contains(Compared(p, x), block)
  {
    hide Compared, Blocks, Opens, Closes, Flat, Nests, Contains;
    Layout(p, x);
    FlatContains(Blocks(p, x), i);
    ContainsTrans(Flat(Blocks(p, x)), Blocks(p, x)[i], block);
    ContainsGrows([Opens(p, x)], Flat(Blocks(p, x)), [Closes(x)], block);
  }

  /** Blocks stand in order. */
  lemma BlocksInOrder(p: Printer, x: Pair, i: nat, j: nat)
    requires Nests(x) && i < j < |Blocks(p, x)|
    ensures InOrder(Compared(p, x), Blocks(p, x)[i], Blocks(p, x)[j])
  {
    hide Compared, Blocks, Opens, Closes, Flat, Nests, InOrder;
    Layout(p, x);
    FlatInOrder(Blocks(p, x), i, j);
    InOrderInside(Opens(p, x), Flat(Blocks(p, x)), Closes(x), Blocks(p, x)[i], Blocks(p, x)[j]);
  }

  // ---------------------------------------------------------- everything said is shown

  lemma MatchShown(p: Printer, x: Pair, z: Pair)
    requires Matches(p, x, z)
    ensures Contains(Compared(p, x), Compared(p, z))
  {
    hide Compared, SameValue, Contains;
    if Objects(x) {
      var i :| 0 <= i < |x.older.fields| && MatchesField(x, z, i);
      assert Blocks(p, x)[i] == Compared(p, z);
      ContainsSelf(Compared(p, z));
      BlockShown(p, x, i, Compared(p, z));
    } else {
      var i :| 0 <= i < |x.newer.items| && MatchesItem(p, x, z, i);
      ItemShown(p, x, z, i);
      BlockShown(p, x, i, Compared(p, z));
    }
  }

  lemma ItemShown(p: Printer, x: Pair, z: Pair, i: nat)
    requires Arrays(x) && i < |x.newer.items| && MatchesItem(p, x, z, i)
    ensures i < |Blocks(p, x)| && Contains(Blocks(p, x)[i], Compared(p, z))
  {
    hide SameValue, Contains, Quiet, PairLines, Flush;
    var before, after, depth := x.older.items, x.newer.items, x.depth + 1;
    var count := Flush(QuietBefore(p, before, after, i), depth);
    assert Prefix(p, None) == "";
    assert Blocks(p, x)[i] == count + Compared(p, z) + [];
    ContainsPart(count, Compared(p, z), []);
  }

  lemma AddShown(p: Printer, x: Pair, part: Part)
    requires Adds(p, x, part)
    ensures Contains(Compared(p, x), PartLines(p, part, Added))
  {
    hide SameValue, Contains, Compared, PartLines;
    if Differs(x) {
      DifferenceShown(p, x);
    } else if Objects(x) {
      var i :| 0 <= i < |x.newer.fields| && x.newer.fields[i].key !in FieldKeys(x.older.fields)
               && part == FieldParts(x.newer.fields, x.depth + 1)[i];
      NewFieldShown(p, x, i);
    } else {
      var i :| 0 <= i < |x.newer.items| && Unpartnered(p, x, x.older.items, x.newer.items[i])
               && part == ItemParts(x.newer.items, x.depth + 1)[i];
      NewItemShown(p, x, i);
    }
  }

  lemma NewFieldShown(p: Printer, x: Pair, i: nat)
    requires Objects(x) && i < |x.newer.fields| && x.newer.fields[i].key !in FieldKeys(x.older.fields)
    ensures Contains(Compared(p, x), PartLines(p, FieldParts(x.newer.fields, x.depth + 1)[i], Added))
  {
    hide SameValue, Contains, Compared, PartLines;
    var block := PartLines(p, FieldParts(x.newer.fields, x.depth + 1)[i], Added);
    assert Blocks(p, x)[|x.older.fields| + i] == block;
    ContainsSelf(block);
    BlockShown(p, x, |x.older.fields| + i, block);
  }

  /** A value replaced by one unlike it: all of the old one, then all of the new one. */
  lemma DifferenceShown(p: Printer, x: Pair)
    requires Differs(x)
    ensures
      var removed := PartLines(p, Part(x.key, x.older, x.depth), Removed);
      var added := PartLines(p, Part(x.key, x.newer, x.depth), Added);
      Compared(p, x) == removed + added && Contains(Compared(p, x), removed) && Contains(Compared(p, x), added)
  {
    hide SameValue, ExpandLines, Contains;
    var removed := PartLines(p, Part(x.key, x.older, x.depth), Removed);
    var added := PartLines(p, Part(x.key, x.newer, x.depth), Added);
    assert Compared(p, x) == removed + added;
    ContainsPart([], removed, added);
    ContainsPart(removed, added, []);
    assert [] + removed + added == removed + added == removed + added + [];
  }

  lemma NewItemInBlock(p: Printer, x: Pair, i: nat)
    requires Arrays(x) && i < |x.newer.items| && Unpartnered(p, x, x.older.items, x.newer.items[i])
    ensures i < |Blocks(p, x)|
    ensures Contains(Blocks(p, x)[i], PartLines(p, ItemParts(x.newer.items, x.depth + 1)[i], Added))
  {
    hide SameValue, Contains, ExpandLines, Flush;
    var before, after, depth := x.older.items, x.newer.items, x.depth + 1;
    var count := Flush(QuietBefore(p, before, after, i), depth);
    var block := PartLines(p, Part(None, after[i], depth), Added);
    assert Prefix(p, None) == "";
    assert Blocks(p, x)[i] == count + block + [];
    ContainsPart(count, block, []);
  }

  lemma NewItemShown(p: Printer, x: Pair, i: nat)
    requires Arrays(x) && i < |x.newer.items| && Unpartnered(p, x, x.older.items, x.newer.items[i])
    ensures Contains(Compared(p, x), PartLines(p, ItemParts(x.newer.items, x.depth + 1)[i], Added))
  {
    hide SameValue, Contains, Compared, PartLines, Blocks, Unpartnered;
    NewItemInBlock(p, x, i);
    BlockShown(p, x, i, PartLines(p, ItemParts(x.newer.items, x.depth + 1)[i], Added));
  }

  lemma RemoveShown(p: Printer, x: Pair, part: Part)
    requires Removes(p, x, part)
    ensures Contains(Compared(p, x), PartLines(p, part, Removed))
  {
    hide SameValue, Contains, Compared, PartLines;
    if Differs(x) {
      DifferenceShown(p, x);
    } else if Objects(x) {
      var i :| 0 <= i < |x.older.fields| && x.older.fields[i].key !in FieldKeys(x.newer.fields)
               && part == FieldParts(x.older.fields, x.depth + 1)[i];
      OldFieldShown(p, x, i);
    } else {
      var i :| 0 <= i < |x.older.items| && Unpartnered(p, x, x.newer.items, x.older.items[i])
               && part == ItemParts(x.older.items, x.depth + 1)[i];
      OldItemShown(p, x, i);
    }
  }

  lemma OldFieldShown(p: Printer, x: Pair, i: nat)
    requires Objects(x) && i < |x.older.fields| && x.older.fields[i].key !in FieldKeys(x.newer.fields)
    ensures Contains(Compared(p, x), PartLines(p, FieldParts(x.older.fields, x.depth + 1)[i], Removed))
  {
    hide SameValue, Contains, Compared, PartLines;
    var block := PartLines(p, FieldParts(x.older.fields, x.depth + 1)[i], Removed);
    assert Blocks(p, x)[i] == block;
    ContainsSelf(block);
    BlockShown(p, x, i, block);
  }

  lemma OldItemShown(p: Printer, x: Pair, i: nat)
    requires Arrays(x) && i < |x.older.items| && Unpartnered(p, x, x.newer.items, x.older.items[i])
    ensures Contains(Compared(p, x), PartLines(p, ItemParts(x.older.items, x.depth + 1)[i], Removed))
  {
    hide SameValue, Contains, Compared, PartLines, Flush;
    var block := PartLines(p, ItemParts(x.older.items, x.depth + 1)[i], Removed);
    assert Blocks(p, x)[|x.newer.items| + 1 + i] == block;
    ContainsSelf(block);
    BlockShown(p, x, |x.newer.items| + 1 + i, block);
  }

  lemma KeepShown(p: Printer, x: Pair, l: DiffLine)
    requires Keeps(p, x, l)
    ensures l in Compared(p, x)
  {
    hide SameValue, QuietBefore, Quiet, Collapsed;
    if Nests(x) {
      Layout(p, x);
      if l != Opens(p, x) && l != Closes(x) {
        hide Compared;
        var i :| 0 <= i <= |x.newer.items| && Counts(p, x, i, l);
        CountShown(p, x, i, l);
      }
    }
  }

  lemma CountShown(p: Printer, x: Pair, i: nat, l: DiffLine)
    requires Arrays(x) && i <= |x.newer.items| && Counts(p, x, i, l)
    ensures l in Compared(p, x)
  {
    hide SameValue, QuietBefore, Quiet, Compared, ItemLines;
    var before, after, depth := x.older.items, x.newer.items, x.depth + 1;
    var count := Flush(QuietBefore(p, before, after, i), depth);
    assert l in count;
    assert l in Blocks(p, x)[i];
    ContainsLine(Blocks(p, x)[i], l);
    BlockShown(p, x, i, [l]);
    ContainsLine(Compared(p, x), l);
  }

  // ---------------------------------------------------------- everything shown is said

  /** The line is the pair's own, or that of a pair matched inside it. */
  ghost predicate Accounted(p: Printer, x: Pair, l: DiffLine) {
    Says(p, x, l) || exists z :: Matches(p, x, z) && l in Compared(p, z)
  }

  lemma OldFieldAccounted(p: Printer, x: Pair, i: nat, l: DiffLine)
    requires Objects(x) && i < |x.older.fields|
    requires l in FieldBlock(p, x.older.fields[i], x.newer.fields, x.depth + 1)
    ensures Accounted(p, x, l)
  {
    hide SameValue, Compared, PartLines, Keeps;
    var f := x.older.fields[i];
    var j := IndexOf(FieldKeys(x.newer.fields), f.key);
    if j >= 0 {
      var z := Pair(Some(f.key), f.value, x.newer.fields[j].value, x.depth + 1);
      assert MatchesField(x, z, i);
      assert Matches(p, x, z);
    } else {
      assert f.key !in FieldKeys(x.newer.fields);
      assert Removes(p, x, FieldParts(x.older.fields, x.depth + 1)[i]);
    }
  }

  lemma NewFieldAccounted(p: Printer, x: Pair, i: nat, l: DiffLine)
    requires Objects(x) && i < |x.newer.fields|
    requires l in NewFieldBlock(p, x.older.fields, x.newer.fields[i], x.depth + 1)
    ensures Accounted(p, x, l)
  {
    hide SameValue, Compared, PartLines, Keeps, Matches;
    assert Adds(p, x, FieldParts(x.newer.fields, x.depth + 1)[i]);
  }

  lemma CountAccounted(p: Printer, x: Pair, i: nat, l: DiffLine)
    requires Arrays(x) && i <= |x.newer.items|
    requires i < |x.newer.items| ==> !Quiet(p, x.older.items, x.newer.items, i)
    requires l in Flush(QuietBefore(p, x.older.items, x.newer.items, i), x.depth + 1)
    ensures Accounted(p, x, l)
  {
    hide SameValue, Compared, PartLines, Matches, Quiet, Adds, Removes;
    assert Counts(p, x, i, l);
    assert Keeps(p, x, l);
  }

  lemma NewItemAccounted(p: Printer, x: Pair, i: nat, l: DiffLine)
    requires Arrays(x) && i < |x.newer.items| && !Quiet(p, x.older.items, x.newer.items, i)
    requires l in ItemLines(p, Keyed(x.older.items, x.newer.items), x.older.items, x.newer.items[i], x.depth + 1)
    ensures Accounted(p, x, l)
  {
    hide SameValue, Keeps, Quiet, PairLines, ExpandLines;
    var before, after, depth := x.older.items, x.newer.items, x.depth + 1;
    var keyed := Keyed(before, after);
    var j := IndexOf(ItemKeys(p, keyed, before), ItemKey(p, keyed, after[i]));
    assert Prefix(p, None) == "";
    if j >= 0 {
      var z := Pair(None, before[j], after[i], depth);
      assert MatchesItem(p, x, z, i);
      assert Matches(p, x, z) && l in Compared(p, z);
    } else {
      assert Unpartnered(p, x, before, after[i]);
      assert Adds(p, x, ItemParts(after, depth)[i]);
    }
  }

  lemma OldItemAccounted(p: Printer, x: Pair, i: nat, l: DiffLine)
    requires Arrays(x) && i < |x.older.items|
    requires l in OldItemBlock(p, x.older.items[i], x.newer.items, Keyed(x.older.items, x.newer.items), x.depth + 1)
    ensures Accounted(p, x, l)
  {
    hide SameValue, Compared, PartLines, Keeps, Matches;
    assert Unpartnered(p, x, x.newer.items, x.older.items[i]);
    assert Removes(p, x, ItemParts(x.older.items, x.depth + 1)[i]);
  }

  lemma ObjectBlockAt(p: Printer, x: Pair, i: nat)
    requires Objects(x) && i < |ObjectBlocks(p, x)|
    ensures
      var n := |x.older.fields|;
      && |ObjectBlocks(p, x)| == n + |x.newer.fields|
      && ObjectBlocks(p, x)[i] ==
         if i < n then FieldBlock(p, x.older.fields[i], x.newer.fields, x.depth + 1)
         else NewFieldBlock(p, x.older.fields, x.newer.fields[i - n], x.depth + 1)
  {
    hide SameValue, FieldBlock, NewFieldBlock;
  }

  lemma ObjectAccounted(p: Printer, x: Pair, l: DiffLine)
    requires Objects(x) && l in Flat(ObjectBlocks(p, x))
    ensures Accounted(p, x, l)
  {
    hide SameValue, Accounted, Flat, FieldBlock, NewFieldBlock, ObjectBlocks;
    var i := FlatMember(ObjectBlocks(p, x), l);
    ObjectBlockAt(p, x, i);
    var n := |x.older.fields|;
    if i < n {
      OldFieldAccounted(p, x, i, l);
    } else {
      NewFieldAccounted(p, x, i - n, l);
    }
  }

  lemma ArrayBlockAt(p: Printer, x: Pair, i: nat)
    requires Arrays(x) && i < |ArrayBlocks(p, x)|
    ensures
      var before, after, n, depth := x.older.items, x.newer.items, |x.newer.items|, x.depth + 1;
      && |ArrayBlocks(p, x)| == n + 1 + |before|
      && ArrayBlocks(p, x)[i] ==
         if i < n then NewItemBlock(p, before, after, i, depth)
         else if i == n then Flush(QuietBefore(p, before, after, n), depth)
         else OldItemBlock(p, before[i - n - 1], after, Keyed(before, after), depth)
  {
    hide SameValue, NewItemBlock, OldItemBlock, Keyed, Flush;
  }

  lemma ArrayAccounted(p: Printer, x: Pair, l: DiffLine)
    requires Arrays(x) && l in Flat(ArrayBlocks(p, x))
    ensures Accounted(p, x, l)
  {
    hide SameValue, Accounted, Flat, Flush, ItemLines, OldItemBlock, Quiet, QuietBefore, Keyed, ArrayBlocks;
    var i := FlatMember(ArrayBlocks(p, x), l);
    ArrayBlockAt(p, x, i);
    var n := |x.newer.items|;
    if i < n {
      if l in Flush(QuietBefore(p, x.older.items, x.newer.items, i), x.depth + 1) {
        CountAccounted(p, x, i, l);
      } else {
        NewItemAccounted(p, x, i, l);
      }
    } else if i == n {
      CountAccounted(p, x, n, l);
    } else {
      OldItemAccounted(p, x, i - n - 1, l);
    }
  }

  lemma LineAccounted(p: Printer, x: Pair, l: DiffLine)
    requires l in Compared(p, x)
    ensures Accounted(p, x, l)
  {
    hide SameValue, Matches, Accounted, Collapsed;
    if Nests(x) {
      Layout(p, x);
      hide Compared, ObjectBlocks, ArrayBlocks, Flat;
      if l == Opens(p, x) || l == Closes(x) {
        BracketAccounted(p, x, l);
      } else if Objects(x) {
        ObjectAccounted(p, x, l);
      } else {
        ArrayAccounted(p, x, l);
      }
    } else {
      LeafAccounted(p, x, l);
    }
  }

  lemma BracketAccounted(p: Printer, x: Pair, l: DiffLine)
    requires Nests(x) && (l == Opens(p, x) || l == Closes(x))
    ensures Accounted(p, x, l)
  {
    hide SameValue, Counts, Adds, Removes, Matches;
    assert Keeps(p, x, l);
  }

  lemma LeafAccounted(p: Printer, x: Pair, l: DiffLine)
    requires !Nests(x) && l in Compared(p, x)
    ensures Accounted(p, x, l)
  {
    hide SameValue, Matches, ExpandLines, Contains;
    if Differs(x) {
      DifferenceShown(p, x);
      assert Adds(p, x, Part(x.key, x.newer, x.depth));
      assert Removes(p, x, Part(x.key, x.older, x.depth));
    } else {
      assert Keeps(p, x, l);
    }
  }

  // ---------------------------------------------------------- every line of a diff

  lemma SaidIsShown(p: Printer, x: Pair, l: DiffLine)
    requires Says(p, x, l)
    ensures l in Compared(p, x)
  {
    hide Keeps, Adds, Removes, Compared, PartLines, Contains;
    if Keeps(p, x, l) {
      KeepShown(p, x, l);
    } else if exists part :: Adds(p, x, part) && l in PartLines(p, part, Added) {
      var part :| Adds(p, x, part) && l in PartLines(p, part, Added);
      AddShown(p, x, part);
      ContainsMember(Compared(p, x), PartLines(p, part, Added), l);
    } else {
      var part :| Removes(p, x, part) && l in PartLines(p, part, Removed);
      RemoveShown(p, x, part);
      ContainsMember(Compared(p, x), PartLines(p, part, Removed), l);
    }
  }

  /** The lines of every visited pair stand together. */
  lemma {:induction false} VisitShown(p: Printer, x: Pair, y: Pair)
    requires Visits(p, x, y)
    ensures Contains(Compared(p, x), Compared(p, y))
    decreases x.older
  {
    hide Matches, Compared, Contains;
    if y == x {
      ContainsSelf(Compared(p, x));
    } else {
      var z :| Matches(p, x, z) && Visits(p, z, y);
      VisitShown(p, z, y);
      MatchShown(p, x, z);
      ContainsTrans(Compared(p, x), Compared(p, z), Compared(p, y));
    }
  }

  /** The lines of a comparison are exactly those its visited pairs say. */
  lemma {:induction false} LinesExactly(p: Printer, x: Pair, l: DiffLine)
    ensures l in Compared(p, x) <==> exists y :: Visits(p, x, y) && Says(p, y, l)
    decreases x.older
  {
    hide Matches, Compared, Contains, Says;
    if l in Compared(p, x) {
      LineAccounted(p, x, l);
      if Says(p, x, l) {
        assert Visits(p, x, x);
      } else {
        var z :| Matches(p, x, z) && l in Compared(p, z);
        LinesExactly(p, z, l);
        var y :| Visits(p, z, y) && Says(p, y, l);
        assert Visits(p, x, y);
      }
    }
    if exists y :: Visits(p, x, y) && Says(p, y, l) {
      var y :| Visits(p, x, y) && Says(p, y, l);
      SaidIsShown(p, y, l);
      VisitShown(p, x, y);
      ContainsMember(Compared(p, x), Compared(p, y), l);
    }
  }

  // ---------------------------------------------------------- which document it comes from

  function Newer(x: Pair): Part {
    Part(x.key, x.newer, x.depth)
  }

  function Older(x: Pair): Part {
    Part(x.key, x.older, x.depth)
  }

  lemma FieldWithin(x: Pair, y: Pair, i: nat)
    requires Objects(x) && i < |x.older.fields| && MatchesField(x, y, i)
    ensures Within(Newer(x), Newer(y)) && Within(Older(x), Older(y))
  {
    hide SameValue, Within;
    InsideIsWithin(Newer(x), IndexOf(FieldKeys(x.newer.fields), x.older.fields[i].key));
    InsideIsWithin(Older(x), i);
  }

  lemma ItemWithin(p: Printer, x: Pair, y: Pair, i: nat)
    requires Arrays(x) && i < |x.newer.items| && MatchesItem(p, x, y, i)
    ensures Within(Newer(x), Newer(y)) && Within(Older(x), Older(y))
  {
    hide SameValue, Within, Quiet;
    var keyed := Keyed(x.older.items, x.newer.items);
    InsideIsWithin(Newer(x), i);
    InsideIsWithin(Older(x), IndexOf(ItemKeys(p, keyed, x.older.items), ItemKey(p, keyed, x.newer.items[i])));
  }

  lemma MatchWithin(p: Printer, x: Pair, y: Pair)
    requires Matches(p, x, y)
    ensures Within(Newer(x), Newer(y)) && Within(Older(x), Older(y))
  {
    hide SameValue, Within, MatchesField, MatchesItem, Newer, Older;
    if Objects(x) {
      var i :| 0 <= i < |x.older.fields| && MatchesField(x, y, i);
      FieldWithin(x, y, i);
    } else {
      var i :| 0 <= i < |x.newer.items| && MatchesItem(p, x, y, i);
      ItemWithin(p, x, y, i);
    }
  }

  lemma {:induction false} VisitWithin(p: Printer, x: Pair, y: Pair)
    requires Visits(p, x, y)
    ensures Within(Newer(x), Newer(y)) && Within(Older(x), Older(y))
    decreases x.older
  {
    hide Matches;
    if y != x {
      var z :| Matches(p, x, z) && Visits(p, z, y);
      VisitWithin(p, z, y);
      MatchWithin(p, x, z);
      WithinTrans(Newer(x), Newer(z), Newer(y));
      WithinTrans(Older(x), Older(z), Older(y));
    }
  }

  lemma AddWithin(p: Printer, x: Pair, part: Part)
    requires Adds(p, x, part)
    ensures Within(Newer(x), part)
  {
    hide SameValue, Unpartnered;
    if !Differs(x) {
      hide Within;
      var i :| 0 <= i < |Inside(Newer(x))| && part == Inside(Newer(x))[i];
      InsideIsWithin(Newer(x), i);
    }
  }

  lemma RemoveWithin(p: Printer, x: Pair, part: Part)
    requires Removes(p, x, part)
    ensures Within(Older(x), part)
  {
    hide SameValue, Unpartnered;
    if !Differs(x) {
      hide Within;
      var i :| 0 <= i < |Inside(Older(x))| && part == Inside(Older(x))[i];
      InsideIsWithin(Older(x), i);
    }
  }

  /** The line is written for a value that a visited pair adds, or for one inside it. */
  ghost predicate AddedIn(p: Printer, x: Pair, y: Pair, part: Part, sub: Part, l: DiffLine) {
    Visits(p, x, y) && Adds(p, y, part) && Unfolds(p, part, sub) && Writes(p, sub, Added, l)
  }

  ghost predicate RemovedIn(p: Printer, x: Pair, y: Pair, part: Part, sub: Part, l: DiffLine) {
    Visits(p, x, y) && Removes(p, y, part) && Unfolds(p, part, sub) && Writes(p, sub, Removed, l)
  }

  lemma AddedFrom(p: Printer, x: Pair, l: DiffLine)
    requires l in Compared(p, x) && l.mark == Added
    ensures exists y, part, sub :: AddedIn(p, x, y, part, sub, l)
  {
    hide Compared, PartLines, Adds, Removes, Writes, Unfolds, Visits;
    LinesExactly(p, x, l);
    var y :| Visits(p, x, y) && Says(p, y, l);
    KeptIsSame(p, y, l);
    if exists part :: Removes(p, y, part) && l in PartLines(p, part, Removed) {
      var part :| Removes(p, y, part) && l in PartLines(p, part, Removed);
      WrittenMark(p, part, Removed, l);
    }
    var part :| Adds(p, y, part) && l in PartLines(p, part, Added);
    ExpandExactly(p, part, Added, l);
    var sub :| Unfolds(p, part, sub) && Writes(p, sub, Added, l);
    assert AddedIn(p, x, y, part, sub, l);
  }

  lemma RemovedFrom(p: Printer, x: Pair, l: DiffLine)
    requires l in Compared(p, x) && l.mark == Removed
    ensures exists y, part, sub :: RemovedIn(p, x, y, part, sub, l)
  {
    hide Compared, PartLines, Adds, Removes, Writes, Unfolds, Visits;
    LinesExactly(p, x, l);
    var y :| Visits(p, x, y) && Says(p, y, l);
    KeptIsSame(p, y, l);
    if exists part :: Adds(p, y, part) && l in PartLines(p, part, Added) {
      var part :| Adds(p, y, part) && l in PartLines(p, part, Added);
      WrittenMark(p, part, Added, l);
    }
    var part :| Removes(p, y, part) && l in PartLines(p, part, Removed);
    ExpandExactly(p, part, Removed, l);
    var sub :| Unfolds(p, part, sub) && Writes(p, sub, Removed, l);
    assert RemovedIn(p, x, y, part, sub, l);
  }

  lemma KeptIsSame(p: Printer, x: Pair, l: DiffLine)
    ensures Keeps(p, x, l) ==> l.mark == Same
  {
    hide SameValue;
  }

  /** An unmatched value is written out whole, in one piece and under its mark: a newer one as
      added, an older one as removed. */
  lemma ChangesAreWhole(p: Printer, x: Pair, y: Pair, part: Part)
    requires Visits(p, x, y)
    ensures Adds(p, y, part) ==> Contains(Compared(p, x), PartLines(p, part, Added))
    ensures Removes(p, y, part) ==> Contains(Compared(p, x), PartLines(p, part, Removed))
  {
    hide Compared, PartLines, Adds, Removes, Visits, Contains;
    VisitShown(p, x, y);
    if Adds(p, y, part) {
      AddShown(p, y, part);
      ContainsTrans(Compared(p, x), Compared(p, y), PartLines(p, part, Added));
    }
    if Removes(p, y, part) {
      RemoveShown(p, y, part);
      ContainsTrans(Compared(p, x), Compared(p, y), PartLines(p, part, Removed));
    }
  }

  /** A line marked as added is exactly one written for a newer value with no partner, or for
      a value inside it; and then that value is in the newer document. */
  lemma AddedExactly(p: Printer, b: Json, a: Json, l: DiffLine)
    requires l.mark == Added
    ensures l in DiffLines(p, Some(b), a) <==> exists y, part, sub :: AddedIn(p, Pair(None, b, a, 0), y, part, sub, l)
    ensures l in DiffLines(p, Some(b), a) ==> exists sub :: Within(Part(None, a, 0), sub) && Writes(p, sub, Added, l)
  {
    hide PairLines, PartLines, Adds, Writes, Unfolds, Visits, Contains, Within;
    var x := Pair(None, b, a, 0);
    if l in Compared(p, x) {
      AddedFrom(p, x, l);
    }
    if exists y, part, sub :: AddedIn(p, x, y, part, sub, l) {
      var y, part, sub :| AddedIn(p, x, y, part, sub, l);
      ChangesAreWhole(p, x, y, part);
      ExpandExactly(p, part, Added, l);
      ContainsMember(Compared(p, x), PartLines(p, part, Added), l);
      VisitWithin(p, x, y);
      AddWithin(p, y, part);
      UnfoldsWithin(p, part, sub);
      WithinTrans(Newer(x), Newer(y), part);
      WithinTrans(Newer(x), part, sub);
    }
  }

  /** A line marked as removed is exactly one of an older value with no partner. */
  lemma RemovedExactly(p: Printer, b: Json, a: Json, l: DiffLine)
    requires l.mark == Removed
    ensures l in DiffLines(p, Some(b), a) <==> exists y, part, sub :: RemovedIn(p, Pair(None, b, a, 0), y, part, sub, l)
    ensures l in DiffLines(p, Some(b), a) ==> exists sub :: Within(Part(None, b, 0), sub) && Writes(p, sub, Removed, l)
  {
    hide PairLines, PartLines, Removes, Writes, Unfolds, Visits, Contains, Within;
    var x := Pair(None, b, a, 0);
    if l in Compared(p, x) {
      RemovedFrom(p, x, l);
    }
    if exists y, part, sub :: RemovedIn(p, x, y, part, sub, l) {
      var y, part, sub :| RemovedIn(p, x, y, part, sub, l);
      ChangesAreWhole(p, x, y, part);
      ExpandExactly(p, part, Removed, l);
      ContainsMember(Compared(p, x), PartLines(p, part, Removed), l);
      VisitWithin(p, x, y);
      RemoveWithin(p, y, part);
      UnfoldsWithin(p, part, sub);
      WithinTrans(Older(x), Older(y), part);
      WithinTrans(Older(x), part, sub);
    }
  }

  /** A line is unmarked exactly when it is one a visited pair keeps. */
  lemma KeptExactly(p: Printer, b: Json, a: Json, l: DiffLine)
    requires l.mark == Same
    ensures l in DiffLines(p, Some(b), a) <==> exists y :: Visits(p, Pair(None, b, a, 0), y) && Keeps(p, y, l)
  {
    hide PairLines, PartLines, Adds, Removes, Keeps, Visits;
    var x := Pair(None, b, a, 0);
    LinesExactly(p, x, l);
    forall y | Says(p, y, l) ensures Keeps(p, y, l) {
      if exists part :: Adds(p, y, part) && l in PartLines(p, part, Added) {
        var part :| Adds(p, y, part) && l in PartLines(p, part, Added);
        WrittenMark(p, part, Added, l);
      }
      if exists part :: Removes(p, y, part) && l in PartLines(p, part, Removed) {
        var part :| Removes(p, y, part) && l in PartLines(p, part, Removed);
        WrittenMark(p, part, Removed, l);
      }
    }
  }

  /** With no older document, everything is added. */
  lemma AllAdded(p: Printer, a: Json, l: DiffLine)
    ensures l in DiffLines(p, None, a) <==>
      exists sub :: Unfolds(p, Part(None, a, 0), sub) && Writes(p, sub, Added, l)
  {
    hide Unfolds, Writes;
    ExpandExactly(p, Part(None, a, 0), Added, l);
  }
}
