/** The structural diff of two policy documents (`desktop/src/org.rs`). */
module JsonDiff {
  import opened Wrappers
  import opened Collections
  import opened Numerals

  /** A JSON value. An object's fields keep the order they are iterated in;
      numbers are known by their printed form. */
  datatype Json =
    | Null
    | Bool(b: bool)
    | Number(digits: string)
    | Str(s: string)
    | Array(items: seq<Json>)
    | Object(fields: seq<Field>)

  datatype Field = Field(key: string, value: Json)

  /** `Value::to_string`: the printer itself is not part of this model. */
  type Printer = Json -> string

  datatype Mark = Same | Added | Removed

  datatype DiffLine = DiffLine(depth: nat, mark: Mark, text: string)

  // ---------------------------------------------------------- keys

  function FieldKeys(fields: seq<Field>): (keys: seq<string>)
    ensures |keys| == |fields| && forall i :: 0 <= i < |fields| ==> keys[i] == fields[i].key
  {
    seq(|fields|, i requires 0 <= i < |fields| => fields[i].key)
  }

  /** A rule's ID: the string under "id" of an object. */
  function Id(v: Json): Option<string> {
    if !v.Object? then None
    else
      var i := IndexOf(FieldKeys(v.fields), "id");
      if i >= 0 && v.fields[i].value.Str? then Some(v.fields[i].value.s) else None
  }

  predicate AllIds(items: seq<Json>) {
    forall i :: 0 <= i < |items| ==> Id(items[i]).Some?
  }

  /** Two arrays are matched by ID when every item of both has one, else by value. */
  predicate Keyed(before: seq<Json>, after: seq<Json>) {
    AllIds(before) && AllIds(after)
  }

  function ItemKey(p: Printer, keyed: bool, v: Json): string {
    if keyed then (if Id(v).Some? then Id(v).value else "") else p(v)
  }

  function ItemKeys(p: Printer, keyed: bool, items: seq<Json>): (keys: seq<string>)
    ensures |keys| == |items| && forall i :: 0 <= i < |items| ==> keys[i] == ItemKey(p, keyed, items[i])
  {
    seq(|items|, i requires 0 <= i < |items| => ItemKey(p, keyed, items[i]))
  }

  /** `==` on JSON values: the order of an object's fields does not matter. */
  predicate SameValue(x: Json, y: Json) {
    match (x, y)
    case (Array(p), Array(q)) =>
      |p| == |q| && forall i :: 0 <= i < |p| ==> SameValue(p[i], q[i])
    case (Object(f), Object(g)) =>
      |f| == |g| && forall i :: 0 <= i < |f| ==>
        var j := IndexOf(FieldKeys(g), f[i].key);
        j >= 0 && SameValue(f[i].value, g[j].value)
    case _ => x == y
  }

  // ---------------------------------------------------------- text

  function Joined(p: Printer, items: seq<Json>): string {
    if items == [] then ""
    else if |items| == 1 then p(items[0])
    else p(items[0]) + ", " + Joined(p, items[1..])
  }

  /** Short arrays of scalars fit on one line. */
  function Inline(p: Printer, items: seq<Json>): Option<string> {
    if exists i :: 0 <= i < |items| && (items[i].Object? || items[i].Array?) then None
    else
      var text := "[" + Joined(p, items) + "]";
      if |text| <= 48 then Some(text) else None
  }

  function Collapsed(p: Printer, v: Json): string {
    match v
    case Object(fields) =>
      if fields == [] then "{}"
      else
        var i := IndexOf(FieldKeys(fields), "id");
        if i >= 0 then "{ \"id\": " + p(fields[i].value) + ", \U{2026} }" else "{ \U{2026} }"
    case Array(items) =>
      if items == [] then "[]"
      else
        var line := Inline(p, items);
        if line.Some? then line.value
        else "[ \U{2026} " + Decimal(|items|) + " item" + (if |items| == 1 then "" else "s") + " ]"
    case _ => p(v)
  }

  function Prefix(p: Printer, key: Option<string>): string {
    if key.Some? then p(Str(key.value)) + ": " else ""
  }

  // ---------------------------------------------------------- lines

  function ExpandLines(p: Printer, prefix: string, v: Json, depth: nat, mark: Mark): seq<DiffLine>
    decreases v, 1
  {
    if v.Object? && v.fields != [] then
      [DiffLine(depth, mark, prefix + "{")] + ExpandFields(p, v.fields, depth + 1, mark) + [DiffLine(depth, mark, "}")]
    else if v.Array? && v.items != [] && Inline(p, v.items).None? then
      [DiffLine(depth, mark, prefix + "[")] + ExpandItems(p, v.items, depth + 1, mark) + [DiffLine(depth, mark, "]")]
    else
      [DiffLine(depth, mark, prefix + Collapsed(p, v))]
  }

  function ExpandFields(p: Printer, fields: seq<Field>, depth: nat, mark: Mark): seq<DiffLine>
    decreases fields, 0
  {
    if fields == [] then []
    else ExpandLines(p, Prefix(p, Some(fields[0].key)), fields[0].value, depth, mark) + ExpandFields(p, fields[1..],
        depth, mark)
  }

  function ExpandItems(p: Printer, items: seq<Json>, depth: nat, mark: Mark): seq<DiffLine>
    decreases items, 0
  {
    if items == [] then []
    else ExpandLines(p, "", items[0], depth, mark) + ExpandItems(p, items[1..], depth, mark)
  }

  /** The lines for a value present on both sides. */
  function PairLines(p: Printer, prefix: string, b: Json, a: Json, depth: nat): seq<DiffLine>
    decreases b, 1
  {
    if SameValue(b, a) then
      [DiffLine(depth, Same, prefix + Collapsed(p, a))]
    else if b.Object? && a.Object? then
      [DiffLine(depth, Same, prefix + "{")]
      + FieldLines(p, b.fields, a.fields, depth + 1) + NewFieldLines(p, b.fields, a.fields, depth + 1)
      + [DiffLine(depth, Same, "}")]
    else if b.Array? && a.Array? then
      [DiffLine(depth, Same, prefix + "[")] + ArrayLines(p, b.items, a.items, depth + 1) + [DiffLine(depth, Same, "]")]
    else
      ExpandLines(p, prefix, b, depth, Removed) + ExpandLines(p, prefix, a, depth, Added)
  }

  /** The fields of the older object, each against its namesake. */
  function FieldLines(p: Printer, before: seq<Field>, after: seq<Field>, depth: nat): seq<DiffLine>
    decreases before, 0
  {
    if before == [] then []
    else
      var f := before[0];
      var i := IndexOf(FieldKeys(after), f.key);
      (if i >= 0 then PairLines(p, Prefix(p, Some(f.key)), f.value, after[i].value, depth)
       else ExpandLines(p, Prefix(p, Some(f.key)), f.value, depth, Removed))
      + FieldLines(p, before[1..], after, depth)
  }

  /** The fields only the newer object has. */
  function NewFieldLines(p: Printer, before: seq<Field>, after: seq<Field>, depth: nat): seq<DiffLine> {
    if after == [] then []
    else
      (if after[0].key in FieldKeys(before) then []
       else ExpandLines(p, Prefix(p, Some(after[0].key)), after[0].value, depth, Added))
      + NewFieldLines(p, before, after[1..], depth)
  }

  function Flush(quiet: nat, depth: nat): seq<DiffLine> {
    if quiet > 0 then [DiffLine(depth, Same, "\U{2026} " + Decimal(quiet) + " unchanged")] else []
  }

  function ArrayLines(p: Printer, before: seq<Json>, after: seq<Json>, depth: nat): seq<DiffLine>
    decreases before, 2
  {
    var keyed := Keyed(before, after);
    NewItemLines(p, keyed, before, after, 0, depth) + OldItemLines(p, keyed, before, after, depth)
  }

  /** The newer items, each against the first older item of its key. */
  function NewItemLines(p: Printer, keyed: bool, before: seq<Json>, after: seq<Json>, quiet: nat,
                        depth: nat): seq<DiffLine>
    decreases before, 0, |after|
  {
    if after == [] then Flush(quiet, depth)
    else
      var a := after[0];
      var j := IndexOf(ItemKeys(p, keyed, before), ItemKey(p, keyed, a));
      if j >= 0 && !keyed && SameValue(before[j], a) then
        NewItemLines(p, keyed, before, after[1..], quiet + 1, depth)
      else
        Flush(quiet, depth) + ItemLines(p, keyed, before, a, depth) + NewItemLines(p, keyed, before, after[1..], 0,
            depth)
  }

  /** What one newer item shows, unless it is only counted. */
  function ItemLines(p: Printer, keyed: bool, before: seq<Json>, a: Json, depth: nat): seq<DiffLine>
    decreases before, 0, 0
  {
    var j := IndexOf(ItemKeys(p, keyed, before), ItemKey(p, keyed, a));
    if j >= 0 then PairLines(p, "", before[j], a, depth) else ExpandLines(p, "", a, depth, Added)
  }

  /** The older items whose key is gone. */
  function OldItemLines(p: Printer, keyed: bool, before: seq<Json>, after: seq<Json>, depth: nat): seq<DiffLine>
  {
    if before == [] then []
    else
      (if ItemKey(p, keyed, before[0]) in ItemKeys(p, keyed, after) then []
       else ExpandLines(p, "", before[0], depth, Removed))
      + OldItemLines(p, keyed, before[1..], after, depth)
  }

  function NodeLines(p: Printer, key: Option<string>, before: Option<Json>, after: Option<Json>,
                     depth: nat): seq<DiffLine> {
    match (before, after)
    case (Some(b), Some(a)) => PairLines(p, Prefix(p, key), b, a, depth)
    case (None, Some(a)) => ExpandLines(p, Prefix(p, key), a, depth, Added)
    case (Some(b), None) => ExpandLines(p, Prefix(p, key), b, depth, Removed)
    case (None, None) => []
  }

  function DiffLines(p: Printer, before: Option<Json>, after: Json): seq<DiffLine> {
    NodeLines(p, None, before, Some(after), 0)
  }

  // ---------------------------------------------------------- the algorithm

  /** The vector the recursion pushes its lines to. */
  class Output {
    var lines: seq<DiffLine>

    constructor ()
      ensures lines == []
    {
      lines := [];
    }

    method Push(depth: nat, mark: Mark, text: string)
      modifies this
      ensures lines == old(lines) + [DiffLine(depth, mark, text)]
    {
      lines := lines + [DiffLine(depth, mark, text)];
    }
  }

  lemma Appended(pushed: seq<DiffLine>, head: seq<DiffLine>, rest: seq<DiffLine>)
    ensures pushed + (head + rest) == pushed + head + rest
  {
  }

  method DiffTree(p: Printer, before: Option<Json>, after: Json) returns (lines: seq<DiffLine>)
    ensures lines == DiffLines(p, before, after)
  {
    var out := new Output();
    DiffNode(p, None, before, Some(after), 0, out);
    lines := out.lines;
  }

  method Expand(p: Printer, prefix: string, v: Json, depth: nat, mark: Mark, out: Output)
    modifies out
    ensures out.lines == old(out.lines) + ExpandLines(p, prefix, v, depth, mark)
    decreases v, 1
  {
    if v.Object? && v.fields != [] {
      out.Push(depth, mark, prefix + "{");
      ExpandEachField(p, v.fields, depth + 1, mark, out);
      out.Push(depth, mark, "}");
    } else if v.Array? && v.items != [] && Inline(p, v.items).None? {
      out.Push(depth, mark, prefix + "[");
      ExpandEachItem(p, v.items, depth + 1, mark, out);
      out.Push(depth, mark, "]");
    } else {
      out.Push(depth, mark, prefix + Collapsed(p, v));
    }
  }

  method ExpandEachField(p: Printer, fields: seq<Field>, depth: nat, mark: Mark, out: Output)
    modifies out
    ensures out.lines == old(out.lines) + ExpandFields(p, fields, depth, mark)
    decreases fields, 0
  {
    for i := 0 to |fields|
      invariant out.lines + ExpandFields(p, fields[i..], depth, mark) == old(out.lines) + ExpandFields(p, fields,
          depth, mark)
    {
      hide ExpandLines, Prefix;
      ghost var pushed := out.lines;
      Expand(p, Prefix(p, Some(fields[i].key)), fields[i].value, depth, mark, out);
      assert fields[i..][1..] == fields[i + 1..];
      Appended(pushed, ExpandLines(p, Prefix(p, Some(fields[i].key)), fields[i].value, depth, mark),
               ExpandFields(p, fields[i + 1..], depth, mark));
    }
  }

  method ExpandEachItem(p: Printer, items: seq<Json>, depth: nat, mark: Mark, out: Output)
    modifies out
    ensures out.lines == old(out.lines) + ExpandItems(p, items, depth, mark)
    decreases items, 0
  {
    for i := 0 to |items|
      invariant out.lines + ExpandItems(p, items[i..], depth, mark) == old(out.lines) + ExpandItems(p, items, depth,
          mark)
    {
      hide ExpandLines;
      ghost var pushed := out.lines;
      Expand(p, "", items[i], depth, mark, out);
      assert items[i..][1..] == items[i + 1..];
      Appended(pushed, ExpandLines(p, "", items[i], depth, mark), ExpandItems(p, items[i + 1..], depth, mark));
    }
  }

  method DiffNode(p: Printer, key: Option<string>, before: Option<Json>, after: Option<Json>, depth: nat, out: Output)
    modifies out
    ensures out.lines == old(out.lines) + NodeLines(p, key, before, after, depth)
    decreases before.Some? && after.Some?, if before.Some? then before.value else Null, 1
  {
    hide ExpandLines, FieldLines, NewFieldLines, ArrayLines, Collapsed, Prefix, SameValue;
    var prefix := Prefix(p, key);
    match (before, after) {
      case (Some(b), Some(a)) =>
        if SameValue(b, a) {
          out.Push(depth, Same, prefix + Collapsed(p, a));
        } else if b.Object? && a.Object? {
          out.Push(depth, Same, prefix + "{");
          DiffFields(p, b.fields, a.fields, depth + 1, out);
          DiffNewFields(p, b.fields, a.fields, depth + 1, out);
          out.Push(depth, Same, "}");
        } else if b.Array? && a.Array? {
          out.Push(depth, Same, prefix + "[");
          DiffArray(p, b.items, a.items, depth + 1, out);
          out.Push(depth, Same, "]");
        } else {
          Expand(p, prefix, b, depth, Removed, out);
          Expand(p, prefix, a, depth, Added, out);
        }
      case (None, Some(a)) => Expand(p, prefix, a, depth, Added, out);
      case (Some(b), None) => Expand(p, prefix, b, depth, Removed, out);
      case (None, None) =>
    }
  }

  method DiffFields(p: Printer, before: seq<Field>, after: seq<Field>, depth: nat, out: Output)
    modifies out
    ensures out.lines == old(out.lines) + FieldLines(p, before, after, depth)
    decreases true, before, 0
  {
    for i := 0 to |before|
      invariant out.lines + FieldLines(p, before[i..], after, depth) == old(out.lines) + FieldLines(p, before, after,
          depth)
    {
      hide ExpandLines, PairLines, Prefix, IndexOf;
      ghost var pushed := out.lines;
      var j := IndexOf(FieldKeys(after), before[i].key);
      var partner := if j >= 0 then Some(after[j].value) else None;
      DiffNode(p, Some(before[i].key), Some(before[i].value), partner, depth, out);
      assert before[i..][1..] == before[i + 1..];
      Appended(pushed, NodeLines(p, Some(before[i].key), Some(before[i].value), partner, depth),
               FieldLines(p, before[i + 1..], after, depth));
    }
  }

  method DiffNewFields(p: Printer, before: seq<Field>, after: seq<Field>, depth: nat, out: Output)
    modifies out
    ensures out.lines == old(out.lines) + NewFieldLines(p, before, after, depth)
    decreases true, before, 0
  {
    hide ExpandLines, Prefix, FieldKeys, PairLines;
    for i := 0 to |after|
      invariant out.lines + NewFieldLines(p, before, after[i..], depth) == old(out.lines) + NewFieldLines(p, before,
          after, depth)
    {
      ghost var pushed := out.lines;
      assert after[i..][1..] == after[i + 1..];
      if after[i].key !in FieldKeys(before) {
        DiffNode(p, Some(after[i].key), None, Some(after[i].value), depth, out);
        Appended(pushed, ExpandLines(p, Prefix(p, Some(after[i].key)), after[i].value, depth, Added),
                 NewFieldLines(p, before, after[i + 1..], depth));
      }
    }
  }

  method FlushCount(quiet: nat, depth: nat, out: Output) returns (reset: nat)
    modifies out
    ensures reset == 0 && out.lines == old(out.lines) + Flush(quiet, depth)
  {
    if quiet > 0 {
      out.Push(depth, Same, "\U{2026} " + Decimal(quiet) + " unchanged");
    }
    reset := 0;
  }

  method DiffArray(p: Printer, before: seq<Json>, after: seq<Json>, depth: nat, out: Output)
    modifies out
    ensures out.lines == old(out.lines) + ArrayLines(p, before, after, depth)
    decreases true, before, 2
  {
    hide NewItemLines, OldItemLines, Keyed;
    ghost var pushed := out.lines;
    var keyed := Keyed(before, after);
    DiffNewItems(p, keyed, before, after, depth, out);
    DiffOldItems(p, keyed, before, after, depth, out);
    Appended(pushed, NewItemLines(p, keyed, before, after, 0, depth), OldItemLines(p, keyed, before, after, depth));
  }

  method DiffNewItems(p: Printer, keyed: bool, before: seq<Json>, after: seq<Json>, depth: nat, out: Output)
    modifies out
    ensures out.lines == old(out.lines) + NewItemLines(p, keyed, before, after, 0, depth)
    decreases true, before, 1
  {
    var quiet := 0;
    for i := 0 to |after|
      invariant out.lines + NewItemLines(p, keyed, before, after[i..], quiet, depth)
             == old(out.lines) + NewItemLines(p, keyed, before, after, 0, depth)
    {
      var a := after[i];
      assert after[i..][1..] == after[i + 1..];
      var j := IndexOf(ItemKeys(p, keyed, before), ItemKey(p, keyed, a));
      hide ExpandLines, PairLines, SameValue, Flush, ItemKeys, ItemKey, IndexOf;
      if j >= 0 && !keyed && SameValue(before[j], a) {
        quiet := quiet + 1;
      } else {
        ghost var pushed, flushed := out.lines, Flush(quiet, depth);
        quiet := FlushCount(quiet, depth, out);
        var partner := if j >= 0 then Some(before[j]) else None;
        DiffNode(p, None, partner, Some(a), depth, out);
        ghost var node := NodeLines(p, None, partner, Some(a), depth);
        Appended(pushed, flushed, node);
        Appended(pushed, flushed + node, NewItemLines(p, keyed, before, after[i + 1..], 0, depth));
      }
    }
    quiet := FlushCount(quiet, depth, out);
  }

  lemma OldItemsStep(p: Printer, keyed: bool, before: seq<Json>, after: seq<Json>, i: nat, depth: nat)
    requires i < |before|
    ensures OldItemLines(p, keyed, before[i..], after, depth) ==
      (if ItemKey(p, keyed, before[i]) in ItemKeys(p, keyed, after) then [] else ExpandLines(p, "", before[i], depth,
          Removed))
      + OldItemLines(p, keyed, before[i + 1..], after, depth)
  {
    hide ExpandLines, ItemKeys, ItemKey;
    assert before[i..][1..] == before[i + 1..];
  }

  method DiffOldItems(p: Printer, keyed: bool, before: seq<Json>, after: seq<Json>, depth: nat, out: Output)
    modifies out
    ensures out.lines == old(out.lines) + OldItemLines(p, keyed, before, after, depth)
    decreases true, before, 1
  {
    assert before[0..] == before;
    for i := 0 to |before|
      invariant out.lines + OldItemLines(p, keyed, before[i..], after, depth)
             == old(out.lines) + OldItemLines(p, keyed, before, after, depth)
    {
      hide ExpandLines, ItemKeys, ItemKey, OldItemLines;
      ghost var pushed, rest := out.lines, OldItemLines(p, keyed, before[i + 1..], after, depth);
      OldItemsStep(p, keyed, before, after, i, depth);
      if ItemKey(p, keyed, before[i]) !in ItemKeys(p, keyed, after) {
        DiffNode(p, None, Some(before[i]), None, depth, out);
        Appended(pushed, ExpandLines(p, "", before[i], depth, Removed), rest);
      } else {
        assert [] + rest == rest;
      }
    }
  }
}
