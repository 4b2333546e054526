/** Lexical paths: the cleanup of `desktop/src/options.rs`, which mirrors Go's
    `filepath.Clean`, and what a path means. Paths are Unix paths. */
module Paths {
  import opened Collections

  /** A path's components: whether it starts at the root, and its names and `..`s.
      Repeated slashes and `.` leave nothing. */
  datatype Path = Path(rooted: bool, parts: seq<string>)

  const UP := ".."

  function Kept(part: string): seq<string> {
    if part == "" || part == "." then [] else [part]
  }

  function Parts(text: string): seq<string> {
    var i := IndexOf(text, '/');
    if i < 0 then Kept(text) else Kept(text[..i]) + Parts(text[i + 1..])
  }

  predicate IsRooted(text: string) {
    text != [] && text[0] == '/'
  }

  function Components(text: string): Path {
    Path(IsRooted(text), Parts(text))
  }

  function Joined(parts: seq<string>): string {
    if parts == [] then "" else if |parts| == 1 then parts[0] else parts[0] + "/" + Joined(parts[1..])
  }

  function Text(p: Path): string {
    if p.rooted then "/" + Joined(p.parts) else if p.parts == [] then "." else Joined(p.parts)
  }

  predicate IsPart(part: string) {
    part != "" && part != "." && '/' !in part
  }

  predicate AreParts(parts: seq<string>) {
    forall i :: 0 <= i < |parts| ==> IsPart(parts[i])
  }

  // ---------------------------------------------------------- text and components

  lemma {:induction false} FirstSlash(a: string, b: string)
    requires '/' !in a
    ensures IndexOf(a + "/" + b, '/') == |a|
  {
    var text := a + "/" + b;
    if a != [] {
      FirstSlash(a[1..], b);
      assert text[1..] == a[1..] + "/" + b;
      assert text[0] == a[0];
    }
  }

  lemma PartsStep(head: string, tail: string)
    requires '/' !in head
    ensures Parts(head + "/" + tail) == Kept(head) + Parts(tail)
  {
    var text := head + "/" + tail;
    FirstSlash(head, tail);
    assert text[..|head|] == head && text[|head| + 1..] == tail;
  }

  lemma PartsOfName(part: string)
    requires '/' !in part
    ensures Parts(part) == Kept(part)
  {
    assert IndexOf(part, '/') < 0;
  }

  lemma {:induction false} PartsAreParts(text: string)
    ensures AreParts(Parts(text))
  {
    hide IndexOf;
    var i := IndexOf(text, '/');
    if i >= 0 {
      PartsAreParts(text[i + 1..]);
      KeptIsPart(text[..i]);
      hide Kept;
    } else {
      KeptIsPart(text);
    }
  }

  lemma KeptIsPart(part: string)
    requires '/' !in part
    ensures AreParts(Kept(part))
  {
  }

  /** A slash separates the components before it from those after it. */
  lemma {:induction false} PartsOfSlash(a: string, b: string)
    ensures Parts(a + "/" + b) == Parts(a) + Parts(b)
  {
    hide Parts, Kept, IndexOf;
    var i := IndexOf(a, '/');
    if i < 0 {
      PartsStep(a, b);
      PartsOfName(a);
    } else {
      var head, tail := a[..i], a[i + 1..];
      assert a == head + "/" + tail;
      assert a + "/" + b == head + "/" + (tail + "/" + b);
      PartsStep(head, tail);
      PartsStep(head, tail + "/" + b);
      PartsOfSlash(tail, b);
      assert Kept(head) + Parts(tail) + Parts(b) == Kept(head) + (Parts(tail) + Parts(b));
    }
  }

  lemma {:induction false} PartsOfJoined(parts: seq<string>)
    requires AreParts(parts)
    ensures Parts(Joined(parts)) == parts
  {
    hide Parts;
    if parts == [] {
      PartsOfName("");
    } else if |parts| == 1 {
      PartsOfName(parts[0]);
    } else {
      PartsOfJoined(parts[1..]);
      PartsStep(parts[0], Joined(parts[1..]));
    }
  }

  lemma {:induction false} JoinedConcat(x: seq<string>, y: seq<string>)
    requires x != [] && y != []
    ensures Joined(x + y) == Joined(x) + "/" + Joined(y)
  {
    if |x| == 1 {
      assert (x + y)[1..] == y;
    } else {
      JoinedConcat(x[1..], y);
      assert (x + y)[1..] == x[1..] + y;
    }
  }

  lemma JoinedIsRelative(parts: seq<string>)
    requires AreParts(parts)
    ensures !IsRooted(Joined(parts))
  {
    if parts != [] {
      assert IsPart(parts[0]);
      assert Joined(parts)[0] == parts[0][0];
    }
  }

  /** Reading a path's text back gives the path. */
  lemma ComponentsOfText(p: Path)
    requires AreParts(p.parts)
    ensures Components(Text(p)) == p
  {
    hide Parts, Joined;
    PartsOfJoined(p.parts);
    if p.rooted {
      assert Text(p) == "" + "/" + Joined(p.parts);
      PartsStep("", Joined(p.parts));
    } else {
      JoinedIsRelative(p.parts);
      PartsOfName(".");
    }
  }

  // ---------------------------------------------------------- cleaning

  /** The components left when each `..` has removed the name before it. */
  function Normal(rooted: bool, parts: seq<string>): (clean: seq<string>)
    ensures |clean| <= |parts|
  {
    if parts == [] then []
    else Pushed(rooted, Normal(rooted, parts[..|parts| - 1]), parts[|parts| - 1])
  }

  function Pushed(rooted: bool, clean: seq<string>, part: string): (r: seq<string>)
    ensures |r| <= |clean| + 1
  {
    if part != UP then clean + [part]
    else if clean != [] && clean[|clean| - 1] != UP then clean[..|clean| - 1]
    else if clean == [] && rooted then clean
    else clean + [UP]
  }

  function Clean(p: Path): Path {
    Path(p.rooted, Normal(p.rooted, p.parts))
  }

  function CleanText(text: string): string {
    Text(Clean(Components(text)))
  }

  /** `clean_path`: push each component, or let `..` pop the last name. */
  method CleanPath(text: string) returns (r: string)
    ensures r == CleanText(text)
  {
    hide Normal, Components, Text;
    var p := Components(text);
    var result: seq<string> := [];
    NormalOfNothing(p.rooted);
    for i := 0 to |p.parts|
      invariant result == Normal(p.rooted, p.parts[..i])
    {
      assert p.parts[..i + 1] == p.parts[..i] + [p.parts[i]];
      NormalStep(p.rooted, p.parts[..i], p.parts[i]);
      var component := p.parts[i];
      if component == UP {
        if result != [] && result[|result| - 1] != UP {
          result := result[..|result| - 1];
        } else if result == [] && p.rooted {
        } else {
          result := result + [component];
        }
      } else {
        result := result + [component];
      }
    }
    assert p.parts[..|p.parts|] == p.parts;
    r := Text(Path(p.rooted, result));
  }

  lemma {:induction false} NormalAreParts(rooted: bool, parts: seq<string>)
    requires AreParts(parts)
    ensures AreParts(Normal(rooted, parts))
  {
    if parts != [] {
      NormalAreParts(rooted, parts[..|parts| - 1]);
      assert IsPart(parts[|parts| - 1]);
    }
  }

  /** The components of a cleaned text are the cleaned components. */
  lemma ComponentsOfClean(text: string)
    ensures Components(CleanText(text)) == Clean(Components(text)) && AreParts(Clean(Components(text)).parts)
  {
    PartsAreParts(text);
    NormalAreParts(IsRooted(text), Parts(text));
    ComponentsOfText(Clean(Components(text)));
  }

  /** `..` is left only as a leading run, and not at all from the root. */
  predicate IsNormal(rooted: bool, parts: seq<string>) {
    (rooted ==> UP !in parts) && forall i, j :: 0 <= i < j < |parts| && parts[j] == UP ==> parts[i] == UP
  }

  lemma {:induction false} NormalIsNormal(rooted: bool, parts: seq<string>)
    ensures IsNormal(rooted, Normal(rooted, parts))
  {
    if parts != [] {
      NormalIsNormal(rooted, parts[..|parts| - 1]);
    }
  }

  lemma NormalPrefix(rooted: bool, parts: seq<string>, part: string)
    requires IsNormal(rooted, parts + [part])
    ensures IsNormal(rooted, parts) && Pushed(rooted, parts, part) == parts + [part]
  {
    var all := parts + [part];
    assert forall i :: 0 <= i < |parts| ==> all[i] == parts[i];
    assert all[|parts|] == part;
  }

  lemma {:induction false} NormalKeepsNormal(rooted: bool, parts: seq<string>)
    requires IsNormal(rooted, parts)
    ensures Normal(rooted, parts) == parts
  {
    hide IsNormal;
    if parts != [] {
      var init, last := parts[..|parts| - 1], parts[|parts| - 1];
      assert parts == init + [last];
      NormalPrefix(rooted, init, last);
      NormalKeepsNormal(rooted, init);
      hide Pushed;
      NormalStep(rooted, init, last);
    }
  }

  lemma NormalOfNothing(rooted: bool)
    ensures Normal(rooted, []) == []
  {
  }

  lemma NormalStep(rooted: bool, parts: seq<string>, part: string)
    ensures Normal(rooted, parts + [part]) == Pushed(rooted, Normal(rooted, parts), part)
  {
    assert (parts + [part])[..|parts|] == parts;
  }

  /** Components may be cleaned as they come: cleaning a beginning first changes nothing. */
  lemma {:induction false} NormalOfConcat(rooted: bool, x: seq<string>, y: seq<string>)
    ensures Normal(rooted, x + y) == Normal(rooted, Normal(rooted, x) + y)
  {
    var clean := Normal(rooted, x);
    if y == [] {
      NormalIsNormal(rooted, x);
      NormalKeepsNormal(rooted, clean);
      assert x + y == x && clean + y == clean;
    } else {
      var init, last := y[..|y| - 1], y[|y| - 1];
      NormalOfConcat(rooted, x, init);
      assert (x + y)[..|x + y| - 1] == x + init;
      assert (clean + y)[..|clean + y| - 1] == clean + init;
    }
  }

  // ---------------------------------------------------------- meaning

  /** Where a walk leads from a directory, `..` at the root staying there. */
  function Walk(stack: seq<string>, parts: seq<string>): seq<string> {
    if parts == [] then stack
    else
      var here := Walk(stack, parts[..|parts| - 1]);
      var part := parts[|parts| - 1];
      if part != UP then here + [part] else if here == [] then [] else here[..|here| - 1]
  }

  function Meaning(cwd: seq<string>, p: Path): seq<string> {
    Walk(if p.rooted then [] else cwd, p.parts)
  }

  lemma WalkStep(stack: seq<string>, parts: seq<string>, part: string)
    ensures Walk(stack, parts + [part]) ==
      var here := Walk(stack, parts);
      if part != UP then here + [part] else if here == [] then [] else here[..|here| - 1]
  {
    assert (parts + [part])[..|parts|] == parts;
  }

  /** Pushing a component onto clean ones leads where walking it does. */
  lemma WalkPushed(rooted: bool, stack: seq<string>, clean: seq<string>, part: string)
    requires rooted ==> stack == []
    ensures Walk(stack, Pushed(rooted, clean, part)) == Walk(stack, clean + [part])
  {
    WalkStep(stack, clean, part);
    if clean != [] {
      var init, last := clean[..|clean| - 1], clean[|clean| - 1];
      assert clean == init + [last];
      WalkStep(stack, init, last);
    }
  }

  lemma {:induction false} WalkNormal(rooted: bool, stack: seq<string>, parts: seq<string>)
    requires rooted ==> stack == []
    ensures Walk(stack, Normal(rooted, parts)) == Walk(stack, parts)
  {
    hide Walk, Pushed;
    if parts != [] {
      var init, part := parts[..|parts| - 1], parts[|parts| - 1];
      WalkNormal(rooted, stack, init);
      WalkPushed(rooted, stack, Normal(rooted, init), part);
      assert parts == init + [part];
      WalkStep(stack, init, part);
      WalkStep(stack, Normal(rooted, init), part);
    }
  }

  /** A cleaned path leads where the original does, from any directory. */
  lemma CleanKeepsMeaning(cwd: seq<string>, text: string)
    ensures Meaning(cwd, Components(CleanText(text))) == Meaning(cwd, Components(text))
  {
    ComponentsOfClean(text);
    WalkNormal(IsRooted(text), if IsRooted(text) then [] else cwd, Parts(text));
  }

  lemma CleanIsIdempotent(text: string)
    ensures CleanText(CleanText(text)) == CleanText(text)
  {
    ComponentsOfClean(text);
    NormalIsNormal(IsRooted(text), Parts(text));
    NormalKeepsNormal(IsRooted(text), Normal(IsRooted(text), Parts(text)));
  }

  /** `Path::join` with a relative path. */
  function Join(a: string, b: string): string {
    if a == "" then b else if a[|a| - 1] == '/' then a + b else a + "/" + b
  }

  lemma JoinComponents(a: string, b: string)
    requires !IsRooted(b)
    ensures Components(Join(a, b)) == Path(IsRooted(a), Parts(a) + Parts(b))
  {
    hide Parts;
    if a == "" {
      PartsOfName("");
    } else if a[|a| - 1] == '/' {
      JoinAtSlash(a[..|a| - 1], b);
      assert a == a[..|a| - 1] + "/";
    } else {
      PartsOfSlash(a, b);
    }
  }

  lemma JoinAtSlash(init: string, b: string)
    ensures Parts(init + "/" + b) == Parts(init + "/") + Parts(b)
  {
    hide Parts;
    assert init + "/" == init + "/" + "";
    PartsOfSlash(init, "");
    PartsOfName("");
    PartsOfSlash(init, b);
  }

  /** Cleaning the directory first does not change a cleaned join. */
  lemma CleanOfJoin(a: string, b: string)
    requires !IsRooted(b)
    ensures CleanText(Join(a, b)) == CleanText(Join(CleanText(a), b))
  {
    ComponentsOfClean(a);
    JoinComponents(a, b);
    JoinComponents(CleanText(a), b);
    NormalOfConcat(IsRooted(a), Parts(a), Parts(b));
  }

  /** What a cleaned text looks like. */
  lemma CleanLeavesLeadingUps(text: string)
    ensures IsRooted(CleanText(text)) == IsRooted(text) && IsNormal(IsRooted(text), Parts(CleanText(text)))
  {
    ComponentsOfClean(text);
    NormalIsNormal(IsRooted(text), Parts(text));
  }

  // ---------------------------------------------------------- one text per meaning

  function Ups(k: nat): (u: seq<string>)
    ensures |u| == k && forall i :: 0 <= i < k ==> u[i] == UP
  {
    seq(k, _ => UP)
  }

  /** A normal relative path is a run of `..` and then names. */
  lemma {:induction false} UpsAndNames(parts: seq<string>) returns (k: nat, names: seq<string>)
    requires IsNormal(false, parts)
    ensures parts == Ups(k) + names && UP !in names
  {
    k := 0;
    while k < |parts| && parts[k] == UP
      invariant 0 <= k <= |parts| && forall i :: 0 <= i < k ==> parts[i] == UP
    {
      k := k + 1;
    }
    names := parts[k..];
    assert parts[..k] == Ups(k);
  }

  lemma {:induction false} WalkUps(stack: seq<string>, k: nat)
    requires k <= |stack|
    ensures Walk(stack, Ups(k)) == stack[..|stack| - k]
  {
    if k > 0 {
      WalkUps(stack, k - 1);
      assert Ups(k) == Ups(k - 1) + [UP];
      WalkStep(stack, Ups(k - 1), UP);
    }
  }

  lemma {:induction false} WalkNames(stack: seq<string>, parts: seq<string>, names: seq<string>)
    requires UP !in names
    ensures Walk(stack, parts + names) == Walk(stack, parts) + names
  {
    if names == [] {
      assert parts + names == parts;
    } else {
      var init, last := names[..|names| - 1], names[|names| - 1];
      WalkNames(stack, parts, init);
      assert parts + names == parts + init + [last];
      WalkStep(stack, parts + init, last);
    }
  }

  /** A name longer than any of the given ones. */
  lemma {:induction false} FreshName(names: seq<string>) returns (f: string)
    requires AreParts(names)
    ensures |f| > 2 && IsPart(f) && f !in names && forall i :: 0 <= i < |names| ==> |names[i]| < |f|
  {
    if names == [] {
      f := "...";
    } else {
      assert IsPart(names[0]);
      var g := FreshName(names[1..]);
      f := g + names[0];
      forall i | 0 <= i < |names| ensures |names[i]| < |f| {
        assert i > 0 ==> names[i] == names[1..][i - 1];
      }
    }
  }

  /** The names from the root to a directory. */
  predicate IsPlace(cwd: seq<string>) {
    AreParts(cwd) && UP !in cwd
  }

  function Run(f: string, n: nat): (r: seq<string>)
    ensures |r| == n && forall i :: 0 <= i < n ==> r[i] == f
  {
    seq(n, _ => f)
  }

  lemma LongerRun(f: string, m: nat, x: seq<string>, n: nat, y: seq<string>)
    requires f !in x && m < n
    ensures Run(f, m) + x != Run(f, n) + y
  {
    var s, t := Run(f, m) + x, Run(f, n) + y;
    assert t[m] == f;
    if |s| > m {
      assert s[m] == x[0];
    }
  }

  lemma RunsDiffer(f: string, m: nat, x: seq<string>, n: nat, y: seq<string>)
    requires f !in x && f !in y && Run(f, m) + x == Run(f, n) + y
    ensures m == n && x == y
  {
    var s, t := Run(f, m) + x, Run(f, n) + y;
    assert m == n by {
      if m < n { LongerRun(f, m, x, n, y); }
      if n < m { LongerRun(f, n, y, m, x); }
    }
    assert x == s[m..] && y == t[n..];
  }

  /** Where a normal path leads from a directory deep enough for its `..`. */
  lemma MeaningFromRun(f: string, n: nat, p: Path, k: nat, names: seq<string>)
    requires p.parts == Ups(k) + names && UP !in names && k <= n && (p.rooted ==> k == 0)
    ensures Meaning(Run(f, n), p) == Run(f, if p.rooted then 0 else n - k) + names
  {
    var stack := if p.rooted then [] else Run(f, n);
    WalkUps(stack, k);
    WalkNames(stack, Ups(k), names);
    assert stack[..|stack| - k] == Run(f, if p.rooted then 0 else n - k);
  }

  lemma CleanSplits(text: string) returns (k: nat, names: seq<string>)
    ensures Clean(Components(text)).parts == Ups(k) + names && UP !in names && (IsRooted(text) ==> k == 0)
    ensures AreParts(names)
  {
    hide Normal, Parts, Ups, CleanText;
    var p := Clean(Components(text));
    ComponentsOfClean(text);
    NormalIsNormal(p.rooted, Parts(text));
    k, names := UpsAndNames(p.parts);
    NamesAreParts(p.parts, k, names);
  }

  lemma NamesAreParts(parts: seq<string>, k: nat, names: seq<string>)
    requires AreParts(parts) && parts == Ups(k) + names
    ensures AreParts(names) && (k > 0 ==> UP in parts)
  {
    forall i | 0 <= i < |names| ensures IsPart(names[i]) { assert names[i] == parts[k + i]; }
    assert k > 0 ==> parts[0] == UP;
  }

  /** Two paths clean to the same text exactly when they lead to the same place
      from every directory. */
  lemma CleanIsCanonical(a: string, b: string)
    ensures CleanText(a) == CleanText(b) <==>
      forall cwd :: IsPlace(cwd) ==> Meaning(cwd, Components(a)) == Meaning(cwd, Components(b))
  {
    hide Meaning, Components, CleanText;
    if CleanText(a) == CleanText(b) {
      forall cwd | IsPlace(cwd) ensures Meaning(cwd, Components(a)) == Meaning(cwd, Components(b)) {
        CleanKeepsMeaning(cwd, a);
        CleanKeepsMeaning(cwd, b);
      }
    }
    if forall cwd :: IsPlace(cwd) ==> Meaning(cwd, Components(a)) == Meaning(cwd, Components(b)) {
      SameMeaningSameClean(a, b);
    }
  }

  lemma SameMeaningSameClean(a: string, b: string)
    requires forall cwd :: IsPlace(cwd) ==> Meaning(cwd, Components(a)) == Meaning(cwd, Components(b))
    ensures CleanText(a) == CleanText(b)
  {
    hide Meaning, Normal, Parts, Run, Ups;
    var k, x := CleanSplits(a);
    var l, y := CleanSplits(b);
    var f := FreshName(x + y);
    var p, q := Clean(Components(a)), Clean(Components(b));
    var n := k + l + 1;
    assert IsPlace(Run(f, n));
    hide IsPlace, AreParts, IsPart;
    MeaningFromRun(f, n, p, k, x);
    MeaningFromRun(f, n, q, l, y);
    CleanKeepsMeaning(Run(f, n), a);
    CleanKeepsMeaning(Run(f, n), b);
    ComponentsOfClean(a);
    ComponentsOfClean(b);
    assert Meaning(Run(f, n), p) == Meaning(Run(f, n), q);
    RunsDiffer(f, if p.rooted then 0 else n - k, x, if q.rooted then 0 else n - l, y);
  }
}
