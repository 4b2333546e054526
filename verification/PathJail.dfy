/** The file server's root confinement: `relInRoot` of `cmd/gantry-guest/mcp.go`
    works on texts, and is exact about components. */
module PathJail {
  import opened Paths

  datatype Located = Inside(rel: string) | Outside

  function TrimPrefix(text: string, prefix: string): string {
    if prefix <= text then text[|prefix|..] else text
  }

  function TrimSlash(text: string): string {
    if text != [] && text[|text| - 1] == '/' then text[..|text| - 1] else text
  }

  /** The absolute text a client path stands for: itself, or joined onto the root. */
  function Absolute(root: string, p: string): string {
    CleanText(if p == "" then root else if IsRooted(p) then p else CleanText(root + "/" + p))
  }

  function RelInRoot(rootPath: string, p: string): Located {
    var root := CleanText(rootPath);
    Relative(root, Absolute(root, p))
  }

  /** The lexical prefix test and what is left after the root. */
  function Relative(root: string, abs: string): Located {
    if abs != root && !(TrimSlash(root) + "/" <= abs) then Outside
    else
      var rel := TrimPrefix(TrimPrefix(abs, root), "/");
      Inside(if rel == "" then "." else rel)
  }

  /** The directory an absolute path names, `..` taken as it is walked. */
  function Place(path: string): seq<string> {
    Meaning([], Components(path))
  }

  // ---------------------------------------------------------- walking

  lemma {:induction false} NormalIsWalk(parts: seq<string>)
    ensures Normal(true, parts) == Walk([], parts)
  {
    if parts != [] {
      NormalIsWalk(parts[..|parts| - 1]);
      NormalIsNormal(true, parts[..|parts| - 1]);
    }
  }

  lemma {:induction false} WalkConcat(stack: seq<string>, x: seq<string>, y: seq<string>)
    ensures Walk(stack, x + y) == Walk(Walk(stack, x), y)
  {
    hide Walk;
    if y == [] {
      assert x + y == x;
      WalkNowhere(Walk(stack, x));
    } else {
      var init, last := y[..|y| - 1], y[|y| - 1];
      WalkConcat(stack, x, init);
      assert y == init + [last] && x + y == x + init + [last];
      WalkStep(stack, x + init, last);
      WalkStep(Walk(stack, x), init, last);
    }
  }

  lemma WalkNowhere(stack: seq<string>)
    ensures Walk(stack, []) == stack
  {
  }

  /** Cleaning an absolute path spells out the place it names. */
  lemma CleanIsPlace(path: string)
    requires IsRooted(path)
    ensures CleanText(path) == Text(Path(true, Place(path)))
    ensures AreParts(Place(path)) && UP !in Place(path) && Components(CleanText(path)) == Path(true, Place(path))
  {
    NormalIsWalk(Parts(path));
    NormalIsNormal(true, Parts(path));
    ComponentsOfClean(path);
  }

  /** The absolute text names where the client path leads from the root. */
  lemma AbsoluteIsWalk(rootPath: string, p: string)
    requires IsRooted(rootPath)
    ensures
      var there := Meaning(Place(rootPath), Components(p));
      Absolute(CleanText(rootPath), p) == Text(Path(true, there)) && AreParts(there) && UP !in there
  {
    hide CleanText, Parts, Walk;
    var root := CleanText(rootPath);
    CleanIsPlace(rootPath);
    CleanIsIdempotent(rootPath);
    if p == "" {
      PartsOfName("");
      WalkNowhere(Place(rootPath));
    } else if IsRooted(p) {
      CleanIsPlace(p);
    } else {
      CleanIsIdempotent(root + "/" + p);
      CleanIsPlace(root + "/" + p);
      PartsOfSlash(root, p);
      WalkConcat([], Parts(root), Parts(p));
      CleanKeepsMeaning([], rootPath);
    }
  }

  // ---------------------------------------------------------- texts and components

  lemma TextOfConcat(r: seq<string>, s: seq<string>)
    requires AreParts(r) && r != [] && s != []
    ensures Text(Path(true, r + s)) == Text(Path(true, r)) + "/" + Joined(s)
  {
    JoinedConcat(r, s);
  }

  lemma {:induction false} JoinedEnd(parts: seq<string>)
    requires AreParts(parts) && parts != []
    ensures Joined(parts) != "" && Joined(parts)[|Joined(parts)| - 1] != '/'
  {
    if |parts| > 1 {
      assert IsPart(parts[0]);
      JoinedEnd(parts[1..]);
    } else {
      assert IsPart(parts[0]);
    }
  }

  lemma TrimSlashOfText(r: seq<string>)
    requires AreParts(r) && r != []
    ensures TrimSlash(Text(Path(true, r))) == Text(Path(true, r))
  {
    JoinedEnd(r);
  }

  /** A text prefix up to a slash is a prefix of components. */
  lemma TextPrefix(r: seq<string>, a: seq<string>)
    requires AreParts(r) && AreParts(a)
    requires Text(Path(true, r)) + "/" <= Text(Path(true, a))
    ensures r <= a
  {
    hide Parts, Joined;
    var root, abs := Text(Path(true, r)), Text(Path(true, a));
    var rest := abs[|root| + 1..];
    assert abs == root + "/" + rest;
    PartsOfSlash(root, rest);
    ComponentsOfText(Path(true, r));
    ComponentsOfText(Path(true, a));
    assert Components(root).parts == r && Components(abs).parts == a;
  }

  lemma RelativeBelow(root: string, tail: string)
    requires TrimSlash(root) == root && tail != ""
    ensures Relative(root, root + "/" + tail) == Inside(tail)
  {
    var abs := root + "/" + tail;
    assert abs == root + ("/" + tail);
    assert abs[|root|..] == "/" + tail && ("/" + tail)[1..] == tail;
  }

  /** The test on texts is a test on components, and what is left spells the rest. */
  lemma RelativeIsExact(r: seq<string>, a: seq<string>)
    requires AreParts(r) && AreParts(a)
    ensures Relative(Text(Path(true, r)), Text(Path(true, a))) ==
            if r <= a then Inside(Text(Path(false, a[|r|..]))) else Outside
  {
    hide Joined, AreParts;
    if r == [] {
      RelativeToSlash(a);
      SlashText();
      assert a[0..] == a;
    } else if a == r {
    } else if r <= a {
      var s := a[|r|..];
      assert a == r + s && AreParts(s) by { PartsAbove(r, a); }
      TrimSlashOfText(r);
      TextOfConcat(r, s);
      JoinedEnd(s);
      RelativeBelow(Text(Path(true, r)), Joined(s));
    } else {
      RelativeElsewhere(r, a);
    }
  }

  lemma SlashText()
    ensures Text(Path(true, [])) == "/"
  {
  }

  lemma PartsAbove(r: seq<string>, a: seq<string>)
    requires AreParts(a) && r <= a
    ensures AreParts(a[|r|..]) && a == r + a[|r|..]
  {
  }

  lemma RelativeElsewhere(r: seq<string>, a: seq<string>)
    requires AreParts(r) && AreParts(a) && r != [] && !(r <= a)
    ensures Relative(Text(Path(true, r)), Text(Path(true, a))) == Outside
  {
    hide Text, Parts, TrimSlash, AreParts;
    var root, abs := Text(Path(true, r)), Text(Path(true, a));
    TrimSlashOfText(r);
    ComponentsOfText(Path(true, r));
    ComponentsOfText(Path(true, a));
    assert abs != root;
    assert !(root + "/" <= abs) by {
      if root + "/" <= abs {
        TextPrefix(r, a);
      }
    }
  }

  lemma RelativeToSlash(a: seq<string>)
    requires AreParts(a)
    ensures Relative("/", Text(Path(true, a))) == Inside(Text(Path(false, a)))
  {
    JoinedIsRelative(a);
    if a != [] {
      JoinedEnd(a);
    }
    hide Joined;
    assert ("/" + Joined(a))[1..] == Joined(a);
    assert TrimSlash("/") == "";
  }

  // ---------------------------------------------------------- the result

  /** `relInRoot` for an absolute root: it accepts a path exactly when the path,
      walked from the root, ends below it, and answers with the way there. */
  lemma RelInRootIsExact(rootPath: string, p: string)
    requires IsRooted(rootPath)
    ensures
      var root := Place(rootPath);
      var there := Meaning(root, Components(p));
      RelInRoot(rootPath, p) == if root <= there then Inside(Text(Path(false, there[|root|..]))) else Outside
  {
    CleanIsPlace(rootPath);
    AbsoluteIsWalk(rootPath, p);
    hide CleanText, Relative, Absolute, Meaning, Place;
    RelativeIsExact(Place(rootPath), Meaning(Place(rootPath), Components(p)));
  }

  /** An accepted path's answer is relative, climbs nowhere, and joined back onto the
      root gives the normalised path. */
  lemma RelInRootJoinsBack(rootPath: string, p: string)
    requires IsRooted(rootPath) && RelInRoot(rootPath, p).Inside?
    ensures
      var root, rel := CleanText(rootPath), RelInRoot(rootPath, p).rel;
      && !IsRooted(rel)
      && UP !in Parts(rel)
      && CleanText(root + "/" + rel) == Absolute(root, p)
      && Meaning(Place(rootPath), Components(rel)) == Meaning(Place(rootPath), Components(p))
  {
    hide CleanText, Parts, Text, Absolute, RelInRoot, AreParts, Place, Walk;
    var root, there := Place(rootPath), Meaning(Place(rootPath), Components(p));
    RelInRootIsExact(rootPath, p);
    AbsoluteIsWalk(rootPath, p);
    CleanIsPlace(rootPath);
    PartsAbove(root, there);
    RestJoinsBack(CleanText(rootPath), root, there[|root|..]);
  }

  /** Names spelled below a clean absolute path lead down from it. */
  lemma RestJoinsBack(root: string, r: seq<string>, s: seq<string>)
    requires IsRooted(root) && Components(root) == Path(true, r) && AreParts(s) && UP !in r && UP !in s
    ensures
      var rel := Text(Path(false, s));
      && Components(rel) == Path(false, s)
      && Meaning(r, Components(rel)) == r + s
      && CleanText(root + "/" + rel) == Text(Path(true, r + s))
  {
    hide CleanText, Parts, Text, AreParts, Walk;
    var rel := Text(Path(false, s));
    ComponentsOfText(Path(false, s));
    WalkDown(r, s);
    CleanIsPlace(root + "/" + rel);
    PartsOfSlash(root, rel);
    WalkDown([], r + s);
    assert [] + (r + s) == r + s;
  }

  lemma WalkDown(stack: seq<string>, names: seq<string>)
    requires UP !in names
    ensures Walk(stack, names) == stack + names
  {
    WalkNames(stack, [], names);
    assert [] + names == names;
  }
}
