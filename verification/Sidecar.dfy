/** The SHA-256 sidecar of a release asset, after `parse_checksum` of
    `desktop/src/bootstrap.rs`: a hex digest, optionally followed by the file it hashed.
    A string is bytes, one per character. */
module Sidecar {
  import opened Wrappers

  /** Bytes of a digest. */
  const SIZE := 32

  // ---------------------------------------------------------- hex

  predicate IsHexDigit(c: char) {
    '0' <= c <= '9' || 'a' <= c <= 'f' || 'A' <= c <= 'F'
  }

  function HexDigit(n: nat): (c: char)
    requires n < 16
    ensures IsHexDigit(c)
  {
    if n < 10 then '0' + n as char else 'a' + (n - 10) as char
  }

  function HexValue(c: char): (n: nat)
    requires IsHexDigit(c)
    ensures n < 16
  {
    if c <= '9' then (c - '0') as int else if c <= 'F' then (c - 'A') as int + 10 else (c - 'a') as int + 10
  }

  function Lower(c: char): char {
    if 'A' <= c <= 'Z' then 'a' + (c - 'A') else c
  }

  predicate AllHex(text: string) {
    forall i :: 0 <= i < |text| ==> IsHexDigit(text[i])
  }

  /** Two hex digits a byte, most significant first. */
  function Hex(bytes: seq<Byte>): (text: string)
    ensures |text| == 2 * |bytes| && AllHex(text)
  {
    if bytes == [] then "" else [HexDigit(bytes[0] / 16), HexDigit(bytes[0] % 16)] + Hex(bytes[1..])
  }

  function Pair(high: char, low: char): (b: Byte)
    requires IsHexDigit(high) && IsHexDigit(low)
  {
    HexValue(high) * 16 + HexValue(low)
  }

  /** The bytes that pairs of hex digits give. */
  function Bytes(text: string): (bytes: seq<Byte>)
    requires AllHex(text) && |text| % 2 == 0
    ensures |bytes| == |text| / 2
  {
    if text == "" then [] else [Pair(text[0], text[1])] + Bytes(text[2..])
  }

  lemma DigitReadsBack(n: nat, c: char)
    requires n < 16 && IsHexDigit(c)
    ensures HexValue(HexDigit(n)) == n && HexDigit(HexValue(c)) == Lower(c)
  {
  }

  /** Reading a digest's hex gives the digest. */
  lemma {:induction false} HexReadsBack(bytes: seq<Byte>)
    ensures Bytes(Hex(bytes)) == bytes
  {
    hide HexDigit, HexValue;
    if bytes != [] {
      var text, high, low := Hex(bytes), bytes[0] / 16, bytes[0] % 16;
      HexReadsBack(bytes[1..]);
      assert text[2..] == Hex(bytes[1..]);
      DigitReadsBack(high, '0');
      DigitReadsBack(low, '0');
      assert text[0] == HexDigit(high) && text[1] == HexDigit(low);
    }
  }

  /** Hex digits print back in lower case. */
  lemma {:induction false} HexPrintsBack(text: string)
    requires AllHex(text) && |text| % 2 == 0
    ensures Hex(Bytes(text)) == seq(|text|, i requires 0 <= i < |text| => Lower(text[i]))
  {
    hide HexDigit, HexValue, Lower;
    var lower := seq(|text|, i requires 0 <= i < |text| => Lower(text[i]));
    if text != "" {
      var rest := text[2..];
      HexPrintsBack(rest);
      DigitReadsBack(0, text[0]);
      DigitReadsBack(0, text[1]);
      assert Pair(text[0], text[1]) / 16 == HexValue(text[0]) && Pair(text[0], text[1]) % 16 == HexValue(text[1]);
      assert lower[2..] == seq(|rest|, i requires 0 <= i < |rest| => Lower(rest[i]));
      assert lower == [lower[0], lower[1]] + lower[2..];
    }
  }

  lemma KnownHex()
    ensures Hex([9, 175]) == "09af" && Bytes("09AF") == [9, 175]
  {
    assert [9, 175][1..] == [175] && [175][1..] == [];
    assert Hex([175]) == "af";
    assert "09AF"[2..] == "AF" && "AF"[2..] == "";
    assert Bytes("AF") == [175];
  }

  // ---------------------------------------------------------- fields

  predicate IsSpace(c: char) {
    c == ' ' || c == '\t' || c == '\n' || c == '\r' || c == 12 as char
  }

  predicate NoSpaces(text: string) {
    forall i :: 0 <= i < |text| ==> !IsSpace(text[i])
  }

  /** `split_ascii_whitespace`: the runs of other characters. */
  function Fields(text: string): (fields: seq<string>)
    ensures text != "" && !IsSpace(text[|text| - 1]) ==> fields != []
  {
    if text == "" then []
    else
      var init, c := text[..|text| - 1], text[|text| - 1];
      if IsSpace(c) then Fields(init)
      else if init == "" || IsSpace(init[|init| - 1]) then Fields(init) + [[c]]
      else
        var fields := Fields(init);
        fields[..|fields| - 1] + [fields[|fields| - 1] + [c]]
  }

  lemma FieldsLetter(before: string, c: char)
    requires !IsSpace(c)
    ensures
      var fields := Fields(before);
      Fields(before + [c]) ==
      if before == "" || IsSpace(before[|before| - 1]) then fields + [[c]]
      else fields[..|fields| - 1] + [fields[|fields| - 1] + [c]]
  {
    assert (before + [c])[..|before|] == before;
  }

  /** A run of other characters after a space, or at the start, is one more field. */
  lemma {:induction false} FieldsWord(before: string, word: string)
    requires word != "" && NoSpaces(word) && (before == "" || IsSpace(before[|before| - 1]))
    ensures Fields(before + word) == Fields(before) + [word]
  {
    hide Fields, IsSpace;
    var init, c := word[..|word| - 1], word[|word| - 1];
    assert word == init + [c] && before + word == before + init + [c];
    FieldsLetter(before + init, c);
    if init == "" {
      assert before + init == before && word == [c];
    } else {
      FieldsWord(before, init);
      assert (before + init)[|before + init| - 1] == word[|init| - 1];
      assert (Fields(before) + [init])[..|Fields(before)|] == Fields(before);
    }
  }

  lemma FieldsSpace(before: string, c: char)
    requires IsSpace(c)
    ensures Fields(before + [c]) == Fields(before)
  {
    assert (before + [c])[..|before|] == before;
  }

  // ---------------------------------------------------------- the sidecar

  function Stripped(name: string): string {
    if name != "" && name[0] == '*' then name[1..] else name
  }

  predicate IsDigest(text: string) {
    |text| == 2 * SIZE && AllHex(text)
  }

  /** What a sidecar says of an asset: its digest, unless it is malformed or names another file. */
  function Checksum(body: string, asset: string): (expected: Option<seq<Byte>>)
    ensures expected.Some? ==> |expected.value| == SIZE
  {
    var fields := Fields(body);
    if fields == [] || !IsDigest(fields[0]) then None
    else if |fields| > 1 && Stripped(fields[1]) != asset then None
    else if |fields| > 2 then None
    else Some(Bytes(fields[0]))
  }

  /** `parse_checksum`: the digest is filled in a byte at a time. */
  method ParseChecksum(body: string, asset: string) returns (expected: Option<seq<Byte>>)
    ensures expected == Checksum(body, asset)
  {
    var fields := Fields(body);
    if fields == [] || !IsDigest(fields[0]) {
      return None;
    }
    var digest := fields[0];
    if |fields| > 1 && Stripped(fields[1]) != asset {
      return None;
    }
    if |fields| > 2 {
      return None;
    }
    hide Fields;
    var bytes: seq<Byte> := [];
    for i := 0 to SIZE
      invariant bytes + Bytes(digest[2 * i..]) == Bytes(digest)
    {
      var rest := digest[2 * i..];
      assert rest[2..] == digest[2 * (i + 1)..];
      bytes := bytes + [Pair(digest[2 * i], digest[2 * i + 1])];
    }
    assert digest[2 * SIZE..] == "" && bytes + [] == bytes;
    return Some(bytes);
  }

  /** The lines `sha256sum` writes: a digest alone, or with the file read as text or binary. */
  function Written(digest: string, named: bool, star: bool, asset: string): string {
    if !named then digest + "\n" else digest + "  " + (if star then "*" else "") + asset + "\n"
  }

  /** What `sha256sum` wrote of an asset is read back, in either case of hex; and it is
      not accepted for another asset. */
  lemma SidecarReadsBack(digest: string, named: bool, star: bool, asset: string, other: string)
    requires IsDigest(digest) && asset != "" && NoSpaces(asset) && asset[0] != '*'
    ensures Checksum(Written(digest, named, star, asset), other) ==
            if named && other != asset then None else Some(Bytes(digest))
  {
    hide Fields, Bytes;
    assert NoSpaces(digest) by { HexHasNoSpaces(digest); }
    FieldsOfNothing();
    FieldsWord("", digest);
    assert "" + digest == digest;
    if named {
      var word := (if star then "*" else "") + asset;
      var before := digest + " " + " ";
      FieldsSpace(digest, ' ');
      FieldsSpace(digest + " ", ' ');
      assert NoSpaces(word);
      FieldsWord(before, word);
      FieldsSpace(before + word, '\n');
      assert Written(digest, named, star, asset) == before + word + "\n";
      assert Stripped(word) == asset;
    } else {
      FieldsSpace(digest, '\n');
    }
  }

  lemma HexHasNoSpaces(digest: string)
    requires AllHex(digest)
    ensures NoSpaces(digest)
  {
  }

  lemma FieldsOfNothing()
    ensures Fields("") == []
  {
  }

  // ---------------------------------------------------------- every sidecar

  predicate AllSpaces(gap: string) {
    forall i :: 0 <= i < |gap| ==> IsSpace(gap[i])
  }

  /** Words and the white space before, between and after them. */
  predicate WellLaid(words: seq<string>, gaps: seq<string>) {
    && |gaps| == |words| + 1
    && (forall i :: 0 <= i < |gaps| ==> AllSpaces(gaps[i]))
    && (forall i :: 0 < i < |words| ==> gaps[i] != "")
    && (forall i :: 0 <= i < |words| ==> words[i] != "" && NoSpaces(words[i]))
  }

  function Laid(words: seq<string>, gaps: seq<string>): string
    requires |gaps| == |words| + 1
  {
    var n := |words|;
    if n == 0 then gaps[0] else Laid(words[..n - 1], gaps[..n]) + words[n - 1] + gaps[n]
  }

  lemma {:induction false} FieldsBlank(before: string, gap: string)
    requires AllSpaces(gap)
    ensures Fields(before + gap) == Fields(before)
  {
    if gap == "" {
      assert before + gap == before;
    } else {
      var n := |gap| - 1;
      FieldsBlank(before, gap[..n]);
      assert before + gap == before + gap[..n] + [gap[n]];
      FieldsSpace(before + gap[..n], gap[n]);
    }
  }

  lemma EndsInGap(words: seq<string>, gaps: seq<string>)
    requires WellLaid(words, gaps)
    ensures
      var text, last := Laid(words, gaps), gaps[|words|];
      && (last != "" ==> text != "" && IsSpace(text[|text| - 1]))
      && (last == "" && words != [] ==> text != "" && !IsSpace(text[|text| - 1]))
      && (last == "" && words == [] ==> text == "")
  {
    var n := |words|;
    if n > 0 {
      hide IsSpace;
      var text, word, last := Laid(words, gaps), words[n - 1], gaps[n];
      assert text[|text| - 1] == if last == "" then word[|word| - 1] else last[|last| - 1];
    }
  }

  lemma {:induction false} FieldsOfLaid(words: seq<string>, gaps: seq<string>)
    requires WellLaid(words, gaps)
    ensures Fields(Laid(words, gaps)) == words
  {
    hide IsSpace, Fields;
    var n := |words|;
    FieldsOfNothing();
    if n == 0 {
      FieldsBlank("", gaps[0]);
      assert "" + gaps[0] == gaps[0];
    } else {
      var init, before := words[..n - 1], gaps[..n];
      assert WellLaid(init, before);
      FieldsOfLaid(init, before);
      EndsInGap(init, before);
      assert n > 1 ==> before[n - 1] == gaps[n - 1] != "";
      FieldsWord(Laid(init, before), words[n - 1]);
      FieldsBlank(Laid(init, before) + words[n - 1], gaps[n]);
      assert words == init + [words[n - 1]];
    }
  }

  /** Every text is laid out in its fields. */
  lemma {:induction false} FieldsLayOut(text: string) returns (gaps: seq<string>)
    ensures WellLaid(Fields(text), gaps) && Laid(Fields(text), gaps) == text
  {
    if text == "" {
      gaps := [""];
    } else {
      hide WellLaid, Laid, Fields, IsSpace;
      var init, c := text[..|text| - 1], text[|text| - 1];
      var before := FieldsLayOut(init);
      var words := Fields(init);
      GapsFit(words, before);
      EndsInGap(words, before);
      assert text == init + [c];
      if IsSpace(c) {
        FieldsSpace(init, c);
        gaps := AddSpace(words, before, c);
        return;
      }
      FieldsLetter(init, c);
      if init == "" || IsSpace(init[|init| - 1]) {
        gaps := AddWord(words, before, c);
      } else {
        gaps := AddLetter(words, before, c);
      }
    }
  }

  lemma GapsFit(words: seq<string>, gaps: seq<string>)
    requires WellLaid(words, gaps)
    ensures |gaps| == |words| + 1
  {
  }

  lemma AddSpace(words: seq<string>, gaps: seq<string>, c: char) returns (more: seq<string>)
    requires WellLaid(words, gaps) && IsSpace(c)
    ensures WellLaid(words, more) && Laid(words, more) == Laid(words, gaps) + [c]
  {
    hide IsSpace;
    var n := |words|;
    more := gaps[..n] + [gaps[n] + [c]];
    assert more[..n] == gaps[..n];
    if n > 0 {
      var before := Laid(words[..n - 1], gaps[..n]) + words[n - 1];
      assert before + (gaps[n] + [c]) == before + gaps[n] + [c];
    }
  }

  lemma AddWord(words: seq<string>, gaps: seq<string>, c: char) returns (more: seq<string>)
    requires WellLaid(words, gaps) && !IsSpace(c) && (words == [] || gaps[|words|] != "")
    ensures WellLaid(words + [[c]], more) && Laid(words + [[c]], more) == Laid(words, gaps) + [c]
  {
    hide IsSpace;
    var n := |words|;
    more := gaps + [""];
    assert more[..n + 1] == gaps && (words + [[c]])[..n] == words;
    assert Laid(words, gaps) + [c] + "" == Laid(words, gaps) + [c];
  }

  lemma AddLetter(words: seq<string>, gaps: seq<string>, c: char) returns (more: seq<string>)
    requires WellLaid(words, gaps) && !IsSpace(c) && words != [] && gaps[|words|] == ""
    ensures
      var longer := words[..|words| - 1] + [words[|words| - 1] + [c]];
      WellLaid(longer, more) && Laid(longer, more) == Laid(words, gaps) + [c]
  {
    hide IsSpace;
    var n := |words|;
    more := gaps;
    var longer := words[..n - 1] + [words[n - 1] + [c]];
    assert longer[..n - 1] == words[..n - 1];
    var before := Laid(words[..n - 1], gaps[..n]);
    assert before + (words[n - 1] + [c]) + "" == before + words[n - 1] + "" + [c];
  }

  /** A digest of 64 hex digits, alone or with the asset's name, which may follow a star. */
  predicate Vouches(words: seq<string>, asset: string, digest: seq<Byte>) {
    && 1 <= |words| <= 2 && |words[0]| == 64 && AllHex(words[0]) && digest == Bytes(words[0])
    && (|words| == 2 ==> words[1] == "*" + asset || (words[1] == asset && !("*" <= asset)))
  }

  /** A sidecar is accepted exactly when its words are such a digest and name. */
  lemma ChecksumExactly(body: string, asset: string, digest: seq<Byte>)
    ensures Checksum(body, asset) == Some(digest) <==>
      exists words, gaps :: WellLaid(words, gaps) && body == Laid(words, gaps) && Vouches(words, asset, digest)
  {
    var gaps := FieldsLayOut(body);
    var words := Fields(body);
    hide Fields, Laid, Bytes, AllHex;
    assert |words| == 2 ==> words[1] != "" by { assert WellLaid(words, gaps); }
    StrippedExactly(words, asset);
    if exists w, g :: WellLaid(w, g) && body == Laid(w, g) && Vouches(w, asset, digest) {
      var w, g :| WellLaid(w, g) && body == Laid(w, g) && Vouches(w, asset, digest);
      FieldsOfLaid(w, g);
    }
  }

  lemma StrippedExactly(words: seq<string>, asset: string)
    requires |words| == 2 ==> words[1] != ""
    ensures |words| == 2 ==>
      (Stripped(words[1]) == asset <==> words[1] == "*" + asset || (words[1] == asset && !("*" <= asset)))
  {
    if |words| == 2 {
      var name := words[1];
      assert name == [name[0]] + name[1..];
    }
  }
}
