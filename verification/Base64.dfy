/** Base64 (section 4 of RFC 4648): the decoder and encoder of
    `desktop/src/capture.rs` and the encoder of `desktop/src/org.rs`. */
module Base64 {
  import opened Wrappers

  type Sextet = n: nat | n < 64

  /** The alphabet: A-Z, a-z, 0-9, +, /. */
  function Letter(n: Sextet): (c: char)
    ensures c != '='
  {
    if n < 26 then 'A' + n as char
    else if n < 52 then 'a' + (n - 26) as char
    else if n < 62 then '0' + (n - 52) as char
    else if n == 62 then '+' else '/'
  }

  /** A letter's position in the alphabet. */
  function Position(c: char): (n: Option<Sextet>) {
    if 'A' <= c <= 'Z' then Some((c - 'A') as int)
    else if 'a' <= c <= 'z' then Some((c - 'a') as int + 26)
    else if '0' <= c <= '9' then Some((c - '0') as int + 52)
    else if c == '+' then Some(62)
    else if c == '/' then Some(63)
    else None
  }

  lemma LetterPosition(n: Sextet, c: char)
    ensures Position(Letter(n)) == Some(n)
    ensures Position(c).Some? ==> Letter(Position(c).value) == c
  {
  }

  // ---------------------------------------------------------- groups of bits

  // The sextets that bytes x, y, z give, and the bytes that sextets give back.
  function Sextet0(x: int): (n: Sextet) requires 0 <= x < 256 { x / 4 }
  function Sextet1(x: int, y: int): (n: Sextet) requires 0 <= x < 256 && 0 <= y < 256 { x % 4 * 16 + y / 16 }
  function Sextet2(y: int, z: int): (n: Sextet) requires 0 <= y < 256 && 0 <= z < 256 { y % 16 * 4 + z / 64 }
  function Sextet3(z: int): (n: Sextet) requires 0 <= z < 256 { z % 64 }
  function Byte0(a: int, b: int): (n: Byte) requires 0 <= a < 64 && 0 <= b < 64 { a * 4 + b / 16 }
  function Byte1(b: int, c: int): (n: Byte) requires 0 <= b < 64 && 0 <= c < 64 { b % 16 * 16 + c / 4 }
  function Byte2(c: int, d: int): (n: Byte) requires 0 <= c < 64 && 0 <= d < 64 { c % 4 * 64 + d }

  /** Three bytes as four sextets, most significant first; a shorter last
      group is filled with zero bits and gives one sextet more than it has bytes. */
  function Sextets(bytes: seq<Byte>): (s: seq<Sextet>) {
    if |bytes| == 0 then []
    else if |bytes| == 1 then [Sextet0(bytes[0]), Sextet1(bytes[0], 0)]
    else if |bytes| == 2 then [Sextet0(bytes[0]), Sextet1(bytes[0], bytes[1]), Sextet2(bytes[1], 0)]
    else
      [Sextet0(bytes[0]), Sextet1(bytes[0], bytes[1]), Sextet2(bytes[1], bytes[2]), Sextet3(bytes[2])]
      + Sextets(bytes[3..])
  }

  /** The whole bytes that a run of sextets holds; left-over bits are dropped. */
  function Bytes(s: seq<Sextet>): (bytes: seq<Byte>) {
    if |s| <= 1 then []
    else if |s| == 2 then [Byte0(s[0], s[1])]
    else if |s| == 3 then [Byte0(s[0], s[1]), Byte1(s[1], s[2])]
    else [Byte0(s[0], s[1]), Byte1(s[1], s[2]), Byte2(s[2], s[3])] + Bytes(s[4..])
  }

  /** The bits after the last whole byte are zero. */
  predicate TailIsZero(s: seq<Sextet>) {
    (|s| % 4 == 2 ==> (s[|s| - 1] as int) % 16 == 0) && (|s| % 4 == 3 ==> (s[|s| - 1] as int) % 4 == 0)
  }

  lemma ThreeBytes(x: Byte, y: Byte, z: Byte)
    ensures Byte0(Sextet0(x), Sextet1(x, y)) == x
    ensures Byte1(Sextet1(x, y), Sextet2(y, z)) == y
    ensures Byte2(Sextet2(y, z), Sextet3(z)) == z
  {
  }

  lemma FourSextets(a: Sextet, b: Sextet, c: Sextet, d: Sextet)
    ensures Sextet0(Byte0(a, b)) == a
    ensures Sextet1(Byte0(a, b), Byte1(b, c)) == b
    ensures Sextet2(Byte1(b, c), Byte2(c, d)) == c
    ensures Sextet3(Byte2(c, d)) == d
    ensures Sextet1(Byte0(a, b), 0) == b <==> (b as int) % 16 == 0
    ensures Sextet2(Byte1(b, c), 0) == c <==> (c as int) % 4 == 0
  {
  }

  lemma {:induction false} BytesOfSextets(bytes: seq<Byte>)
    ensures Bytes(Sextets(bytes)) == bytes
  {
    hide Byte0, Byte1, Byte2, Sextet0, Sextet1, Sextet2, Sextet3;
    if |bytes| >= 3 {
      BytesOfSextets(bytes[3..]);
      var s := Sextets(bytes);
      assert s[4..] == Sextets(bytes[3..]);
      ThreeBytes(bytes[0], bytes[1], bytes[2]);
      assert Bytes(s) == [bytes[0], bytes[1], bytes[2]] + bytes[3..];
    } else if |bytes| == 2 {
      ThreeBytes(bytes[0], bytes[1], 0);
    } else if |bytes| == 1 {
      ThreeBytes(bytes[0], 0, 0);
    }
  }

  lemma ZeroTails(x: Byte)
    ensures (Sextet1(x, 0) as int) % 16 == 0 && (Sextet2(x, 0) as int) % 4 == 0
  {
  }

  lemma {:induction false} SextetsEnd(bytes: seq<Byte>)
    ensures |Sextets(bytes)| % 4 != 1 && TailIsZero(Sextets(bytes))
  {
    hide Sextet0, Sextet1, Sextet2, Sextet3;
    if |bytes| >= 3 {
      SextetsEnd(bytes[3..]);
      TailOfRest(Sextets(bytes), Sextets(bytes[3..]));
      hide TailIsZero;
      assert |Sextets(bytes)| == 4 + |Sextets(bytes[3..])|;
    } else if |bytes| > 0 {
      ZeroTails(bytes[|bytes| - 1]);
    }
  }

  lemma TailOfRest(s: seq<Sextet>, rest: seq<Sextet>)
    requires |s| == 4 + |rest| && s[4..] == rest
    ensures TailIsZero(s) <==> TailIsZero(rest)
  {
    assert |rest| > 0 ==> s[|s| - 1] == rest[|rest| - 1];
  }

  lemma GroupStep(s: seq<Sextet>)
    requires |s| >= 4
    ensures Sextets(Bytes(s)) == [s[0], s[1], s[2], s[3]] + Sextets(Bytes(s[4..]))
  {
    FourSextets(s[0], s[1], s[2], s[3]);
    hide Byte0, Byte1, Byte2, Sextet0, Sextet1, Sextet2, Sextet3;
    var b := Bytes(s);
    assert b[3..] == Bytes(s[4..]);
  }

  lemma TwoSextets(a: Sextet, b: Sextet)
    ensures Sextets(Bytes([a, b])) == [a, b] <==> TailIsZero([a, b])
  {
    FourSextets(a, b, 0, 0);
    hide Byte0, Sextet0, Sextet1;
    assert Bytes([a, b]) == [Byte0(a, b)];
    assert Sextets([Byte0(a, b)]) == [a, Sextet1(Byte0(a, b), 0)];
  }

  lemma ThreeSextets(a: Sextet, b: Sextet, c: Sextet)
    ensures Sextets(Bytes([a, b, c])) == [a, b, c] <==> TailIsZero([a, b, c])
  {
    FourSextets(a, b, c, 0);
    hide Byte0, Byte1, Sextet0, Sextet1, Sextet2;
    assert Bytes([a, b, c]) == [Byte0(a, b), Byte1(b, c)];
    assert Sextets([Byte0(a, b), Byte1(b, c)]) == [a, b, Sextet2(Byte1(b, c), 0)];
  }

  lemma NoSextets()
    ensures Sextets(Bytes([])) == [] && TailIsZero([])
  {
    assert Bytes([]) == [];
  }

  lemma ShortGroup(s: seq<Sextet>)
    requires |s| == 0 || |s| == 2 || |s| == 3
    ensures Sextets(Bytes(s)) == s <==> TailIsZero(s)
  {
    hide Sextets, Bytes, TailIsZero;
    if |s| == 2 {
      TwoSextets(s[0], s[1]);
      assert s == [s[0], s[1]];
    } else if |s| == 3 {
      ThreeSextets(s[0], s[1], s[2]);
      assert s == [s[0], s[1], s[2]];
    } else {
      NoSextets();
      assert s == [];
    }
  }

  lemma HeadCancels(head: seq<Sextet>, x: seq<Sextet>, y: seq<Sextet>)
    ensures head + x == head + y <==> x == y
  {
    assert (head + x)[|head|..] == x && (head + y)[|head|..] == y;
  }

  lemma {:induction false} SextetsOfBytes(s: seq<Sextet>)
    requires |s| % 4 != 1
    ensures Sextets(Bytes(s)) == s <==> TailIsZero(s)
  {
    hide TailIsZero, Sextets, Bytes;
    if |s| >= 4 {
      var head, rest := [s[0], s[1], s[2], s[3]], s[4..];
      SextetsOfBytes(rest);
      TailOfRest(s, rest);
      GroupStep(s);
      assert s == head + rest;
      HeadCancels(head, Sextets(Bytes(rest)), rest);
    } else {
      ShortGroup(s);
    }
  }

  // ---------------------------------------------------------- text

  function Letters(s: seq<Sextet>): (t: string)
    ensures |t| == |s| && forall i :: 0 <= i < |s| ==> t[i] == Letter(s[i])
  {
    seq(|s|, i requires 0 <= i < |s| => Letter(s[i]))
  }

  /** The positions of a text's letters, unless one is no letter. */
  function Positions(t: string): (s: Option<seq<Sextet>>)
    ensures s.Some? ==> |s.value| == |t| && forall i :: 0 <= i < |t| ==> Position(t[i]) == Some(s.value[i])
    ensures s.None? ==> exists i :: 0 <= i < |t| && Position(t[i]).None?
  {
    if t == [] then Some([])
    else
      var head, tail := Position(t[0]), Positions(t[1..]);
      if head.None? then None
      else if tail.None? then
        var i :| 0 <= i < |t[1..]| && Position(t[1..][i]).None?;
        assert t[i + 1] == t[1..][i];
        None
      else Some([head.value] + tail.value)
  }

  function TrimEnd(value: string): (t: string)
    ensures t <= value && (t != [] ==> t[|t| - 1] != '=')
    ensures forall i :: |t| <= i < |value| ==> value[i] == '='
  {
    if value != [] && value[|value| - 1] == '=' then TrimEnd(value[..|value| - 1]) else value
  }

  function Padding(n: nat): string {
    if n % 4 == 2 then "==" else if n % 4 == 3 then "=" else ""
  }

  function Padded(t: string): string {
    t + Padding(|t|)
  }

  function Encode(bytes: seq<Byte>): string {
    Padded(Letters(Sextets(bytes)))
  }

  function Decode(value: string): Option<seq<Byte>> {
    var t := TrimEnd(value);
    if |t| % 4 == 1 then None
    else
      var s := Positions(t);
      if s.None? then None else Some(Bytes(s.value))
  }

  /** Texts known to stand for their bytes. */
  lemma KnownTexts()
    ensures Encode([]) == "" && Encode([102]) == "Zg==" && Encode([102, 111]) == "Zm8="
    ensures Encode([102, 111, 111]) == "Zm9v" && Encode([251, 255]) == "+/8="
  {
    assert Sextets([102]) == [25, 32] && Letters([25, 32]) == "Zg";
    assert Sextets([102, 111]) == [25, 38, 60] && Letters([25, 38, 60]) == "Zm8";
    assert Sextets([251, 255]) == [62, 63, 60] && Letters([62, 63, 60]) == "+/8";
    assert [102, 111, 111][3..] == [];
    assert Sextets([102, 111, 111]) == [25, 38, 61, 47] && Letters([25, 38, 61, 47]) == "Zm9v";
  }

  // ---------------------------------------------------------- round trips

  /** A text's positions are the sextets its letters stand for. */
  lemma PositionsAre(t: string, s: seq<Sextet>)
    requires |s| == |t| && forall i :: 0 <= i < |t| ==> Position(t[i]) == Some(s[i])
    ensures Positions(t) == Some(s)
  {
    hide Position;
    var p := Positions(t);
    assert p.Some?;
    forall i | 0 <= i < |t| ensures p.value[i] == s[i] {
      assert Position(t[i]) == Some(p.value[i]);
    }
    assert p.value == s;
  }

  lemma LettersPositions(s: seq<Sextet>)
    ensures Positions(Letters(s)) == Some(s)
  {
    var t := Letters(s);
    forall i | 0 <= i < |t| ensures Position(t[i]) == Some(s[i]) { LetterPosition(s[i], 'A'); }
    PositionsAre(t, s);
  }

  lemma PositionsLetters(t: string)
    requires Positions(t).Some?
    ensures Letters(Positions(t).value) == t
  {
    var s := Positions(t).value;
    forall i | 0 <= i < |t| ensures Letter(s[i]) == t[i] { LetterPosition(0, t[i]); }
    hide Letter, Position;
  }

  lemma TrimOne(t: string)
    ensures TrimEnd(t + "=") == TrimEnd(t)
  {
    var v := t + "=";
    assert v[..|v| - 1] == t;
  }

  lemma TrimEncoded(s: seq<Sextet>)
    ensures TrimEnd(Padded(Letters(s))) == Letters(s)
  {
    var t := Letters(s);
    assert t != [] ==> t[|t| - 1] == Letter(s[|s| - 1]);
    assert TrimEnd(t) == t;
    TrimOne(t);
    TrimOne(t + "=");
    assert t + "==" == t + "=" + "=";
  }

  /** Decoding inverts encoding for all byte strings. */
  lemma DecodeInvertsEncode(bytes: seq<Byte>)
    ensures Decode(Encode(bytes)) == Some(bytes)
  {
    SextetsEnd(bytes);
    BytesOfSextets(bytes);
    hide Sextets, Bytes, Padded, TailIsZero;
    LettersPositions(Sextets(bytes));
    TrimEncoded(Sextets(bytes));
  }

  /** Encoding what a text decodes to gives the text, padded, exactly when the
      bits after its last byte are zero (section 3.5 of RFC 4648). */
  lemma EncodeInvertsDecode(value: string)
    requires Decode(value).Some?
    ensures Encode(Decode(value).value) == Padded(TrimEnd(value)) <==> TailIsZero(Positions(TrimEnd(value)).value)
  {
    hide Sextets, Bytes, Padded, TailIsZero, Positions;
    var s := Positions(TrimEnd(value)).value;
    var s' := Sextets(Bytes(s));
    PositionsLetters(TrimEnd(value));
    SextetsOfBytes(s);
    LettersPositions(s);
    LettersPositions(s');
    TrimEncoded(s);
    TrimEncoded(s');
  }

  // ---------------------------------------------------------- the decoder

  /** `n >> k`, for the shifts that occur. */
  function ShiftRight(n: nat, k: nat): nat
    requires k == 0 || k == 2 || k == 4 || k == 6 || k == 12 || k == 18
  {
    if k == 0 then n else if k == 2 then n / 4 else if k == 4 then n / 16
    else if k == 6 then n / 64 else if k == 12 then n / 4096 else n / 262_144
  }

  /** `n & ((1 << k) - 1)`. */
  function LowBits(n: nat, k: nat): nat
    requires k == 0 || k == 2 || k == 4 || k == 6
  {
    if k == 0 then 0 else if k == 2 then n % 4 else if k == 4 then n % 16 else n % 64
  }

  /** `n << k`. */
  function ShiftLeft(n: nat, k: nat): nat
    requires k == 0 || k == 8 || k == 16
  {
    if k == 0 then n else if k == 8 then n * 256 else n * 65_536
  }

  /** The bytes complete after some sextets, and the bits left over. */
  predicate Accumulated(s: seq<Sextet>, out: seq<Byte>, buffer: nat, bits: nat) {
    var m := |s| % 4;
    && out == Bytes(s)
    && bits == (if m == 0 then 0 else 8 - 2 * m)
    && buffer < 64 && buffer == if m == 0 then 0 else LowBits(s[|s| - 1], bits)
  }

  /** The byte completed by sextet `x`, after `b` and `m` sextets of the group. */
  function NextByte(m: int, b: Sextet, x: Sextet): Byte {
    if m == 1 then Byte0(b, x) else if m == 2 then Byte1(b, x) else Byte2(b, x)
  }

  lemma {:induction false} BytesGrow(s: seq<Sextet>, x: Sextet)
    ensures Bytes(s + [x]) == Bytes(s) + if |s| % 4 == 0 then [] else [NextByte(|s| % 4, s[|s| - 1], x)]
  {
    hide Byte0, Byte1, Byte2;
    if |s| >= 4 {
      hide NextByte;
      BytesGrow(s[4..], x);
      assert (s + [x])[4..] == s[4..] + [x];
      assert |s| > 4 ==> s[4..][|s| - 5] == s[|s| - 1];
      assert |s[4..]| % 4 == |s| % 4;
    } else if |s| == 3 {
      assert (s + [x])[4..] == [];
    }
  }

  lemma FirstByteShifts(b: int, x: int)
    requires 0 <= b < 64 && 0 <= x < 64
    ensures b % 64 == b && (b * 64 + x) / 16 == b * 4 + x / 16 && (b * 64 + x) % 16 == x % 16
  {
    Divides(b * 64 + x, 16, b * 4 + x / 16, x % 16);
  }

  lemma SecondByteShifts(b: int, x: int)
    requires 0 <= b < 64 && 0 <= x < 64
    ensures (b % 16 * 64 + x) / 4 == b % 16 * 16 + x / 4 && (b % 16 * 64 + x) % 4 == x % 4
  {
    Divides(b % 16 * 64 + x, 4, b % 16 * 16 + x / 4, x % 4);
  }

  lemma NextByteShifts(m: int, b: Sextet, x: Sextet)
    requires 1 <= m <= 3
    ensures var n := LowBits(b, 8 - 2 * m) * 64 + x;
      ShiftRight(n, 6 - 2 * m) == NextByte(m, b, x) && LowBits(n, 6 - 2 * m) == LowBits(x, 6 - 2 * m)
    ensures LowBits(x, 6 - 2 * m) < 64
  {
    if m == 1 {
      FirstByteShifts(b, x);
    } else if m == 2 {
      SecondByteShifts(b, x);
    } else {
      assert NextByte(m, b, x) == b as int % 4 * 64 + x as int;
    }
  }

  /** What the loop body does to the accumulator. */
  lemma AccumulatorStep(s: seq<Sextet>, out: seq<Byte>, buffer: nat, bits: nat, x: Sextet)
    requires Accumulated(s, out, buffer, bits)
    ensures |s| % 4 == 0 ==> bits == 0 && Accumulated(s + [x], out, buffer * 64 + x, bits + 6)
    ensures |s| % 4 != 0 ==>
      var n := buffer * 64 + x;
      2 <= bits <= 6 && bits % 2 == 0 && ShiftRight(n, bits - 2) < 256
      && Accumulated(s + [x], out + [ShiftRight(n, bits - 2)], LowBits(n, bits - 2), bits - 2)
  {
    BytesGrow(s, x);
    hide Bytes, NextByte;
    var m := |s| % 4;
    assert |s + [x]| % 4 == if m == 3 then 0 else m + 1;
    if m > 0 {
      NextByteShifts(m, s[|s| - 1], x);
      hide ShiftRight;
    }
  }

  /** What a 32-bit shift, and a cast to a byte, keep. */
  function Low32(n: nat): nat {
    n % 0x1_0000_0000
  }

  function Low8(n: nat): Byte {
    n % 256
  }

  lemma NothingLost(buffer: nat, byte: nat)
    requires buffer < 64 && byte < 256
    ensures Low32(buffer * 64) == buffer * 64 && Low8(byte) == byte
  {
  }

  /** `decode_base64`, in its 32-bit arithmetic: between letters the accumulator holds at
      most six bits, so nothing is lost. */
  method DecodeBase64(value: string) returns (r: Option<seq<Byte>>)
    ensures r == Decode(value)
  {
    var t := TrimEnd(value);
    if |t| % 4 == 1 {
      return None;
    }
    var out: seq<Byte> := [];
    var buffer: nat, bits: nat := 0, 0;
    ghost var s: seq<Sextet> := [];
    for i := 0 to |t|
      invariant |s| == i && forall k :: 0 <= k < i ==> Position(t[k]) == Some(s[k])
      invariant Accumulated(s, out, buffer, bits)
    {
      hide Position, Bytes, ShiftRight, LowBits;
      var sextet := Position(t[i]);
      if sextet.None? {
        return None;
      }
      hide Low32, Low8;
      AccumulatorStep(s, out, buffer, bits, sextet.value);
      NothingLost(buffer, 0);
      s := s + [sextet.value];
      buffer := Low32(buffer * 64) + sextet.value;
      bits := bits + 6;
      if bits >= 8 {
        bits := bits - 8;
        NothingLost(0, ShiftRight(buffer, bits));
        out := out + [Low8(ShiftRight(buffer, bits))];
        buffer := LowBits(buffer, bits);
      }
    }
    PositionsAre(t, s);
    r := Some(out);
  }

  // ---------------------------------------------------------- the encoders

  /** The 24 bits of a chunk, missing bytes being zero. */
  function ChunkValue(chunk: seq<Byte>): nat
    requires 1 <= |chunk| <= 3
  {
    chunk[0] as int * 65_536
    + (if |chunk| > 1 then chunk[1] as int * 256 else 0) + (if |chunk| > 2 then chunk[2] as int else 0)
  }

  /** The letters of a chunk of `n` bytes, padded to four. */
  function ChunkLetter(value: nat, n: nat, i: nat): char
    requires i <= 3
  {
    if i <= n then Letter(ShiftRight(value, 18 - 6 * i) % 64) else '='
  }

  function ChunkText(value: nat, n: nat): (t: string)
    ensures |t| == 4
  {
    [ChunkLetter(value, n, 0), ChunkLetter(value, n, 1), ChunkLetter(value, n, 2), ChunkLetter(value, n, 3)]
  }

  lemma AtLeastOnce(d: int, k: int)
    requires d > 0
    ensures k >= 1 ==> d * k >= d
    ensures k <= -1 ==> d * k <= -d
  {
  }

  lemma Divides(v: int, d: int, q: int, r: int)
    requires d > 0 && v == d * q + r && 0 <= r < d
    ensures v / d == q && v % d == r
  {
    assert d * (q - v / d) == v % d - r;
    AtLeastOnce(d, q - v / d);
  }

  lemma ChunkBits(x: Byte, y: Byte, z: Byte)
    ensures var v := x as int * 65_536 + y as int * 256 + z as int;
      v / 262_144 % 64 == Sextet0(x) && v / 4096 % 64 == Sextet1(x, y) && v / 64 % 64 == Sextet2(y,
          z) && v % 64 == Sextet3(z)
  {
    ChunkBits'(x, x as int / 4, x as int % 4, y, y as int / 16, y as int % 16, z, z as int / 64, z as int % 64);
  }

  lemma ChunkBits'(x: int, xh: int, xl: int, y: int, yh: int, yl: int, z: int, zh: int, zl: int)
    requires x == 4 * xh + xl && 0 <= xh < 64 && 0 <= xl < 4
    requires y == 16 * yh + yl && 0 <= yh < 16 && 0 <= yl < 16
    requires z == 64 * zh + zl && 0 <= zh < 4 && 0 <= zl < 64
    ensures var v := x * 65_536 + y * 256 + z;
      v / 262_144 % 64 == xh && v / 4096 % 64 == xl * 16 + yh && v / 64 % 64 == yl * 4 + zh && v % 64 == zl
  {
    var v := x * 65_536 + y * 256 + z;
    Divides(v, 262_144, xh, xl * 65_536 + y * 256 + z);
    Divides(v, 4096, 16 * x + yh, yl * 256 + z);
    Divides(16 * x + yh, 64, xh, xl * 16 + yh);
    Divides(v, 64, 1024 * x + 4 * y + zh, zl);
    Divides(1024 * x + 4 * y + zh, 64, 16 * x + yh, yl * 4 + zh);
    Divides(xh, 64, 0, xh);
  }

  /** A chunk's text is the beginning of the text of all bytes. */
  lemma EncodeStep(bytes: seq<Byte>)
    requires bytes != []
    ensures var n := if |bytes| < 3 then |bytes| else 3;
      Encode(bytes) == ChunkText(ChunkValue(bytes[..n]), n) + Encode(bytes[n..])
  {
    var n := if |bytes| < 3 then |bytes| else 3;
    if n == 3 {
      WholeChunk(bytes[0], bytes[1], bytes[2]);
      hide ChunkText, ChunkValue, Letter, Sextet0, Sextet1, Sextet2, Sextet3;
      assert bytes[..3] == [bytes[0], bytes[1], bytes[2]];
      FourLetters(Sextet0(bytes[0]), Sextet1(bytes[0], bytes[1]), Sextet2(bytes[1], bytes[2]), Sextet3(bytes[2]),
                  Sextets(bytes[3..]));
    } else {
      ShortChunk(bytes);
      assert bytes[..n] == bytes && bytes[n..] == [];
      assert Letters(Sextets([])) == [];
    }
  }

  lemma FourLetters(a: Sextet, b: Sextet, c: Sextet, d: Sextet, rest: seq<Sextet>)
    ensures Padded(Letters([a, b, c, d] + rest)) == [Letter(a), Letter(b), Letter(c), Letter(d)] + Padded(Letters(rest))
  {
    hide Letter;
    assert Letters([a, b, c, d] + rest) == [Letter(a), Letter(b), Letter(c), Letter(d)] + Letters(rest);
  }

  lemma WholeChunk(x: Byte, y: Byte, z: Byte)
    ensures ChunkText(ChunkValue([x, y, z]), 3) == [Letter(Sextet0(x)), Letter(Sextet1(x, y)), Letter(Sextet2(y,
        z)), Letter(Sextet3(z))]
  {
    ChunkBits(x, y, z);
    assert ChunkValue([x, y, z]) == x as int * 65_536 + y as int * 256 + z as int;
    hide Sextet0, Sextet1, Sextet2, Sextet3, Letter, ChunkValue;
  }

  lemma OneByte(x: Byte)
    ensures ChunkText(ChunkValue([x]), 1) == [Letter(Sextet0(x)), Letter(Sextet1(x, 0)), '=', '=']
  {
    ChunkBits(x, 0, 0);
    assert ChunkValue([x]) == x as int * 65_536 + 0 * 256 + 0;
    hide Sextet0, Sextet1, Letter, ChunkValue;
  }

  lemma TwoBytes(x: Byte, y: Byte)
    ensures ChunkText(ChunkValue([x, y]), 2) == [Letter(Sextet0(x)), Letter(Sextet1(x, y)), Letter(Sextet2(y, 0)), '=']
  {
    ChunkBits(x, y, 0);
    assert ChunkValue([x, y]) == x as int * 65_536 + y as int * 256 + 0;
    hide Sextet0, Sextet1, Sextet2, Letter, ChunkValue;
  }

  lemma ShortChunk(bytes: seq<Byte>)
    requires 1 <= |bytes| <= 2
    ensures Encode(bytes) == ChunkText(ChunkValue(bytes), |bytes|)
  {
    hide Sextet0, Sextet1, Sextet2, Letter, ChunkText, ChunkValue;
    var s := Sextets(bytes);
    if |bytes| == 1 {
      assert bytes == [bytes[0]];
      OneByte(bytes[0]);
      assert Letters(s) == [Letter(s[0]), Letter(s[1])];
    } else {
      assert bytes == [bytes[0], bytes[1]];
      TwoBytes(bytes[0], bytes[1]);
      assert Letters(s) == [Letter(s[0]), Letter(s[1]), Letter(s[2])];
    }
  }

  lemma ChunkPushed(bytes: seq<Byte>, at: nat, n: nat, out: string)
    requires at < |bytes| && n == (if |bytes| - at < 3 then |bytes| - at else 3)
    requires out + Encode(bytes[at..]) == Encode(bytes)
    ensures out + ChunkText(ChunkValue(bytes[at..at + n]), n) + Encode(bytes[at + n..]) == Encode(bytes)
  {
    hide Encode, ChunkText, ChunkValue;
    EncodeStep(bytes[at..]);
    assert bytes[at..][..n] == bytes[at..at + n] && bytes[at..][n..] == bytes[at + n..];
    var text, rest := ChunkText(ChunkValue(bytes[at..at + n]), n), Encode(bytes[at + n..]);
    assert out + (text + rest) == out + text + rest;
  }

  /** `encode_base64` of the capture client: bytes are shifted into place one by one. */
  method EncodeBase64(bytes: seq<Byte>) returns (out: string)
    ensures out == Encode(bytes)
  {
    out := "";
    var at := 0;
    while at < |bytes|
      invariant 0 <= at <= |bytes|
      invariant out + Encode(bytes[at..]) == Encode(bytes)
    {
      hide Encode, ChunkText, ChunkValue;
      var n := if |bytes| - at < 3 then |bytes| - at else 3;
      var chunk := bytes[at..at + n];
      var value := FoldChunk(chunk);
      var text := PushChunk(value, n);
      ChunkPushed(bytes, at, n, out);
      out := out + text;
      at := at + n;
    }
  }

  method FoldChunk(chunk: seq<Byte>) returns (value: nat)
    requires 1 <= |chunk| <= 3
    ensures value == ChunkValue(chunk)
  {
    value := 0;
    for i := 0 to |chunk|
      invariant i == 0 ==> value == 0
      invariant i > 0 ==> value == ChunkValue(chunk[..i])
    {
      value := value + ShiftLeft(chunk[i], 16 - 8 * i);
    }
    assert chunk[..|chunk|] == chunk;
  }

  method PushChunk(value: nat, n: nat) returns (text: string)
    requires n <= 3
    ensures text == ChunkText(value, n)
  {
    text := "";
    for i := 0 to 4
      invariant text == ChunkText(value, n)[..i]
    {
      if i <= n {
        text := text + [Letter(ShiftRight(value, 18 - 6 * i) % 64)];
      } else {
        text := text + "=";
      }
    }
  }

  method JoinChunk(chunk: seq<Byte>) returns (value: nat)
    requires 1 <= |chunk| <= 3
    ensures value == ChunkValue(chunk)
  {
    var second: int := if |chunk| > 1 then chunk[1] else 0;
    var third: int := if |chunk| > 2 then chunk[2] else 0;
    value := chunk[0] as int * 65_536 + second * 256 + third;
  }

  /** `base64` of the organization client: missing bytes are read as zero. */
  method OrgBase64(bytes: seq<Byte>) returns (out: string)
    ensures out == Encode(bytes)
  {
    out := "";
    var at := 0;
    while at < |bytes|
      invariant 0 <= at <= |bytes|
      invariant out + Encode(bytes[at..]) == Encode(bytes)
    {
      hide Encode, ChunkText, ChunkValue;
      var n := if |bytes| - at < 3 then |bytes| - at else 3;
      var chunk := bytes[at..at + n];
      var value := JoinChunk(chunk);
      var text := PushChunk(value, n);
      ChunkPushed(bytes, at, n, out);
      out := out + text;
      at := at + n;
    }
  }
}
