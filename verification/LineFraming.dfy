/** Splitting a byte stream into newline-delimited frames
    (`cmd/gantry-guest/mcp.go`): the proxy's streaming observer and the
    filesystem server's buffered reader. A string is bytes, one per character. */
module LineFraming {
  import opened Collections

  /** `mcpproto.MaxFrameBytes`. */
  const MAX_FRAME: nat := 0x10_0000

  // ---------------------------------------------------------- whole streams

  /** A stream cut at its newlines: the complete lines and what follows them. */
  datatype Frames = Frames(lines: seq<string>, tail: string)

  function Split(stream: string): Frames {
    if stream == [] then Frames([], [])
    else
      var f := Split(stream[..|stream| - 1]);
      if stream[|stream| - 1] == '\n' then Frames(f.lines + [f.tail], [])
      else Frames(f.lines, f.tail + [stream[|stream| - 1]])
  }

  function Joined(f: Frames): string
    decreases |f.lines|
  {
    if f.lines == [] then f.tail else f.lines[0] + "\n" + Joined(Frames(f.lines[1..], f.tail))
  }

  predicate NoNewlines(f: Frames) {
    '\n' !in f.tail && forall i :: 0 <= i < |f.lines| ==> '\n' !in f.lines[i]
  }

  lemma SplitStep(stream: string, c: char)
    ensures Split(stream + [c]) ==
      var f := Split(stream);
      if c == '\n' then Frames(f.lines + [f.tail], []) else Frames(f.lines, f.tail + [c])
  {
    assert (stream + [c])[..|stream|] == stream;
  }

  lemma {:induction false} SplitAppends(stream: string, part: string)
    requires '\n' !in part
    ensures Split(stream + part) == Frames(Split(stream).lines, Split(stream).tail + part)
  {
    hide Split;
    if part == [] {
      assert stream + part == stream;
    } else {
      var init, c := part[..|part| - 1], part[|part| - 1];
      SplitAppends(stream, init);
      SplitStep(stream + init, c);
      assert stream + part == stream + init + [c];
      assert Split(stream).tail + part == Split(stream).tail + init + [c];
    }
  }

  lemma SplitEnds(stream: string)
    ensures Split(stream + "\n") == Frames(Split(stream).lines + [Split(stream).tail], [])
  {
    SplitStep(stream, '\n');
  }

  /** The first line of a stream, and the frames of the rest. */
  lemma {:induction false} SplitFirst(l: string, rest: string)
    requires '\n' !in l
    ensures Split(l + "\n" + rest) == Frames([l] + Split(rest).lines, Split(rest).tail)
  {
    if rest == [] {
      assert l + "\n" + rest == l + "\n";
      assert [] + l == l;
      SplitAppends([], l);
      SplitEnds(l);
    } else {
      var init := rest[..|rest| - 1];
      SplitFirst(l, init);
      var whole := l + "\n" + rest;
      assert whole[..|whole| - 1] == l + "\n" + init;
      assert [l] + Split(init).lines + [Split(init).tail] == [l] + (Split(init).lines + [Split(init).tail]);
    }
  }

  /** Splitting and joining are inverse: every stream is the join of its frames,
      and frames without newlines are the frames of their join. */
  lemma {:induction false} SplitInvertsJoin(f: Frames)
    requires NoNewlines(f)
    ensures Split(Joined(f)) == f
    decreases |f.lines|
  {
    if f.lines == [] {
      assert [] + f.tail == f.tail;
      SplitAppends([], f.tail);
    } else {
      var rest := Frames(f.lines[1..], f.tail);
      SplitInvertsJoin(rest);
      SplitFirst(f.lines[0], Joined(rest));
      assert f.lines == [f.lines[0]] + f.lines[1..];
    }
  }

  lemma {:induction false} JoinInvertsSplit(stream: string)
    ensures Joined(Split(stream)) == stream && NoNewlines(Split(stream))
  {
    if stream != [] {
      var init, c := stream[..|stream| - 1], stream[|stream| - 1];
      JoinInvertsSplit(init);
      JoinGrows(Split(init).lines, Split(init).tail, c);
      assert stream == init + [c];
    }
  }

  lemma {:induction false} JoinGrows(lines: seq<string>, tail: string, c: char)
    ensures Joined(Frames(lines, tail + [c])) == Joined(Frames(lines, tail)) + [c]
    ensures Joined(Frames(lines + [tail], [])) == Joined(Frames(lines, tail)) + "\n"
  {
    if lines == [] {
      assert ([tail])[1..] == [];
    } else {
      JoinGrows(lines[1..], tail, c);
      assert (lines + [tail])[1..] == lines[1..] + [tail];
    }
  }

  // ---------------------------------------------------------- observer calls

  /** A call of the observer's callback: `observe(nil)` or `observe(line)`. */
  datatype Call = Oversized | Line(text: string)

  function TrimCR(s: string): string {
    if s != [] && s[|s| - 1] == '\r' then TrimCR(s[..|s| - 1]) else s
  }

  /** Trimming takes the carriage returns at the end, all of them and nothing else. */
  lemma {:induction false} TrimCRExactly(s: string, t: string)
    ensures t == TrimCR(s) <==>
      && t <= s && (forall i :: |t| <= i < |s| ==> s[i] == '\r')
      && (t != [] ==> t[|t| - 1] != '\r')
  {
    if s != [] && s[|s| - 1] == '\r' {
      var init := s[..|s| - 1];
      TrimCRExactly(init, t);
      if t <= s && (t != [] ==> t[|t| - 1] != '\r') {
        assert |t| < |s| by {
          assert |t| == |s| ==> t == s;
        }
        assert t <= init;
      }
      assert forall i :: 0 <= i < |init| ==> init[i] == s[i];
    } else {
      assert s != [] ==> s[|s| - 1] != '\r';
    }
  }

  function LineCalls(line: string): seq<Call> {
    if |line| > MAX_FRAME then [Oversized]
    else if TrimCR(line) == [] then []
    else [Line(TrimCR(line))]
  }

  function Calls(lines: seq<string>): seq<Call> {
    if lines == [] then [] else Calls(lines[..|lines| - 1]) + LineCalls(lines[|lines| - 1])
  }

  lemma CallsGrow(lines: seq<string>, line: string)
    ensures Calls(lines + [line]) == Calls(lines) + LineCalls(line)
  {
    assert (lines + [line])[..|lines|] == lines;
  }

  /** All calls for a stream that has ended. */
  function StreamCalls(stream: string): seq<Call> {
    Calls(Split(stream).lines) + LineCalls(Split(stream).tail)
  }

  lemma Regroup(before: string, part: string, rest: string)
    ensures before + part + "\n" + rest == before + (part + "\n" + rest)
  {
  }

  // ---------------------------------------------------------- the observer

  predicate Held(f: Frames, calls: seq<Call>, line: string, overflow: bool) {
    calls == Calls(f.lines) && overflow == (|f.tail| > MAX_FRAME) && line == if overflow then [] else f.tail
  }

  class Observer {
    var line: string
    var overflow: bool
    /** The callback's calls so far. */
    var calls: seq<Call>
    /** Everything written so far. */
    ghost var stream: string

    /** The state depends on the bytes written, not on how they were cut. */
    ghost predicate Valid()
      reads this
      ensures Valid() ==> |line| <= MAX_FRAME
    {
      Held(Split(stream), calls, line, overflow)
    }

    constructor ()
      ensures Valid() && stream == []
    {
      line, overflow, calls, stream := [], false, [], [];
    }

    method Write(data: string) returns (written: nat)
      requires Valid()
      modifies this
      ensures Valid() && stream == old(stream) + data && written == |data|
      ensures |line| <= MAX_FRAME
    {
      hide Split, Held;
      written := |data|;
      var rest := data;
      while rest != []
        invariant Valid() && stream + rest == old(stream) + data
        decreases |rest|
      {
        var newline := IndexOf(rest, '\n');
        var part := if newline >= 0 then rest[..newline] else rest;
        ghost var before := stream;
        AddPart(part);
        if newline < 0 {
          return;
        }
        EndLine();
        assert rest == part + "\n" + rest[newline + 1..];
        Regroup(before, part, rest[newline + 1..]);
        rest := rest[newline + 1..];
      }
    }

    /** Buffer a part of the current line, up to the limit. */
    method AddPart(part: string)
      requires Valid() && '\n' !in part
      modifies this`line, this`overflow, this`stream
      ensures Valid() && stream == old(stream) + part
    {
      hide Split, Calls;
      SplitAppends(stream, part);
      if !overflow {
        if |line| + |part| > MAX_FRAME {
          line := [];
          overflow := true;
        } else {
          line := line + part;
        }
      }
      stream := stream + part;
    }

    method EndLine()
      requires Valid()
      modifies this
      ensures Valid() && stream == old(stream) + "\n"
    {
      hide Split, Calls;
      SplitEnds(stream);
      CallsGrow(Split(stream).lines, Split(stream).tail);
      EmitLine();
      stream := stream + "\n";
    }

    method EmitLine()
      modifies this`line, this`overflow, this`calls
      ensures line == [] && !overflow
      ensures calls == old(calls) +
        if old(overflow) then [Oversized]
        else if TrimCR(old(line)) == [] then [] else [Line(TrimCR(old(line)))]
    {
      if overflow {
        calls := calls + [Oversized];
      } else {
        var trimmed := TrimCR(line);
        if |trimmed| != 0 {
          calls := calls + [Line(trimmed)];
        }
      }
      line := [];
      overflow := false;
    }

    method Finish()
      requires Valid()
      modifies this`line, this`overflow, this`calls
      ensures calls == StreamCalls(stream)
    {
      if overflow || |line| != 0 {
        EmitLine();
      }
    }
  }

  /** Whatever the chunks, the calls are those of the whole stream. */
  method ObserveChunks(chunks: seq<string>) returns (calls: seq<Call>)
    ensures calls == StreamCalls(Concat(chunks))
  {
    hide StreamCalls, Held, Split;
    var observer := new Observer();
    for i := 0 to |chunks|
      invariant observer.Valid() && observer.stream == Concat(chunks[..i])
    {
      var _ := observer.Write(chunks[i]);
      assert chunks[..i + 1][..i] == chunks[..i];
    }
    assert chunks[..|chunks|] == chunks;
    observer.Finish();
    calls := observer.calls;
  }

  function Concat(chunks: seq<string>): string {
    if chunks == [] then [] else Concat(chunks[..|chunks| - 1]) + chunks[|chunks| - 1]
  }

  // ---------------------------------------------------------- the buffered reader

  datatype SliceEnd = Delimiter | BufferFull | EndOfInput

  /** `bufio.Reader`: a slice ends at a newline, at a full buffer, or with the input. */
  class Reader {
    const size: nat
    var remaining: string

    constructor (size: nat, input: string)
      ensures this.size == size && remaining == input
    {
      this.size, remaining := size, input;
    }

    method ReadSlice() returns (slice: string, end: SliceEnd)
      modifies this
      ensures old(remaining) == slice + remaining
      ensures end.Delimiter? ==> slice != [] && slice[|slice| - 1] == '\n' && '\n' !in slice[..|slice| - 1]
      ensures end.BufferFull? ==> '\n' !in slice && |slice| == size
      ensures end.EndOfInput? ==> '\n' !in slice && remaining == []
    {
      var newline := IndexOf(remaining, '\n');
      if 0 <= newline < size {
        slice, end := remaining[..newline + 1], Delimiter;
      } else if |remaining| >= size {
        slice, end := remaining[..size], BufferFull;
        assert newline >= 0 ==> slice == remaining[..newline][..size];
      } else {
        slice, end := remaining, EndOfInput;
      }
      remaining := remaining[|slice|..];
    }
  }

  datatype ReadEnd = More | LastLine | Ended | TooLong

  function TrimCRLF(s: string): string {
    if s != [] && (s[|s| - 1] == '\r' || s[|s| - 1] == '\n') then TrimCRLF(s[..|s| - 1]) else s
  }

  lemma {:induction false} TrimTail(t: string)
    requires '\n' !in t
    ensures TrimCRLF(t) == TrimCR(t)
  {
    if t != [] {
      TrimTail(t[..|t| - 1]);
    }
  }

  lemma TrimTerminated(l: string)
    requires '\n' !in l
    ensures TrimCRLF(l + "\n") == TrimCR(l)
  {
    assert (l + "\n")[..|l|] == l;
    TrimTail(l);
  }

  /** A start without newlines is the start of the first line. */
  lemma {:induction false} FirstLineStarts(start: string, rest: string)
    requires '\n' !in start
    ensures var f := Split(start + rest);
      if f.lines != [] then start <= f.lines[0] else start <= f.tail
  {
    if rest == [] {
      SplitAppends([], start);
      assert [] + start == start && start + rest == start;
    } else {
      var init, c := rest[..|rest| - 1], rest[|rest| - 1];
      FirstLineStarts(start, init);
      SplitStep(start + init, c);
      assert start + rest == start + init + [c];
    }
  }

  /** What reading one line of `input` gives, leaving `rest`; a line that is too
      long and the end of the input come without text. */
  ghost predicate LineRead(input: string, line: string, end: ReadEnd, rest: string) {
    var f := Split(input);
    if f.lines != [] then
      if |f.lines[0]| + 1 > MAX_FRAME then end == TooLong && line == []
      else end == More && line == TrimCR(f.lines[0]) && Split(rest) == Frames(f.lines[1..], f.tail)
    else if |f.tail| > MAX_FRAME then end == TooLong && line == []
    else if f.tail == [] then end == Ended && line == []
    else end == LastLine && line == TrimCR(f.tail)
  }

  method ReadLineBuffered(r: Reader) returns (line: string, end: ReadEnd)
    requires r.size > 0
    modifies r
    ensures LineRead(old(r.remaining), line, end, r.remaining)
  {
    hide LineRead;
    ghost var input := r.remaining;
    var raw := "";
    while true
      invariant '\n' !in raw && |raw| <= MAX_FRAME && raw + r.remaining == input
      decreases |r.remaining|
    {
      ghost var start := raw;
      var slice, sliceEnd := r.ReadSlice();
      raw := raw + slice;
      assert raw + r.remaining == start + (slice + r.remaining);
      if |raw| > MAX_FRAME {
        TooLongRead(input, raw, r.remaining);
        return [], TooLong;
      }
      if sliceEnd.BufferFull? {
        continue;
      }
      if sliceEnd.EndOfInput? {
        assert input == raw;
        LastRead(raw, r.remaining);
        return TrimCRLF(raw), if |raw| > 0 then LastLine else Ended;
      }
      MoreRead(raw, r.remaining);
      return TrimCRLF(raw), More;
    }
  }

  lemma TooLongRead(input: string, raw: string, rest: string)
    requires |raw| > MAX_FRAME && input == raw + rest && '\n' !in raw[..|raw| - 1]
    ensures LineRead(input, [], TooLong, rest)
  {
    hide Split, TrimCR;
    var l := raw[..|raw| - 1];
    if raw[|raw| - 1] == '\n' {
      assert input == l + "\n" + rest;
      SplitFirst(l, rest);
    } else {
      assert raw == l + [raw[|raw| - 1]];
      FirstLineStarts(raw, rest);
    }
  }

  lemma LastRead(raw: string, rest: string)
    requires |raw| <= MAX_FRAME && '\n' !in raw
    ensures LineRead(raw, TrimCRLF(raw), if |raw| > 0 then LastLine else Ended, rest)
  {
    assert raw == [] + raw;
    SplitAppends([], raw);
    TrimTail(raw);
  }

  lemma MoreRead(raw: string, rest: string)
    requires 0 < |raw| <= MAX_FRAME && raw[|raw| - 1] == '\n' && '\n' !in raw[..|raw| - 1]
    ensures LineRead(raw + rest, TrimCRLF(raw), More, rest)
  {
    hide Split, TrimCR, TrimCRLF;
    var l := raw[..|raw| - 1];
    assert raw == l + "\n";
    SplitFirst(l, rest);
    TrimTerminated(l);
    assert ([l] + Split(rest).lines)[1..] == Split(rest).lines;
  }

  // ---------------------------------------------------------- serving

  function Text(line: string): seq<string> {
    if TrimCR(line) == [] then [] else [TrimCR(line)]
  }

  /** The frames served: every line that, with its newline, fits the limit, up to
      the first that does not. */
  function Served(f: Frames): seq<string>
    decreases |f.lines|
  {
    if f.lines == [] then (if |f.tail| > MAX_FRAME then [] else Text(f.tail))
    else if |f.lines[0]| + 1 > MAX_FRAME then []
    else Text(f.lines[0]) + Served(Frames(f.lines[1..], f.tail))
  }

  /** What one read line adds to the frames served. */
  lemma ServedStep(input: string, line: string, end: ReadEnd, rest: string)
    requires LineRead(input, line, end, rest)
    ensures
      var shown := if |line| > 0 then [line] else [];
      Served(Split(input)) == shown + (if end == More then Served(Split(rest)) else [])
    ensures end == More ==> |Split(rest).lines| < |Split(input).lines|
  {
    assert TrimCR([]) == [];
    hide Split, TrimCR;
  }

  /** `serveFS`, with what handling a frame does left out. */
  method ServeFS(input: string) returns (served: seq<string>)
    ensures served == Served(Split(input))
  {
    hide Split, Served, LineRead;
    var r := new Reader(64 * 1024, input);
    served := [];
    assert [] + Served(Split(input)) == Served(Split(input));
    while true
      invariant served + Served(Split(r.remaining)) == Served(Split(input))
      decreases |Split(r.remaining).lines|
    {
      ghost var before, start := r.remaining, served;
      var line, end := ReadLineBuffered(r);
      ServedStep(before, line, end, r.remaining);
      ghost var shown := if |line| > 0 then [line] else [];
      if |line| > 0 {
        served := served + [line];
      }
      assert served == start + shown;
      if end != More {
        assert shown + [] == shown;
        return;
      }
      assert start + (shown + Served(Split(r.remaining))) == start + shown + Served(Split(r.remaining));
    }
  }

  function AsCalls(texts: seq<string>): (calls: seq<Call>)
    ensures |calls| == |texts| && forall i :: 0 <= i < |texts| ==> calls[i] == Line(texts[i])
  {
    seq(|texts|, i requires 0 <= i < |texts| => Line(texts[i]))
  }

  /** A line within the limit that holds nothing but carriage returns. */
  predicate OnlyReturns(line: string) {
    |line| <= MAX_FRAME && forall i :: 0 <= i < |line| ==> line[i] == '\r'
  }

  /** Every line fits the limit with its newline; or, from the first that does not on, every
      line is within the limit and holds nothing but carriage returns. */
  predicate Agreeable(f: Frames)
    decreases |f.lines|
  {
    if f.lines == [] then |f.tail| <= MAX_FRAME
    else if |f.lines[0]| + 1 > MAX_FRAME then
      OnlyReturns(f.tail) && AllReturns(f.lines)
    else Agreeable(Frames(f.lines[1..], f.tail))
  }

  lemma {:induction false} TrimsToNothing(line: string)
    ensures TrimCR(line) == [] <==> forall i :: 0 <= i < |line| ==> line[i] == '\r'
  {
    if line != [] {
      var init := line[..|line| - 1];
      TrimsToNothing(init);
      assert forall i :: 0 <= i < |init| ==> init[i] == line[i];
    }
  }

  lemma SilentLine(line: string)
    ensures LineCalls(line) == [] <==> OnlyReturns(line)
  {
    TrimsToNothing(line);
  }

  predicate AllReturns(lines: seq<string>) {
    forall i :: 0 <= i < |lines| ==> OnlyReturns(lines[i])
  }

  lemma AllReturnsGrows(lines: seq<string>, line: string)
    ensures AllReturns(lines + [line]) <==> AllReturns(lines) && OnlyReturns(line)
  {
    hide OnlyReturns;
    var all := lines + [line];
    assert all[|lines|] == line && forall i :: 0 <= i < |lines| ==> all[i] == lines[i];
  }

  lemma {:induction false} SilentLines(lines: seq<string>)
    ensures Calls(lines) == [] <==> AllReturns(lines)
  {
    if lines != [] {
      hide OnlyReturns, LineCalls, AllReturns;
      var init, last := lines[..|lines| - 1], lines[|lines| - 1];
      assert lines == init + [last];
      SilentLines(init);
      SilentLine(last);
      AllReturnsGrows(init, last);
      hide Calls;
      CallsGrow(init, last);
    }
  }

  predicate Fits(f: Frames) {
    |f.tail| <= MAX_FRAME && forall i :: 0 <= i < |f.lines| ==> |f.lines[i]| + 1 <= MAX_FRAME
  }

  lemma {:induction false} CallsFirst(lines: seq<string>)
    requires lines != []
    ensures Calls(lines) == LineCalls(lines[0]) + Calls(lines[1..])
  {
    if |lines| > 1 {
      var init := lines[..|lines| - 1];
      CallsFirst(init);
      assert init[1..] == lines[1..][..|lines| - 2];
    }
  }

  /** The server serves the frames the observer reports exactly on the streams
      that are agreeable; those whose lines all fit are. */
  lemma {:induction false} ServerAgreesWithObserver(f: Frames)
    ensures AsCalls(Served(f)) == Calls(f.lines) + LineCalls(f.tail) <==> Agreeable(f)
    ensures Fits(f) ==> Agreeable(f)
    decreases |f.lines|
  {
    if f.lines == [] {
      assert Calls(f.lines) + LineCalls(f.tail) == LineCalls(f.tail);
    } else if |f.lines[0]| + 1 <= MAX_FRAME {
      var rest := Frames(f.lines[1..], f.tail);
      ServerAgreesWithObserver(rest);
      CallsFirst(f.lines);
      hide TrimCR, LineCalls, Calls, AsCalls;
      TextIsCalls(f.lines[0]);
      AsCallsConcat(Text(f.lines[0]), Served(rest));
      var first, seen := LineCalls(f.lines[0]), Calls(rest.lines) + LineCalls(rest.tail);
      assert first + Calls(rest.lines) + LineCalls(f.tail) == first + seen;
      PrefixCancels(first, AsCalls(Served(rest)), seen);
    } else {
      SilentLines(f.lines);
      SilentLine(f.tail);
      assert f.lines[0] in f.lines;
    }
  }

  /** Where they part: a line of exactly the limit is reported by the observer, and refused
      by the server, for which the newline counts. */
  lemma LongestLineDiffers()
    ensures
      var line := seq(MAX_FRAME, _ => 'a');
      StreamCalls(line + "\n") == [Line(line)] && Served(Split(line + "\n")) == []
  {
    var line := seq(MAX_FRAME, _ => 'a');
    assert line[|line| - 1] == 'a';
    assert TrimCR(line) == line;
    assert line + "\n" == line + "\n" + "";
    SplitFirst(line, "");
    hide TrimCR;
    assert Split("") == Frames([], []);
    assert Split(line + "\n") == Frames([line], []);
    hide Split;
    CallsFirst([line]);
    SilentLine([]);
  }

  lemma TextIsCalls(line: string)
    requires |line| <= MAX_FRAME
    ensures AsCalls(Text(line)) == LineCalls(line)
  {
  }

  lemma AsCallsConcat(x: seq<string>, y: seq<string>)
    ensures AsCalls(x + y) == AsCalls(x) + AsCalls(y)
  {
  }

  lemma PrefixCancels(p: seq<Call>, x: seq<Call>, y: seq<Call>)
    ensures p + x == p + y <==> x == y
  {
    assert (p + x)[|p|..] == x && (p + y)[|p|..] == y;
  }
}
