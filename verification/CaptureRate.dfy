/** Packets per second of one capture, after `CaptureRate` of `desktop/src/capture.rs`:
    a bounded map of per-second counts that stands for a histogram of every frame ever
    recorded. */
module CaptureRate {
  import opened Wrappers
  import opened Collections
  import opened Capture

  /** Allowed and denied frames. */
  datatype Count = Count(allowed: nat, denied: nat)

  const NONE := Count(0, 0)

  /** Seconds of history kept. */
  const HISTORY := 600

  type Seconds = map<int, Count>

  function Plus(a: Count, b: Count): Count {
    Count(a.allowed + b.allowed, a.denied + b.denied)
  }

  /** One frame, counted. */
  function One(p: Packet): Count {
    if p.allowed then Count(1, 0) else Count(0, 1)
  }

  function Get(seconds: Seconds, second: int): Count {
    if second in seconds then seconds[second] else NONE
  }

  /** The second of a time in milliseconds, rounded down. */
  function SecondOf(time: int): int {
    time / 1000
  }

  // ---------------------------------------------------------- the histogram

  /** How many of the frames fall in a second. */
  function CountAt(frames: seq<Packet>, second: int): Count {
    if frames == [] then NONE
    else
      Plus(CountAt(frames[..|frames| - 1], second), Weight(frames[|frames| - 1], second))
  }

  /** What one frame adds to a second. */
  function Weight(p: Packet, second: int): Count {
    if p.time.Some? && SecondOf(p.time.value) == second then One(p) else NONE
  }

  /** The seconds that hold a frame. */
  function SecondsOf(frames: seq<Packet>): set<int> {
    set i | 0 <= i < |frames| && frames[i].time.Some? :: SecondOf(frames[i].time.value)
  }

  predicate IsNewest(seconds: set<int>, s: int) {
    s in seconds && forall t :: t in seconds ==> t <= s
  }

  /** A second is kept while no second `HISTORY` or more later holds a frame. */
  predicate IsRecent(seconds: set<int>, s: int) {
    s in seconds && forall t :: t in seconds ==> t - s < HISTORY
  }

  /** What the map stands for: the histogram of every frame, in the newest seconds. */
  function Retained(frames: seq<Packet>): Seconds {
    map s | s in SecondsOf(frames) && IsRecent(SecondsOf(frames), s) :: CountAt(frames, s)
  }

  // ---------------------------------------------------------- record

  /** One more frame counted in a map. */
  function Counted(seconds: Seconds, p: Packet): Seconds {
    if p.time.None? then seconds
    else
      var second := SecondOf(p.time.value);
      seconds[second := Plus(Get(seconds, second), One(p))]
  }

  /** The counts of more frames added to a map. */
  function Tallied(seconds: Seconds, frames: seq<Packet>): Seconds {
    if frames == [] then seconds
    else Counted(Tallied(seconds, frames[..|frames| - 1]), frames[|frames| - 1])
  }

  function Trimmed(seconds: Seconds): Seconds {
    map s | s in seconds && IsRecent(seconds.Keys, s) :: seconds[s]
  }

  /** The newest time of the frames. */
  function NewestTime(frames: seq<Packet>): Option<int> {
    if frames == [] then None
    else Later(NewestTime(frames[..|frames| - 1]), frames[|frames| - 1].time)
  }

  function Later(a: Option<int>, b: Option<int>): Option<int> {
    if a.None? then b else if b.None? || b.value <= a.value then a else b
  }

  /** The least gap seen between a read and the newest frame it returned. */
  function Offset(offset: Option<int>, frames: seq<Packet>, received: int): Option<int> {
    var newest := NewestTime(frames);
    if newest.None? then offset
    else
      var gap := received - newest.value;
      if offset.Some? && offset.value < gap then offset else Some(gap)
  }

  lemma {:induction false} NewestExists(seconds: set<int>) returns (newest: int)
    requires seconds != {}
    ensures IsNewest(seconds, newest)
  {
    var s := Member(seconds);
    var rest := seconds - {s};
    newest := s;
    if rest != {} {
      var t := NewestExists(rest);
      newest := if t < s then s else t;
    }
    assert forall t :: t in seconds ==> t == s || t in rest;
  }

  lemma NothingTallied(seconds: Seconds)
    ensures Tallied(seconds, []) == seconds && NewestTime([]) == None
  {
  }

  lemma PrefixStep(seconds: Seconds, frames: seq<Packet>, i: nat)
    requires i < |frames|
    ensures Tallied(seconds, frames[..i + 1]) == Counted(Tallied(seconds, frames[..i]), frames[i])
    ensures NewestTime(frames[..i + 1]) == Later(NewestTime(frames[..i]), frames[i].time)
  {
    hide Counted, Later;
    assert frames[..i + 1][..i] == frames[..i];
  }

  // ---------------------------------------------------------- the map is the histogram

  lemma PlusLaws(a: Count, b: Count, c: Count)
    ensures Plus(Plus(a, b), c) == Plus(a, Plus(b, c)) && Plus(a, b) == Plus(b, a) && Plus(a, NONE) == a
  {
  }

  lemma {:induction false} CountConcat(a: seq<Packet>, b: seq<Packet>, s: int)
    ensures CountAt(a + b, s) == Plus(CountAt(a, s), CountAt(b, s))
  {
    hide Weight, Plus;
    if b == [] {
      assert a + b == a;
      assert Plus(CountAt(a, s), NONE) == CountAt(a, s) by { PlusLaws(CountAt(a, s), NONE, NONE); }
    } else {
      var init, last := b[..|b| - 1], b[|b| - 1];
      CountConcat(a, init, s);
      assert (a + b)[..|a + b| - 1] == a + init && (a + b)[|a + b| - 1] == last;
      PlusLaws(CountAt(a, s), CountAt(init, s), Weight(last, s));
    }
  }

  lemma SecondsConcat(a: seq<Packet>, b: seq<Packet>)
    ensures SecondsOf(a + b) == SecondsOf(a) + SecondsOf(b)
  {
    var all := a + b;
    forall s ensures s in SecondsOf(all) <==> s in SecondsOf(a) + SecondsOf(b) {
      if s in SecondsOf(a) {
        var i :| 0 <= i < |a| && a[i].time.Some? && SecondOf(a[i].time.value) == s;
        assert all[i] == a[i];
      }
      if s in SecondsOf(b) {
        var i :| 0 <= i < |b| && b[i].time.Some? && SecondOf(b[i].time.value) == s;
        assert all[|a| + i] == b[i];
      }
      if s in SecondsOf(all) {
        var i :| 0 <= i < |all| && all[i].time.Some? && SecondOf(all[i].time.value) == s;
        if i < |a| { assert all[i] == a[i]; } else { assert all[i] == b[i - |a|]; }
      }
    }
  }

  lemma LastSecond(frames: seq<Packet>)
    requires frames != []
    ensures
      var init, last := frames[..|frames| - 1], frames[|frames| - 1];
      SecondsOf(frames) == SecondsOf(init) + (if last.time.Some? then {SecondOf(last.time.value)} else {})
  {
    var init, last := frames[..|frames| - 1], frames[|frames| - 1];
    assert frames == init + [last];
    SecondsConcat(init, [last]);
    assert SecondsOf([last]) == if last.time.Some? then {SecondOf(last.time.value)} else {} by {
      if last.time.Some? {
        assert [last][0] == last;
      }
    }
  }

  lemma CountedIsSum(seconds: Seconds, p: Packet, s: int)
    ensures Get(Counted(seconds, p), s) == Plus(Get(seconds, s), Weight(p, s))
  {
    hide SecondOf, One, Plus;
    PlusLaws(Get(seconds, s), NONE, NONE);
  }

  /** Counting frames into a map adds their histogram to it. */
  lemma {:induction false} TalliedIsSum(seconds: Seconds, frames: seq<Packet>, s: int)
    ensures Get(Tallied(seconds, frames), s) == Plus(Get(seconds, s), CountAt(frames, s))
  {
    hide Plus, Get, Counted, Weight;
    if frames == [] {
      PlusLaws(Get(seconds, s), NONE, NONE);
    } else {
      var init, last := frames[..|frames| - 1], frames[|frames| - 1];
      TalliedIsSum(seconds, init, s);
      CountedIsSum(Tallied(seconds, init), last, s);
      PlusLaws(Get(seconds, s), CountAt(init, s), Weight(last, s));
    }
  }

  lemma {:induction false} TalliedKeys(seconds: Seconds, frames: seq<Packet>)
    ensures Tallied(seconds, frames).Keys == seconds.Keys + SecondsOf(frames)
  {
    hide SecondOf, Plus, Get;
    if frames != [] {
      TalliedKeys(seconds, frames[..|frames| - 1]);
      LastSecond(frames);
      hide SecondsOf;
    }
  }

  lemma {:induction false} NoCountElsewhere(frames: seq<Packet>, s: int)
    requires s !in SecondsOf(frames)
    ensures CountAt(frames, s) == NONE
  {
    hide SecondOf, Plus, One;
    PlusLaws(NONE, NONE, NONE);
    if frames != [] {
      LastSecond(frames);
      hide SecondsOf;
      NoCountElsewhere(frames[..|frames| - 1], s);
    }
  }

  /** A second recent among more frames was recent before, if it held a frame. */
  lemma RecentBefore(a: seq<Packet>, b: seq<Packet>, s: int)
    requires IsRecent(SecondsOf(a) + SecondsOf(b), s)
    ensures s in SecondsOf(a) ==> s in Retained(a)
    ensures Get(Retained(a), s) == CountAt(a, s)
  {
    if s !in SecondsOf(a) {
      NoCountElsewhere(a, s);
    }
  }

  /** Recent among the retained seconds and some more is recent among all of them. */
  lemma RecentAmongRetained(a: seq<Packet>, b: seq<Packet>, s: int)
    ensures IsRecent(Retained(a).Keys + SecondsOf(b), s) <==> IsRecent(SecondsOf(a) + SecondsOf(b), s)
  {
    hide SecondsOf;
    var kept, all := Retained(a).Keys + SecondsOf(b), SecondsOf(a) + SecondsOf(b);
    if SecondsOf(a) != {} {
      var newest := NewestExists(SecondsOf(a));
      assert newest in Retained(a);
      assert newest in kept;
      assert forall t :: t in SecondsOf(a) ==> t <= newest;
    }
    assert forall t :: t in kept ==> t in all;
  }

  /** Recording more frames: from the histogram of some frames to that of all. */
  lemma RecordRetains(a: seq<Packet>, b: seq<Packet>)
    ensures Trimmed(Tallied(Retained(a), b)) == Retained(a + b)
  {
    hide SecondsOf, CountAt, Tallied;
    var tallied := Tallied(Retained(a), b);
    TalliedKeys(Retained(a), b);
    SecondsConcat(a, b);
    forall s ensures s in Trimmed(tallied) <==> s in Retained(a + b) {
      RecentAmongRetained(a, b, s);
      if IsRecent(SecondsOf(a) + SecondsOf(b), s) {
        RecentBefore(a, b, s);
      }
    }
    forall s | s in Retained(a + b) ensures Trimmed(tallied)[s] == Retained(a + b)[s] {
      RecentAmongRetained(a, b, s);
      RecentBefore(a, b, s);
      TalliedIsSum(Retained(a), b, s);
      CountConcat(a, b, s);
    }
  }

  // ---------------------------------------------------------- runs of reads

  /** Frames read together, and when. */
  datatype Batch = Batch(frames: seq<Packet>, received: int)

  /** The map after recording batches since a clear. */
  function SecondsAfter(batches: seq<Batch>): Seconds {
    if batches == [] then map[]
    else Trimmed(Tallied(SecondsAfter(batches[..|batches| - 1]), batches[|batches| - 1].frames))
  }

  function OffsetAfter(batches: seq<Batch>): Option<int> {
    if batches == [] then None
    else
      var last := batches[|batches| - 1];
      Offset(OffsetAfter(batches[..|batches| - 1]), last.frames, last.received)
  }

  function AllFrames(batches: seq<Batch>): seq<Packet> {
    if batches == [] then [] else AllFrames(batches[..|batches| - 1]) + batches[|batches| - 1].frames
  }

  /** After any batches since a clear, the counts are the histogram of all their frames
      in the newest `HISTORY` seconds, though older counts were forgotten on the way. */
  lemma {:induction false} RateIsHistogram(batches: seq<Batch>)
    ensures SecondsAfter(batches) == Retained(AllFrames(batches))
  {
    hide Trimmed, Tallied, Retained;
    if batches == [] {
      NothingRetained();
    } else {
      var init, last := batches[..|batches| - 1], batches[|batches| - 1];
      RateIsHistogram(init);
      RecordRetains(AllFrames(init), last.frames);
    }
  }

  lemma NothingRetained()
    ensures Retained([]) == map[]
  {
  }

  /** The same frames in any order and any batches leave the same counts. */
  lemma OrderDoesNotMatter(a: seq<Batch>, b: seq<Batch>)
    requires multiset(AllFrames(a)) == multiset(AllFrames(b))
    ensures SecondsAfter(a) == SecondsAfter(b)
  {
    RateIsHistogram(a);
    RateIsHistogram(b);
    var f, g := AllFrames(a), AllFrames(b);
    SameSeconds(f, g);
    hide SecondsOf, AllFrames, SecondsAfter, CountAt;
    forall s ensures CountAt(f, s) == CountAt(g, s) {
      SameCounts(f, g, s);
    }
  }

  lemma SameSeconds(f: seq<Packet>, g: seq<Packet>)
    requires multiset(f) == multiset(g)
    ensures SecondsOf(f) == SecondsOf(g)
  {
    hide SecondOf;
    SecondsWithin(f, g);
    SecondsWithin(g, f);
  }

  lemma SecondsWithin(f: seq<Packet>, g: seq<Packet>)
    requires multiset(f) == multiset(g)
    ensures SecondsOf(f) <= SecondsOf(g)
  {
    forall s | s in SecondsOf(f) ensures s in SecondsOf(g) {
      var i :| 0 <= i < |f| && f[i].time.Some? && SecondOf(f[i].time.value) == s;
      assert f[i] in multiset(f);
      assert f[i] in multiset(g);
      var j :| 0 <= j < |g| && g[j] == f[i];
    }
  }

  lemma {:induction false} SameCounts(f: seq<Packet>, g: seq<Packet>, s: int)
    requires multiset(f) == multiset(g)
    ensures CountAt(f, s) == CountAt(g, s)
  {
    hide Weight, Plus;
    if f == [] {
      assert |g| == |multiset(g)| == |multiset(f)| == |f|;
    } else {
      var init, last := f[..|f| - 1], f[|f| - 1];
      assert f == init + [last];
      assert last in multiset(g);
      var j :| 0 <= j < |g| && g[j] == last;
      var head, tail := g[..j], g[j + 1..];
      assert g == head + [last] + tail;
      SameRest(init, head, last, tail);
      SameCounts(init, head + tail, s);
      CountMoves(head, last, tail, s);
    }
  }

  lemma SameRest(init: seq<Packet>, head: seq<Packet>, p: Packet, tail: seq<Packet>)
    requires multiset(init + [p]) == multiset(head + [p] + tail)
    ensures multiset(init) == multiset(head + tail)
  {
    assert multiset(init) == multiset(init + [p]) - multiset{p};
    assert multiset(head + [p] + tail) == multiset(head) + multiset{p} + multiset(tail);
  }

  lemma CountMoves(head: seq<Packet>, p: Packet, tail: seq<Packet>, s: int)
    ensures CountAt(head + [p] + tail, s) == Plus(CountAt(head + tail, s), Weight(p, s))
  {
    hide Weight, Plus;
    var h, t, w := CountAt(head, s), CountAt(tail, s), Weight(p, s);
    CountConcat(head + [p], tail, s);
    CountConcat(head, tail, s);
    assert (head + [p])[..|head|] == head;
    PlusLaws(h, w, t);
    PlusLaws(h, t, w);
    PlusLaws(t, w, NONE);
  }

  /** The clock offset is the least gap of any batch with a time, and some batch's. */
  lemma {:induction false} OffsetIsLeastGap(batches: seq<Batch>, i: nat)
    requires i < |batches| && NewestTime(batches[i].frames).Some?
    ensures OffsetAfter(batches).Some?
    ensures OffsetAfter(batches).value <= batches[i].received - NewestTime(batches[i].frames).value
  {
    if i < |batches| - 1 {
      OffsetIsLeastGap(batches[..|batches| - 1], i);
    }
  }

  lemma {:induction false} OffsetIsSomeGap(batches: seq<Batch>)
    requires OffsetAfter(batches).Some?
    ensures exists i ::
      && 0 <= i < |batches| && NewestTime(batches[i].frames).Some?
      && OffsetAfter(batches).value == batches[i].received - NewestTime(batches[i].frames).value
  {
    var init, last := batches[..|batches| - 1], batches[|batches| - 1];
    if OffsetAfter(batches) == OffsetAfter(init) {
      OffsetIsSomeGap(init);
      var i :| 0 <= i < |init| && NewestTime(init[i].frames).Some?
        && OffsetAfter(init).value == init[i].received - NewestTime(init[i].frames).value;
      assert batches[i] == init[i];
    } else {
      assert batches[|batches| - 1] == last;
    }
  }

  // ---------------------------------------------------------- window

  lemma SomeNewest(seconds: set<int>)
    requires seconds != {}
    ensures exists s :: IsNewest(seconds, s)
  {
    var s := NewestExists(seconds);
  }

  /** The newest second of a map. */
  function Newest(seconds: Seconds): (s: int)
    requires seconds.Keys != {}
    ensures IsNewest(seconds.Keys, s)
  {
    SomeNewest(seconds.Keys);
    var s :| IsNewest(seconds.Keys, s);
    s
  }

  /** `window`: the counts of the `n` seconds ending now, or at the newest frame. */
  function Window(seconds: Seconds, offset: Option<int>, n: nat, now: Option<int>): (slots: seq<Count>)
    ensures |slots| == n
  {
    if now.Some? then Slots(seconds, n, SecondOf(now.value - (if offset.Some? then offset.value else 0)))
    else if seconds.Keys != {} then Slots(seconds, n, Newest(seconds))
    else seq(n, _ => NONE)
  }

  function Slots(seconds: Seconds, n: nat, end: int): seq<Count> {
    seq(n, i => Get(seconds, end - n + 1 + i))
  }

  /** The newest second of the frames, if any has a time. */
  predicate IsFloor(frames: seq<Packet>, floor: int) {
    IsNewest(SecondsOf(frames), floor + HISTORY)
  }

  /** A slot holds the histogram above the floor, and nothing at or below it. */
  lemma SlotIsCount(frames: seq<Packet>, floor: int, s: int)
    requires IsFloor(frames, floor)
    ensures Get(Retained(frames), s) == if s > floor then CountAt(frames, s) else NONE
  {
    hide SecondsOf, CountAt;
    if s !in SecondsOf(frames) {
      NoCountElsewhere(frames, s);
    }
  }

  function WeightWithin(p: Packet, floor: int, end: int): Count {
    if p.time.Some? && floor < SecondOf(p.time.value) <= end then One(p) else NONE
  }

  /** How many of the frames fall in the seconds after `floor`, up to `end`. */
  function CountWithin(frames: seq<Packet>, floor: int, end: int): Count {
    if frames == [] then NONE
    else Plus(CountWithin(frames[..|frames| - 1], floor, end), WeightWithin(frames[|frames| - 1], floor, end))
  }

  lemma WeightStep(p: Packet, floor: int, s: int)
    ensures WeightWithin(p, floor, s) == Plus(WeightWithin(p, floor, s - 1), if s > floor then Weight(p, s) else NONE)
  {
    hide SecondOf, One, Plus;
    PlusLaws(NONE, if s > floor then Weight(p, s) else NONE, NONE);
    PlusLaws(One(p), NONE, NONE);
  }

  lemma {:induction false} WithinStep(frames: seq<Packet>, floor: int, s: int)
    ensures CountWithin(frames, floor, s) ==
            Plus(CountWithin(frames, floor, s - 1), if s > floor then CountAt(frames, s) else NONE)
  {
    hide Plus, WeightWithin, Weight;
    if frames == [] {
      PlusLaws(NONE, NONE, NONE);
    } else {
      var init, last := frames[..|frames| - 1], frames[|frames| - 1];
      WithinStep(init, floor, s);
      WeightStep(last, floor, s);
      Interchange(CountWithin(init, floor, s - 1), if s > floor then CountAt(init, s) else NONE,
                  WeightWithin(last, floor, s - 1), if s > floor then Weight(last, s) else NONE);
      PlusLaws(NONE, NONE, NONE);
    }
  }

  lemma Interchange(a: Count, b: Count, c: Count, d: Count)
    ensures Plus(Plus(a, b), Plus(c, d)) == Plus(Plus(a, c), Plus(b, d))
  {
  }

  lemma {:induction false} NothingWithin(frames: seq<Packet>, floor: int, end: int)
    requires end <= floor
    ensures CountWithin(frames, floor, end) == NONE
  {
    hide Plus, SecondOf;
    if frames != [] {
      NothingWithin(frames[..|frames| - 1], floor, end);
      PlusLaws(NONE, NONE, NONE);
    }
  }

  function Total(slots: seq<Count>): Count {
    if slots == [] then NONE else Plus(Total(slots[..|slots| - 1]), slots[|slots| - 1])
  }

  lemma {:induction false} SlotsTotal(frames: seq<Packet>, floor: int, start: int, n: nat)
    requires IsFloor(frames, floor) && start <= floor
    ensures Total(Slots(Retained(frames), n, start + n)) == CountWithin(frames, floor, start + n)
  {
    hide Plus, IsFloor, Retained, CountWithin, Get;
    var slots := Slots(Retained(frames), n, start + n);
    if n == 0 {
      NothingWithin(frames, floor, start);
    } else {
      SlotsTotal(frames, floor, start, n - 1);
      assert slots[..n - 1] == Slots(Retained(frames), n - 1, start + n - 1);
      assert slots[n - 1] == Get(Retained(frames), start + n);
      SlotIsCount(frames, floor, start + n);
      WithinStep(frames, floor, start + n);
    }
  }

  /** A window of the whole history that ends at the newest frame holds every frame of
      the newest `HISTORY` seconds, each counted once. */
  lemma WindowHoldsAll(batches: seq<Batch>, offset: Option<int>, n: nat)
    requires n >= HISTORY
    ensures
      var frames, seconds := AllFrames(batches), SecondsAfter(batches);
      Total(Window(seconds, offset, n, None)) ==
      if seconds.Keys == {} then NONE else CountWithin(frames, Newest(seconds) - HISTORY, Newest(seconds))
  {
    hide CountWithin, Slots, Total, AllFrames, SecondsAfter, Plus;
    var frames, seconds := AllFrames(batches), SecondsAfter(batches);
    RateIsHistogram(batches);
    if seconds.Keys == {} {
      NothingTotal(n);
    } else {
      NewestIsKept(frames);
      SlotsTotal(frames, Newest(seconds) - HISTORY, Newest(seconds) - n, n);
    }
  }

  lemma NewestIsKept(frames: seq<Packet>)
    requires Retained(frames).Keys != {}
    ensures IsFloor(frames, Newest(Retained(frames)) - HISTORY)
  {
    hide SecondsOf, CountAt;
    var k := Member(Retained(frames).Keys);
    assert k in SecondsOf(frames);
    var s := NewestExists(SecondsOf(frames));
    assert s in Retained(frames);
  }

  lemma {:induction false} NothingTotal(n: nat)
    ensures Total(seq(n, _ => NONE)) == NONE
  {
    if n > 0 {
      NothingTotal(n - 1);
      assert seq(n, _ => NONE)[..n - 1] == seq(n - 1, _ => NONE);
    }
  }

  // ---------------------------------------------------------- a second's frames

  /** The frame was seen in the second, of a thousand milliseconds. */
  predicate SeenIn(p: Packet, second: int) {
    p.time.Some? && 1000 * second <= p.time.value <= 1000 * second + 999
  }

  /** The frames of a second that were allowed, or that were denied, by position. */
  function Falling(frames: seq<Packet>, second: int, allowed: bool): set<int> {
    set i | 0 <= i < |frames| && SeenIn(frames[i], second) && frames[i].allowed == allowed
  }

  lemma WeightExactly(p: Packet, second: int)
    ensures Weight(p, second) == if !SeenIn(p, second) then NONE else if p.allowed then Count(1, 0) else Count(0, 1)
  {
  }

  /** A second's count is how many frames were allowed in it, and how many denied. */
  lemma {:induction false} CountIsNumber(frames: seq<Packet>, second: int)
    ensures CountAt(frames, second) == Count(|Falling(frames, second, true)|, |Falling(frames, second, false)|)
  {
    hide SeenIn, Weight, Falling, CountAt;
    if frames == [] {
      NothingFalls(second);
    } else {
      var n := |frames| - 1;
      var init, last := frames[..n], frames[n];
      CountIsNumber(init, second);
      CountGrows(frames, second);
      WeightExactly(last, second);
      FallingGrows(frames, second, true);
      FallingGrows(frames, second, false);
    }
  }

  lemma NothingFalls(second: int)
    ensures Falling([], second, true) == {} && Falling([], second, false) == {} && CountAt([], second) == Count(0, 0)
  {
  }

  lemma CountGrows(frames: seq<Packet>, second: int)
    requires frames != []
    ensures
      var before, added := CountAt(frames[..|frames| - 1], second), Weight(frames[|frames| - 1], second);
      CountAt(frames, second) == Count(before.allowed + added.allowed, before.denied + added.denied)
  {
    hide Weight;
  }

  lemma FallingGrows(frames: seq<Packet>, second: int, allowed: bool)
    requires frames != []
    ensures
      var n := |frames| - 1;
      |Falling(frames, second, allowed)| == |Falling(frames[..n], second, allowed)|
        + if SeenIn(frames[n], second) && frames[n].allowed == allowed then 1 else 0
  {
    hide SeenIn;
    var n := |frames| - 1;
    var before := Falling(frames[..n], second, allowed);
    assert n !in before;
    assert Falling(frames, second, allowed) ==
      if SeenIn(frames[n], second) && frames[n].allowed == allowed then before + {n} else before;
  }

  /** The newest time of a batch is that of some frame, and none is later. */
  lemma {:induction false} NewestTimeExactly(frames: seq<Packet>)
    ensures NewestTime(frames).None? <==> forall i :: 0 <= i < |frames| ==> frames[i].time.None?
    ensures NewestTime(frames).Some? ==>
      && (exists i :: 0 <= i < |frames| && frames[i].time == NewestTime(frames))
      && forall i :: 0 <= i < |frames| && frames[i].time.Some? ==> frames[i].time.value <= NewestTime(frames).value
  {
    if frames != [] {
      var n := |frames| - 1;
      NewestTimeExactly(frames[..n]);
      assert forall i :: 0 <= i < n ==> frames[..n][i] == frames[i];
    }
  }

  /** The last second in which a frame was seen. */
  predicate LastSeen(frames: seq<Packet>, second: int) {
    && (exists i :: 0 <= i < |frames| && SeenIn(frames[i], second))
    && forall i :: 0 <= i < |frames| && frames[i].time.Some? ==> frames[i].time.value <= 1000 * second + 999
  }

  /** Where a window ends: in the present second on the recorder's clock, or in the last seen. */
  predicate EndsIn(batches: seq<Batch>, now: Option<int>, end: int) {
    match now
    case Some(time) =>
      var ahead := if OffsetAfter(batches).Some? then OffsetAfter(batches).value else 0;
      1000 * end <= time - ahead <= 1000 * end + 999
    case None => LastSeen(AllFrames(batches), end)
  }

  lemma LastSeenIsNewest(frames: seq<Packet>, second: int)
    requires LastSeen(frames, second)
    ensures IsNewest(SecondsOf(frames), second) && Retained(frames).Keys != {} && Newest(Retained(frames)) == second
  {
    var i :| 0 <= i < |frames| && SeenIn(frames[i], second);
    assert SecondOf(frames[i].time.value) == second;
    assert second in SecondsOf(frames);
    forall t | t in SecondsOf(frames) ensures t <= second {
      var k :| 0 <= k < |frames| && frames[k].time.Some? && SecondOf(frames[k].time.value) == t;
    }
    hide SecondsOf, CountAt;
    assert second in Retained(frames);
  }

  lemma WindowSlot(seconds: Seconds, offset: Option<int>, n: nat, now: Option<int>, end: int, i: nat)
    requires i < n
    requires now.Some? ==>
      1000 * end <= now.value - (if offset.Some? then offset.value else 0) <= 1000 * end + 999
    requires now.None? ==> seconds.Keys != {} && Newest(seconds) == end
    ensures Window(seconds, offset, n, now)[i] == Get(seconds, end - n + 1 + i)
  {
    hide Get, Newest;
  }

  /** Every slot of any window, wherever it ends, shows the frames of its own second: how many
      were allowed and how many denied, unless it is `HISTORY` or more before the last seen. */
  lemma WindowIsHistogram(batches: seq<Batch>, n: nat, now: Option<int>, end: int, last: int, i: nat)
    requires i < n && LastSeen(AllFrames(batches), last) && EndsIn(batches, now, end)
    ensures
      var frames, s := AllFrames(batches), end - n + 1 + i;
      Window(SecondsAfter(batches), OffsetAfter(batches), n, now)[i] ==
      if last - s < 600 then Count(|Falling(frames, s, true)|, |Falling(frames, s, false)|) else Count(0, 0)
  {
    hide CountAt, OffsetAfter, AllFrames, SecondsAfter, Falling, LastSeen, Window, Get, Retained, Newest, SecondsOf;
    var frames, s := AllFrames(batches), end - n + 1 + i;
    RateIsHistogram(batches);
    LastSeenIsNewest(frames, last);
    if now.None? {
      LastSeenIsNewest(frames, end);
    }
    WindowSlot(SecondsAfter(batches), OffsetAfter(batches), n, now, end, i);
    SlotIsCount(frames, last - HISTORY, s);
    CountIsNumber(frames, s);
  }

  /** Before any frame with a time, a window is empty. */
  lemma EmptyWindow(batches: seq<Batch>, n: nat, now: Option<int>, i: nat)
    requires i < n && forall k :: 0 <= k < |AllFrames(batches)| ==> AllFrames(batches)[k].time.None?
    ensures Window(SecondsAfter(batches), OffsetAfter(batches), n, now)[i] == Count(0, 0)
  {
    hide OffsetAfter, AllFrames, SecondsAfter, SecondOf, CountAt, Window;
    RateIsHistogram(batches);
    assert SecondsOf(AllFrames(batches)) == {};
    assert Retained(AllFrames(batches)) == map[];
    NothingShown(OffsetAfter(batches), n, now, i);
  }

  lemma NothingShown(offset: Option<int>, n: nat, now: Option<int>, i: nat)
    requires i < n
    ensures Window(map[], offset, n, now)[i] == Count(0, 0)
  {
    if now.Some? {
      var end := SecondOf(now.value - if offset.Some? then offset.value else 0);
      WindowSlot(map[], offset, n, now, end, i);
      assert Get(map[], end - n + 1 + i) == NONE;
    }
  }

  // ---------------------------------------------------------- beside the held frames

  /** The counts kept beside a held capture: a capture command starts them over, a read
      records the frames after the cursor. */
  function Recorded(run: seq<Event>): Seconds {
    if run == [] then map[]
    else
      var before := run[..|run| - 1];
      match run[|run| - 1]
      case Load(loaded) => Trimmed(Tallied(map[], loaded.packets))
      case Read(read) => Trimmed(Tallied(Recorded(before), Fresh(read.packets, After(before).next)))
  }

  /** Every frame accepted since the last capture command, over recorder restarts too. */
  function Seen(run: seq<Event>): seq<Packet> {
    if run == [] then []
    else
      var before := run[..|run| - 1];
      match run[|run| - 1]
      case Load(loaded) => loaded.packets
      case Read(read) => Seen(before) + Fresh(read.packets, After(before).next)
  }

  /** No read of the run found a recorder that had restarted. */
  predicate NoRestart(run: seq<Event>) {
    forall i :: 0 <= i < |run| && run[i].Read? ==> run[i].snapshot.latest >= After(run[..i]).next
  }

  /** The chart counts every accepted frame once: its counts are the histogram of the
      frames accepted since the last capture command, and while no recorder restarted
      those are the frames the buffer held, though it keeps only the last of them. */
  lemma {:induction false} ChartFollowsCapture(run: seq<Event>)
    ensures Recorded(run) == Retained(Seen(run))
    ensures NoRestart(run) ==> Seen(run) == Log(run)
  {
    hide Trimmed, Tallied, Retained, Fresh;
    NothingRetained();
    if run != [] {
      var before := run[..|run| - 1];
      ChartFollowsCapture(before);
      NoRestartBefore(run);
      match run[|run| - 1] {
        case Load(loaded) =>
          RecordRetains([], loaded.packets);
          assert [] + loaded.packets == loaded.packets;
        case Read(read) =>
          RecordRetains(Seen(before), Fresh(read.packets, After(before).next));
      }
    }
  }

  lemma NoRestartBefore(run: seq<Event>)
    requires run != []
    ensures NoRestart(run) ==> NoRestart(run[..|run| - 1])
    ensures NoRestart(run) && run[|run| - 1].Read? ==> run[|run| - 1].snapshot.latest >= After(run[..|run| - 1]).next
  {
    var before := run[..|run| - 1];
    hide After;
    if NoRestart(run) {
      forall i | 0 <= i < |before| && before[i].Read? ensures before[i].snapshot.latest >= After(before[..i]).next {
        assert before[..i] == run[..i];
        assert run[i].snapshot.latest >= After(run[..i]).next;
      }
    }
  }

  // ---------------------------------------------------------- the counters

  class Rate {
    var seconds: Seconds
    var offset: Option<int>
    /** The batches recorded since the last clear. */
    ghost var batches: seq<Batch>

    /** The counters are those of the batches. */
    ghost predicate Valid()
      reads this
    {
      seconds == SecondsAfter(batches) && offset == OffsetAfter(batches)
    }

    constructor ()
      ensures Valid() && batches == []
    {
      seconds, offset, batches := map[], None, [];
    }

    /** `record`: the counts are the histogram of every frame recorded since the last clear,
        in its newest seconds. */
    method Record(frames: seq<Packet>, received: int)
      requires Valid()
      modifies this
      ensures Valid() && batches == old(batches) + [Batch(frames, received)]
      ensures seconds == Retained(AllFrames(batches))
    {
      hide SecondsAfter, OffsetAfter, AllFrames, Retained, Trimmed, Tallied, Offset;
      Count(frames, received);
      BatchAdded(batches, Batch(frames, received));
      batches := batches + [Batch(frames, received)];
      RateIsHistogram(batches);
    }

    /** Count each frame with a time, then forget seconds past the history. */
    method Count(frames: seq<Packet>, received: int)
      modifies this`seconds, this`offset
      ensures seconds == Trimmed(Tallied(old(seconds), frames))
      ensures offset == Offset(old(offset), frames, received)
    {
      hide SecondOf, Trimmed, Tallied, NewestTime, Plus, One, Get;
      var newest: Option<int> := None;
      NothingTallied(old(seconds));
      assert frames[..0] == [];
      for i := 0 to |frames|
        invariant seconds == Tallied(old(seconds), frames[..i])
        invariant newest == NewestTime(frames[..i]) && offset == old(offset)
      {
        PrefixStep(old(seconds), frames, i);
        var packet := frames[i];
        if packet.time.Some? {
          var second := SecondOf(packet.time.value);
          seconds := seconds[second := Plus(Get(seconds, second), One(packet))];
        }
        newest := Later(newest, packet.time);
      }
      assert frames[..|frames|] == frames;
      if newest.Some? {
        var gap := received - newest.value;
        offset := Some(if offset.Some? && offset.value < gap then offset.value else gap);
      }
      Trim();
    }

    /** Keep the newest seconds: split the map below its last key. */
    method Trim()
      modifies this`seconds
      ensures seconds == Trimmed(old(seconds))
    {
      if |seconds| > 0 {
        assert seconds.Keys != {};
        ghost var newest := NewestExists(seconds.Keys);
        assert IsNewest(seconds.Keys, newest);
        var last :| last in seconds && forall t :: t in seconds ==> t <= last;
        seconds := map s | s in seconds && s >= last - HISTORY + 1 :: seconds[s];
      }
    }

    /** `clear`: as if nothing had ever been recorded. */
    method Clear()
      modifies this
      ensures Valid() && batches == []
    {
      seconds, offset, batches := map[], None, [];
    }
  }

  lemma BatchAdded(batches: seq<Batch>, b: Batch)
    ensures SecondsAfter(batches + [b]) == Trimmed(Tallied(SecondsAfter(batches), b.frames))
    ensures OffsetAfter(batches + [b]) == Offset(OffsetAfter(batches), b.frames, b.received)
  {
    hide Trimmed, Tallied, Offset;
    assert (batches + [b])[..|batches|] == batches;
  }
}
