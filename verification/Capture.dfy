/** Packets the desktop holds for one capture, after `desktop/src/capture.rs`: live
    reads are folded into a bounded buffer behind a cursor, and a recorder that
    restarted makes the desktop start over. */
module Capture {
  import opened Wrappers
  import opened Sources

  /** One frame: its number, when it was seen if its timestamp reads, whether it was
      allowed, where it was captured, and by which start of the recorder there. */
  datatype Packet = Packet(sequence: nat, time: Option<int>, allowed: bool, origin: Origin, recorder: nat)

  datatype Snapshot = Snapshot(active: bool, packets: seq<Packet>, next: nat, latest: nat, oldest: nat, evicted: nat)

  /** Packets kept for one capture. */
  const KEEP := 2048

  const EMPTY := Snapshot(false, [], 0, 0, 0, 0)

  /** The packets of a read that come after the cursor. */
  function Fresh(packets: seq<Packet>, after: nat): (newer: seq<Packet>)
    ensures forall p :: p in newer <==> p in packets && p.sequence > after
  {
    if packets == [] then []
    else
      var init, last := Fresh(packets[..|packets| - 1], after), packets[|packets| - 1];
      assert packets == packets[..|packets| - 1] + [last];
      if last.sequence > after then init + [last] else init
  }

  function LastKept(packets: seq<Packet>): (kept: seq<Packet>)
    ensures |kept| <= KEEP
  {
    if |packets| <= KEEP then packets else packets[|packets| - KEEP..]
  }

  function Max(a: nat, b: nat): nat {
    if a < b then b else a
  }

  /** `merge`, on values. */
  function Merged(held: Snapshot, read: Snapshot, after: nat): Snapshot {
    if read.latest < after then read.(packets := [], next := 0)
    else read.(packets := LastKept(held.packets + Fresh(read.packets, after)), next := Max(read.next, after))
  }

  /** `behind`. */
  predicate Behind(s: Snapshot) {
    s.next < s.latest
  }

  lemma FreshStep(packets: seq<Packet>, i: nat, after: nat)
    requires i < |packets|
    ensures Fresh(packets[..i + 1], after) ==
      Fresh(packets[..i], after) + if packets[i].sequence > after then [packets[i]] else []
  {
    assert packets[..i + 1][..i] == packets[..i];
  }

  lemma KeptAfterDrain(packets: seq<Packet>, excess: nat)
    requires excess == if |packets| < KEEP then 0 else |packets| - KEEP
    ensures LastKept(packets) == packets[excess..]
  {
    assert packets[0..] == packets;
  }

  class Held {
    var active: bool
    var packets: seq<Packet>
    var next: nat
    var latest: nat
    var oldest: nat
    var evicted: nat

    function View(): Snapshot
      reads this
    {
      Snapshot(active, packets, next, latest, oldest, evicted)
    }

    /** `merge`: extend with the frames after the cursor, then drain the excess. */
    method Merge(read: Snapshot, after: nat)
      modifies this
      ensures View() == Merged(old(View()), read, after)
    {
      active, latest, oldest, evicted := read.active, read.latest, read.oldest, read.evicted;
      if read.latest < after {
        packets := [];
        next := 0;
        return;
      }
      hide LastKept, Max;
      ghost var held := packets;
      for i := 0 to |read.packets|
        invariant packets == held + Fresh(read.packets[..i], after)
        invariant active == read.active && latest == read.latest && oldest == read.oldest && evicted == read.evicted
      {
        FreshStep(read.packets, i, after);
        hide Fresh;
        if read.packets[i].sequence > after {
          packets := packets + [read.packets[i]];
        }
      }
      assert read.packets[..|read.packets|] == read.packets;
      var excess := if |packets| < KEEP then 0 else |packets| - KEEP;
      KeptAfterDrain(packets, excess);
      packets := packets[excess..];
      next := Max(read.next, after);
    }
  }

  // ---------------------------------------------------------- runs

  /** What happens to a held capture: a read taken after its cursor, or a capture
      command's answer that replaces it. Reads that come back stale change nothing. */
  datatype Event = Read(snapshot: Snapshot) | Load(snapshot: Snapshot)

  function Step(held: Snapshot, e: Event): Snapshot {
    match e
    case Read(read) => Merged(held, read, held.next)
    case Load(loaded) => loaded
  }

  function After(run: seq<Event>): Snapshot {
    if run == [] then EMPTY else Step(After(run[..|run| - 1]), run[|run| - 1])
  }

  /** What the recorder promises of an answer: frames ascend, none is newer than the
      cursor it gives, which is no newer than the newest. */
  predicate Answered(s: Snapshot) {
    Ascending(s.packets) && UpTo(s.packets, s.next) && s.next <= s.latest
  }

  predicate Ascending(packets: seq<Packet>) {
    forall i, j :: 0 <= i < j < |packets| ==> packets[i].sequence < packets[j].sequence
  }

  predicate UpTo(packets: seq<Packet>, next: nat) {
    forall i :: 0 <= i < |packets| ==> packets[i].sequence <= next
  }

  /** Every answer of a run keeps the promise. */
  predicate Promised(run: seq<Event>) {
    forall i :: 0 <= i < |run| ==> Answered(run[i].snapshot)
  }

  /** What one event does to the frames accepted. */
  function Logged(log: seq<Packet>, next: nat, e: Event): seq<Packet> {
    match e
    case Load(loaded) => loaded.packets
    case Read(read) => if read.latest < next then [] else log + Fresh(read.packets, next)
  }

  /** Every frame accepted since the last reset: the unbounded buffer. */
  function Log(run: seq<Event>): seq<Packet> {
    if run == [] then []
    else
      var before := run[..|run| - 1];
      Logged(Log(before), After(before).next, run[|run| - 1])
  }

  /** The last event is a capture command, whose answer is held whole. */
  predicate JustLoaded(run: seq<Event>) {
    run != [] && run[|run| - 1].Load?
  }

  lemma {:induction false} FreshAscends(packets: seq<Packet>, after: nat)
    requires Ascending(packets)
    ensures Ascending(Fresh(packets, after))
  {
    if packets != [] {
      var init := packets[..|packets| - 1];
      FreshAscends(init, after);
      assert forall i :: 0 <= i < |init| ==> init[i] == packets[i];
      assert forall p :: p in Fresh(init, after) ==> p.sequence < packets[|init|].sequence;
    }
  }

  lemma AscendingConcat(a: seq<Packet>, b: seq<Packet>, next: nat)
    requires Ascending(a) && Ascending(b) && UpTo(a, next) && forall p :: p in b ==> p.sequence > next
    ensures Ascending(a + b)
  {
    forall i, j | 0 <= i < j < |a + b| ensures (a + b)[i].sequence < (a + b)[j].sequence {
      if i < |a| <= j {
        assert b[j - |a|] in b;
      }
    }
  }

  /** Dropping the excess as frames arrive, or once at the end, keeps the same frames. */
  lemma LastKeptAbsorbs(a: seq<Packet>, b: seq<Packet>)
    ensures LastKept(LastKept(a) + b) == LastKept(a + b)
  {
    if |a| > KEEP {
      var d := |a| - KEEP;
      assert (a + b)[d..] == a[d..] + b;
      assert (a[d..] + b)[|b|..] == (a + b)[d + |b|..];
    }
  }

  lemma LastKeptAscends(packets: seq<Packet>, next: nat)
    requires Ascending(packets) && UpTo(packets, next)
    ensures Ascending(LastKept(packets)) && UpTo(LastKept(packets), next)
  {
  }

  /** A read after the cursor keeps the log in order behind the new cursor. */
  lemma ReadExtends(log: seq<Packet>, next: nat, read: Snapshot)
    requires Ascending(log) && UpTo(log, next) && Answered(read)
    ensures Ascending(log + Fresh(read.packets, next)) && UpTo(log + Fresh(read.packets, next), Max(read.next, next))
  {
    var newer := Fresh(read.packets, next);
    FreshAscends(read.packets, next);
    AscendingConcat(log, newer, next);
    forall i | 0 <= i < |newer| ensures newer[i].sequence <= read.next {
      assert newer[i] in newer;
    }
  }

  /** What is held beside the frames is what the last answer said; its cursor takes the held
      one no further back, unless it shows a restart, which drops all that was held. */
  predicate AnswersWith(before: Snapshot, held: Snapshot, e: Event) {
    var last := e.snapshot;
    && held.active == last.active && held.latest == last.latest
    && held.oldest == last.oldest && held.evicted == last.evicted
    && match e
       case Load(_) => held.next == last.next && held.packets == last.packets
       case Read(_) =>
         && (last.latest < before.next ==> held.next == 0 && held.packets == [])
         && (last.latest >= before.next ==>
               held.next >= before.next && held.next >= last.next && held.next in {before.next, last.next})
  }

  /** Over every run of reads, restarts and capture commands: the held frames are the
      last `KEEP` of those accepted since the last reset, but for a capture command's
      answer, held whole until the next read; they ascend, none is newer than the cursor,
      and the cursor is no newer than the newest frame. The rest is the last answer's. */
  lemma {:induction false} HeldIsLastKept(run: seq<Event>)
    requires Promised(run)
    ensures
      var held := After(run);
      && held.packets == (if JustLoaded(run) then Log(run) else LastKept(Log(run)))
      && (|held.packets| > KEEP <==> JustLoaded(run) && |run[|run| - 1].snapshot.packets| > KEEP)
      && Ascending(Log(run)) && Ascending(held.packets)
      && UpTo(Log(run), held.next) && UpTo(held.packets, held.next)
      && held.next <= held.latest
      && (run != [] ==> AnswersWith(After(run[..|run| - 1]), held, run[|run| - 1]))
  {
    hide AnswersWith;
    if run != [] {
      var before, last := run[..|run| - 1], run[|run| - 1];
      StepAnswers(After(before), last);
      assert Promised(before) by { assert forall i :: 0 <= i < |before| ==> before[i] == run[i]; }
      assert Answered(last.snapshot);
      HeldIsLastKept(before);
      hide Promised, Ascending, UpTo;
      LastKeptTwice(Log(before));
      StepKeeps(After(before), Log(before), last);
      LastKeptAscends(Log(run), After(run).next);
    } else {
      assert Log(run) == [] && After(run) == EMPTY;
    }
  }

  lemma StepAnswers(held: Snapshot, e: Event)
    ensures AnswersWith(held, Step(held, e), e)
  {
  }

  lemma LastKeptTwice(log: seq<Packet>)
    ensures LastKept(LastKept(log)) == LastKept(log)
  {
  }

  lemma StepKeeps(held: Snapshot, log: seq<Packet>, e: Event)
    requires LastKept(held.packets) == LastKept(log) && Ascending(log) && UpTo(log, held.next)
    requires Answered(e.snapshot)
    ensures
      var next, all := Step(held, e), Logged(log, held.next, e);
      && next.packets == (if e.Load? then all else LastKept(all))
      && Ascending(all) && UpTo(all, next.next)
      && next.next <= next.latest
  {
    if e.Read? && e.snapshot.latest >= held.next {
      ReadExtends(log, held.next, e.snapshot);
      LastKeptAbsorbs(log, Fresh(e.snapshot.packets, held.next));
      LastKeptAbsorbs(held.packets, Fresh(e.snapshot.packets, held.next));
    }
  }

  // ---------------------------------------------------------- recorders

  predicate FromRecorder(packets: seq<Packet>, recorder: nat) {
    forall i :: 0 <= i < |packets| ==> packets[i].recorder == recorder
  }

  /** A read from another start of the recorder than the held frames: the held frames stay
      one recorder's exactly when the restart shows in its numbers, it brings nothing
      newer than the cursor, or enough to push out all that was held. */
  lemma MixedExactly(held: Snapshot, read: Snapshot, older: nat, newer: nat)
    requires older != newer && held.packets != [] && FromRecorder(held.packets, older) && FromRecorder(read.packets,
        newer)
    ensures
      var added := Fresh(read.packets, held.next);
      (exists r :: FromRecorder(Merged(held, read, held.next).packets, r)) <==>
      read.latest < held.next || added == [] || |added| >= KEEP
  {
    var added := Fresh(read.packets, held.next);
    var all, kept := held.packets + added, LastKept(held.packets + added);
    forall i | 0 <= i < |added| ensures added[i].recorder == newer { assert added[i] in added; }
    if read.latest < held.next {
      assert FromRecorder(Merged(held, read, held.next).packets, 0);
    } else if added == [] {
      assert all == held.packets;
      assert FromRecorder(Merged(held, read, held.next).packets, older);
    } else if |added| >= KEEP {
      assert FromRecorder(Merged(held, read, held.next).packets, newer);
    } else {
      var at := |kept| - |added|;
      assert kept[at] == added[0];
      assert kept[at - 1] == held.packets[|held.packets| - 1];
    }
  }

  /** The recorder each answer of a run came from. */
  predicate TakenBy(run: seq<Event>, takers: seq<nat>) {
    |takers| == |run| && forall i :: 0 <= i < |run| ==> FromRecorder(run[i].snapshot.packets, takers[i])
  }

  /** Every restart is read while it shows: before the new recorder has numbered past the
      cursor, or when nothing is held. */
  predicate RestartsShow(run: seq<Event>, takers: seq<nat>)
    requires |takers| == |run|
  {
    forall i :: 0 < i < |run| && run[i].Read? && takers[i] != takers[i - 1] ==> RestartShows(After(run[..i]),
        run[i].snapshot)
  }

  predicate RestartShows(held: Snapshot, read: Snapshot) {
    read.latest < held.next || held.packets == []
  }

  /** Then the held frames are always the newest recorder's. */
  lemma {:induction false} HeldFromOneRecorder(run: seq<Event>, takers: seq<nat>)
    requires run != [] && TakenBy(run, takers) && RestartsShow(run, takers)
    ensures FromRecorder(After(run).packets, takers[|takers| - 1])
  {
    var n := |run| - 1;
    var before, last := run[..n], run[n];
    var newer := Fresh(last.snapshot.packets, After(before).next);
    assert FromRecorder(last.snapshot.packets, takers[n]);
    forall i | 0 <= i < |newer| ensures newer[i].recorder == takers[n] { assert newer[i] in newer; }
    if n == 0 {
      assert before == [];
    } else if last.Read? {
      RestartsShowBefore(run, takers);
      HeldFromOneRecorder(before, takers[..n]);
      assert takers[n] != takers[n - 1] ==> RestartShows(After(run[..n]), last.snapshot);
    }
  }

  lemma RestartsShowBefore(run: seq<Event>, takers: seq<nat>)
    requires |run| > 1 && TakenBy(run, takers) && RestartsShow(run, takers)
    ensures
      var n := |run| - 1;
      TakenBy(run[..n], takers[..n]) && RestartsShow(run[..n], takers[..n])
  {
    var n := |run| - 1;
    hide After, FromRecorder;
    forall i | 0 < i < n && run[..n][i].Read? && takers[..n][i] != takers[..n][i - 1]
      ensures RestartShows(After(run[..n][..i]), run[..n][i].snapshot)
    {
      assert run[..n][..i] == run[..i];
    }
  }

  /** A restart that does not show: a new recorder that has already numbered past the cursor. */
  lemma UnnoticedRestart(origin: Origin)
    ensures
      var old1 := Packet(1, None, true, origin, 0);
      var new1, new2 := Packet(1, None, true, origin, 1), Packet(2, None, true, origin, 1);
      var run := [Load(Snapshot(true, [old1], 1, 1, 1, 0)), Read(Snapshot(true, [new1, new2], 2, 2, 1, 0))];
      After(run).packets == [old1, new2]
  {
    var old1 := Packet(1, None, true, origin, 0);
    var new1, new2 := Packet(1, None, true, origin, 1), Packet(2, None, true, origin, 1);
    var run := [Load(Snapshot(true, [old1], 1, 1, 1, 0)), Read(Snapshot(true, [new1, new2], 2, 2, 1, 0))];
    assert run[..1] == [run[0]];
    assert [new1, new2][..1] == [new1] && [new1][..0] == [];
    assert Fresh([], 1) == [] && Fresh([new1], 1) == [] && Fresh([new1, new2], 1) == [new2];
    assert [old1] + [new2] == [old1, new2];
  }

  // ---------------------------------------------------------- batching

  /** A recorder's frames after `after`, up to `next`. */
  function Between(stream: seq<Packet>, after: nat, next: nat): (part: seq<Packet>)
    ensures forall p :: p in part <==> p in stream && after < p.sequence <= next
  {
    if stream == [] then []
    else
      var init, last := Between(stream[..|stream| - 1], after, next), stream[|stream| - 1];
      assert stream == stream[..|stream| - 1] + [last];
      if after < last.sequence <= next then init + [last] else init
  }

  lemma {:induction false} NothingBetween(stream: seq<Packet>, after: nat, next: nat)
    requires forall p :: p in stream ==> !(after < p.sequence <= next)
    ensures Between(stream, after, next) == []
  {
    if stream != [] {
      NothingBetween(stream[..|stream| - 1], after, next);
      assert stream[|stream| - 1] in stream;
    }
  }

  lemma {:induction false} BetweenConcat(stream: seq<Packet>, a: nat, b: nat, c: nat)
    requires Ascending(stream) && a <= b <= c
    ensures Between(stream, a, b) + Between(stream, b, c) == Between(stream, a, c)
  {
    if stream != [] {
      var init, last := stream[..|stream| - 1], stream[|stream| - 1];
      assert forall i :: 0 <= i < |init| ==> init[i] == stream[i];
      BetweenConcat(init, a, b, c);
      if last.sequence <= b {
        NothingBetween(init, b, c);
      }
    }
  }

  lemma {:induction false} FreshKeepsAll(packets: seq<Packet>, after: nat)
    requires forall p :: p in packets ==> p.sequence > after
    ensures Fresh(packets, after) == packets
  {
    if packets != [] {
      FreshKeepsAll(packets[..|packets| - 1], after);
      assert packets[|packets| - 1] in packets;
    }
  }

  /** Every read of the run returns the stream's frames after its cursor, up to a new one. */
  predicate Follows(run: seq<Event>, stream: seq<Packet>) {
    forall i :: 0 <= i < |run| ==> Batch(run[i], stream, After(run[..i]).next)
  }

  predicate Batch(e: Event, stream: seq<Packet>, after: nat) {
    e.Read? && after <= e.snapshot.next <= e.snapshot.latest && e.snapshot.packets == Between(stream, after,
        e.snapshot.next)
  }

  /** Batching does not show: however a stream was read up to a cursor, the desktop holds
      the last `KEEP` of its frames up to that cursor. */
  lemma {:induction false} BatchingIsInvisible(run: seq<Event>, stream: seq<Packet>)
    requires Ascending(stream) && Follows(run, stream)
    ensures After(run).packets == LastKept(Between(stream, 0, After(run).next))
  {
    if run == [] {
      NothingBetween(stream, 0, 0);
    } else {
      var before, last := run[..|run| - 1], run[|run| - 1];
      assert Follows(before, stream) by {
        forall i | 0 <= i < |before| ensures Batch(before[i], stream, After(before[..i]).next) {
          assert before[..i] == run[..i];
          assert Batch(run[i], stream, After(run[..i]).next);
        }
      }
      BatchingIsInvisible(before, stream);
      assert Batch(last, stream, After(before).next);
      BatchStep(After(before), last, stream);
    }
  }

  lemma BatchStep(held: Snapshot, e: Event, stream: seq<Packet>)
    requires Ascending(stream) && Batch(e, stream, held.next)
    requires held.packets == LastKept(Between(stream, 0, held.next))
    ensures Step(held, e).packets == LastKept(Between(stream, 0, Step(held, e).next))
  {
    hide Between, Fresh, LastKept, Ascending;
    var read := e.snapshot;
    FreshKeepsAll(read.packets, held.next);
    BetweenConcat(stream, 0, held.next, read.next);
    LastKeptAbsorbs(Between(stream, 0, held.next), read.packets);
  }
}
