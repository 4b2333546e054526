/** When the MCP proxy may release its connection (`cmd/gantry-guest/mcp.go`).

    Two goroutines share the tracker, one reading requests and one relaying
    responses; each lock-held section is one step. */
module RequestTracker {
  import opened Collections

  /** What a frame, or the end of the input, is to the tracker. A key is the canonical text
      of a JSON-RPC id. `Frame` is any frame of the gateway that carries one: a reply to
      the agent, or a request of the gateway's own. */
  datatype Event =
    | Request(key: string)
    | Notification
    | Untrackable
    | Frame(key: string, reply: bool)
    | Finish

  datatype State = State(pending: map<string, nat>, inputDone: bool, trackedIds: bool, untrackable: bool,
                         complete: bool)

  const INITIAL := State(map[], false, false, false, false)

  function Count(pending: map<string, nat>, key: string): nat {
    if key in pending then pending[key] else 0
  }

  predicate MayComplete(s: State) {
    s.inputDone && s.trackedIds && !s.untrackable && s.pending == map[]
  }

  function Checked(s: State): State {
    if MayComplete(s) then s.(complete := true) else s
  }

  function Step(s: State, e: Event): State {
    match e
    case Request(key) => s.(trackedIds := true, pending := s.pending[key := Count(s.pending, key) + 1])
    case Notification => s
    case Untrackable => s.(untrackable := true)
    case Frame(key, _) =>
      var count := Count(s.pending, key);
      Checked(s.(pending :=
        if count > 1 then s.pending[key := count - 1]
        else if count == 1 then s.pending - {key} else s.pending))
    case Finish => Checked(s.(inputDone := true))
  }

  function Run(events: seq<Event>): State {
    if events == [] then INITIAL else Step(Run(events[..|events| - 1]), events[|events| - 1])
  }

  predicate FromInput(e: Event) {
    e.Request? || e.Notification? || e.Untrackable?
  }

  /** The order within the reading goroutine: it observes nothing after the end
      of its input. Responses may come at any time. */
  predicate Legal(events: seq<Event>) {
    forall i, j :: 0 <= i < j < |events| && events[i].Finish? ==> !FromInput(events[j])
  }

  // ---------------------------------------------------------- every interleaving

  predicate Positive(s: State) {
    forall k :: k in s.pending ==> s.pending[k] >= 1
  }

  /** The channel is closed exactly when it may be, in every reachable state. */
  lemma {:induction false} CompleteExactly(events: seq<Event>)
    requires Legal(events)
    ensures Positive(Run(events))
    ensures Run(events).inputDone <==> exists i :: 0 <= i < |events| && events[i].Finish?
    ensures Run(events).complete <==> MayComplete(Run(events))
  {
    if events != [] {
      var init, last := events[..|events| - 1], events[|events| - 1];
      assert Legal(init) by {
        assert forall i :: 0 <= i < |init| ==> init[i] == events[i];
      }
      CompleteExactly(init);
      if Run(init).inputDone {
        var i :| 0 <= i < |init| && init[i].Finish?;
        assert events[i].Finish?;
      }
      if exists i :: 0 <= i < |events| && events[i].Finish? {
        var i :| 0 <= i < |events| && events[i].Finish?;
        assert i < |init| ==> init[i].Finish?;
      }
    }
  }

  // ---------------------------------------------------------- matching

  /** A frame that counts for a key: any that carries it, or, strictly, a reply. */
  predicate Counts(e: Event, key: string, strict: bool) {
    e.Frame? && e.key == key && (strict ==> e.reply)
  }

  function Weight(e: Event, key: string, strict: bool): int {
    if e == Request(key) then 1 else if Counts(e, key, strict) then -1 else 0
  }

  /** Requests under a key less the frames that count for it. */
  function Balance(events: seq<Event>, key: string, strict: bool): int {
    if events == [] then 0 else Weight(events[0], key, strict) + Balance(events[1..], key, strict)
  }

  lemma {:induction false} BalanceGrows(events: seq<Event>, e: Event, key: string, strict: bool)
    ensures Balance(events + [e], key, strict) == Balance(events, key, strict) + Weight(e, key, strict)
  {
    if events == [] {
      assert events + [e] == [e] && [e][1..] == [];
    } else {
      BalanceGrows(events[1..], e, key, strict);
      assert (events + [e])[1..] == events[1..] + [e];
    }
  }

  lemma BalanceOfNothing(key: string, strict: bool)
    ensures Balance([], key, strict) == 0
  {
  }

  /** No request of the gateway's own carries the key while it is pending. */
  predicate Undisturbed(events: seq<Event>, key: string) {
    forall i :: 0 <= i < |events| && events[i] == Frame(key, false) ==> Count(Run(events[..i]).pending, key) == 0
  }

  lemma UndisturbedBefore(events: seq<Event>, key: string)
    requires events != [] && Undisturbed(events, key)
    ensures Undisturbed(events[..|events| - 1], key)
  {
    var init := events[..|events| - 1];
    hide Run;
    forall i | 0 <= i < |init| && init[i] == Frame(key, false) ensures Count(Run(init[..i]).pending, key) == 0 {
      assert init[..i] == events[..i] && events[i] == init[i];
    }
  }

  lemma CountStep(s: State, e: Event, key: string, strict: bool)
    requires strict && e == Frame(key, false) ==> Count(s.pending, key) == 0
    ensures var n := Count(s.pending, key) + Weight(e, key, strict);
      Count(Step(s, e).pending, key) == if n < 0 then 0 else n
  {
  }

  /** A pending count is the largest balance of any ending of the history. */
  lemma {:induction false} PendingIsLargestBalance(events: seq<Event>, key: string, strict: bool)
    requires strict ==> Undisturbed(events, key)
    ensures forall i :: 0 <= i <= |events| ==> Balance(events[i..], key, strict) <= Count(Run(events).pending, key)
    ensures exists i :: 0 <= i <= |events| && Balance(events[i..], key, strict) == Count(Run(events).pending, key)
  {
    if events == [] {
      assert Balance(events[0..], key, strict) == 0;
    } else {
      var init, e := events[..|events| - 1], events[|events| - 1];
      if strict {
        UndisturbedBefore(events, key);
      }
      PendingIsLargestBalance(init, key, strict);
      var before, now := Count(Run(init).pending, key), Count(Run(events).pending, key);
      var d := Weight(e, key, strict);
      CountStep(Run(init), e, key, strict);
      assert now == if before + d < 0 then 0 else before + d;
      hide Run, Undisturbed, Weight, Balance, Count;
      forall i | 0 <= i < |events| ensures Balance(events[i..], key, strict) == Balance(init[i..], key, strict) + d {
        assert events[i..] == init[i..] + [e];
        BalanceGrows(init[i..], e, key, strict);
      }
      BalanceOfNothing(key, strict);
      assert events[|events|..] == [];
      if before + d < 0 {
        assert Balance(events[|events|..], key, strict) == now;
      } else {
        var i :| 0 <= i <= |init| && Balance(init[i..], key, strict) == before;
        assert Balance(events[i..], key, strict) == now;
      }
    }
  }

  /** The input has ended, some request had an id, every input frame was understood, and in
      every ending of the history each id has at least as many frames as requests. */
  ghost predicate Releases(events: seq<Event>) {
    && Finish in events && Untrackable !in events && (exists k :: Request(k) in events)
    && forall k, i :: 0 <= i <= |events| ==> Balance(events[i..], k, false) <= 0
  }

  /** The tracker releases the connection exactly then, under every interleaving. */
  lemma ReleasedExactly(events: seq<Event>)
    requires Legal(events)
    ensures Run(events).complete <==> Releases(events)
  {
    CompleteExactly(events);
    FlagsRecord(events);
    var s := Run(events);
    hide Run;
    if s.pending == map[] {
      forall k, i | 0 <= i <= |events| ensures Balance(events[i..], k, false) <= 0 {
        PendingIsLargestBalance(events, k, false);
      }
    } else {
      var k :| k in s.pending;
      PendingIsLargestBalance(events, k, false);
      var i :| 0 <= i <= |events| && Balance(events[i..], k, false) == Count(s.pending, k);
      assert Balance(events[i..], k, false) > 0;
    }
  }

  lemma {:induction false} FlagsRecord(events: seq<Event>)
    ensures Run(events).inputDone <==> Finish in events
    ensures Run(events).untrackable <==> Untrackable in events
    ensures Run(events).trackedIds <==> exists k :: Request(k) in events
  {
    if events != [] {
      var init, e := events[..|events| - 1], events[|events| - 1];
      FlagsRecord(init);
      assert events == init + [e];
      if e.Request? {
        assert Request(e.key) in events;
      }
    }
  }

  // ---------------------------------------------------------- one frame each

  predicate Answers(events: seq<Event>, key: string, r: nat, a: nat, strict: bool) {
    r < a < |events| && events[r] == Request(key) && Counts(events[a], key, strict)
  }

  /** Every request from position `i` on has a frame of its own after it. */
  ghost predicate Answered(events: seq<Event>, key: string, i: nat, m: map<nat, nat>, strict: bool) {
    && (forall r :: r in m ==> i <= r && Answers(events, key, r, m[r], strict))
    && (forall r, r' :: r in m && r' in m && r != r' ==> m[r] != m[r'])
    && (forall r :: i <= r < |events| && events[r] == Request(key) ==> r in m)
  }

  /** Frames from position `i` on that no request of `m` has taken. */
  ghost predicate Free(events: seq<Event>, key: string, i: nat, m: map<nat, nat>, free: set<nat>, strict: bool) {
    forall a :: a in free ==> i <= a < |events| && Counts(events[a], key, strict) && forall r :: r in m ==> m[r] != a
  }

  lemma TakeFrame(events: seq<Event>, key: string, i: nat, m: map<nat, nat>, free: set<nat>, a: nat, strict: bool)
    requires i < |events| && events[i] == Request(key) && a in free
    requires Answered(events, key, i + 1, m, strict) && Free(events, key, i + 1, m, free, strict)
    ensures Answered(events, key, i, m[i := a], strict) && Free(events, key, i, m[i := a], free - {a}, strict)
  {
    assert i !in m;
    assert Answers(events, key, i, a, strict);
  }

  lemma {:induction false} EachRequestAnswered(events: seq<Event>, key: string, i: nat, strict: bool)
    returns (m: map<nat, nat>, free: set<nat>)
    requires i <= |events| && forall j :: i <= j <= |events| ==> Balance(events[j..], key, strict) <= 0
    ensures Answered(events, key, i, m, strict) && Free(events, key, i, m, free, strict)
    ensures |free| == -Balance(events[i..], key, strict)
    decreases |events| - i
  {
    if i == |events| {
      m, free := map[], {};
    } else {
      m, free := EachRequestAnswered(events, key, i + 1, strict);
      assert events[i..][1..] == events[i + 1..];
      assert Balance(events[i..], key, strict) <= 0;
      if events[i] == Request(key) {
        assert |free| > 0;
        var a :| a in free;
        TakeFrame(events, key, i, m, free, a, strict);
        m, free := m[i := a], free - {a};
      } else if Counts(events[i], key, strict) {
        assert i !in free;
        free := free + {i};
      }
    }
  }

  function Requests(events: seq<Event>, key: string, i: nat): set<nat> {
    set r: nat | i <= r < |events| && events[r] == Request(key)
  }

  function Frames(events: seq<Event>, key: string, i: nat, strict: bool): set<nat> {
    set a: nat | i <= a < |events| && Counts(events[a], key, strict)
  }

  lemma RequestsStep(events: seq<Event>, key: string, i: nat)
    requires i < |events|
    ensures |Requests(events, key, i)| == |Requests(events, key, i + 1)| + if events[i] == Request(key) then 1 else 0
  {
    var rest := Requests(events, key, i + 1);
    assert i !in rest;
    assert Requests(events, key, i) == rest + if events[i] == Request(key) then {i} else {};
  }

  lemma FramesStep(events: seq<Event>, key: string, i: nat, strict: bool)
    requires i < |events|
    ensures |Frames(events, key, i, strict)| ==
      |Frames(events, key, i + 1, strict)| + if Counts(events[i], key, strict) then 1 else 0
  {
    hide Counts;
    var rest := Frames(events, key, i + 1, strict);
    assert i !in rest;
    assert Frames(events, key, i, strict) == rest + if Counts(events[i], key, strict) then {i} else {};
  }

  lemma {:induction false} BalanceCounts(events: seq<Event>, key: string, i: nat, strict: bool)
    requires i <= |events|
    ensures Balance(events[i..], key, strict) == |Requests(events, key, i)| - |Frames(events, key, i, strict)|
    decreases |events| - i
  {
    if i < |events| {
      BalanceCounts(events, key, i + 1, strict);
      RequestsStep(events, key, i);
      FramesStep(events, key, i, strict);
      hide Requests, Frames;
      assert events[i..][1..] == events[i + 1..];
    }
  }

  lemma {:induction false} ImageSize(m: map<nat, nat>, part: set<nat>)
    requires part <= m.Keys && forall r, r' :: r in m && r' in m && r != r' ==> m[r] != m[r']
    ensures |set r | r in part :: m[r]| == |part|
  {
    if part != {} {
      var r := Member(part);
      ImageSize(m, part - {r});
      assert (set x | x in part :: m[x]) == (set x | x in part - {r} :: m[x]) + {m[r]};
    }
  }

  /** Requests can each have a frame of their own, after them, exactly when in every ending
      of the history there are at least as many frames as requests. */
  lemma AnsweredExactly(events: seq<Event>, key: string, strict: bool)
    ensures (exists m :: Answered(events, key, 0, m, strict)) <==>
      forall i :: 0 <= i <= |events| ==> Balance(events[i..], key, strict) <= 0
  {
    if forall i :: 0 <= i <= |events| ==> Balance(events[i..], key, strict) <= 0 {
      var m, free := EachRequestAnswered(events, key, 0, strict);
    }
    if exists m :: Answered(events, key, 0, m, strict) {
      var m :| Answered(events, key, 0, m, strict);
      forall i | 0 <= i <= |events| ensures Balance(events[i..], key, strict) <= 0 {
        AnsweredEnding(events, key, i, m, strict);
      }
    }
  }

  lemma AnsweredEnding(events: seq<Event>, key: string, i: nat, m: map<nat, nat>, strict: bool)
    requires i <= |events| && Answered(events, key, 0, m, strict)
    ensures Balance(events[i..], key, strict) <= 0
  {
    var part := Requests(events, key, i);
    ImageSize(m, part);
    SmallerSubset(set r | r in part :: m[r], Frames(events, key, i, strict));
    BalanceCounts(events, key, i, strict);
  }

  /** Once released, every request has been met by a frame of its own that came after it,
      under each id. */
  lemma ReleasedMeansMatched(events: seq<Event>, key: string) returns (m: map<nat, nat>)
    requires Legal(events) && Run(events).complete
    ensures Answered(events, key, 0, m, false)
  {
    ReleasedExactly(events);
    hide Run;
    var free;
    m, free := EachRequestAnswered(events, key, 0, false);
  }

  /** It has been answered by a reply of its own, if no request of the gateway's carried the
      id while it was pending. */
  lemma ReleasedMeansAnswered(events: seq<Event>, key: string) returns (m: map<nat, nat>)
    requires Legal(events) && Run(events).complete && Undisturbed(events, key)
    ensures Answered(events, key, 0, m, true)
  {
    CompleteExactly(events);
    PendingIsLargestBalance(events, key, true);
    hide Run;
    var free;
    m, free := EachRequestAnswered(events, key, 0, true);
  }

  /** Otherwise it need not be: the gateway's own request releases the connection. */
  lemma GatewayRequestReleases()
    ensures
      var events := [Request("1"), Finish, Frame("1", false)];
      Legal(events) && Run(events).complete && forall m :: !Answered(events, "1", 0, m, true)
  {
    var events := [Request("1"), Finish, Frame("1", false)];
    assert events[..2] == [Request("1"), Finish] && events[..2][..1] == [Request("1")] && events[..1][..0] == [];
    assert Run(events[..1]) == Step(INITIAL, Request("1"));
    assert Run(events[..2]) == Step(Run(events[..1]), Finish);
    assert Run(events) == Step(Run(events[..2]), Frame("1", false));
    assert Run(events).pending == map[];
    assert events[0] == Request("1");
    assert forall a :: 0 <= a < |events| ==> !Counts(events[a], "1", true);
  }

  // ---------------------------------------------------------- the tracker

  class Tracker {
    var pending: map<string, nat>
    var inputDone: bool
    var trackedIds: bool
    var untrackable: bool
    var complete: bool
    /** Everything observed, in the order the lock was taken. */
    ghost var history: seq<Event>

    function View(): State
      reads this
    {
      State(pending, inputDone, trackedIds, untrackable, complete)
    }

    ghost predicate Valid()
      reads this
    {
      View() == Run(history) && Legal(history)
    }

    constructor ()
      ensures Valid() && history == []
    {
      pending, inputDone, trackedIds, untrackable, complete := map[], false, false, false, false;
      history := [];
    }

    /** `observeRequest`, called until the input ends. */
    method ObserveRequest(e: Event)
      requires Valid() && FromInput(e) && !inputDone
      modifies this
      ensures Valid() && history == old(history) + [e] && inputDone == old(inputDone)
      ensures complete <==> Releases(history)
    {
      hide Run, Legal, Releases;
      match e {
        case Untrackable => untrackable := true;
        case Notification =>
        case Request(key) =>
          trackedIds := true;
          pending := pending[key := Count(pending, key) + 1];
      }
      Observed(history, e);
      history := history + [e];
    }

    /** `observeResponse`, at any time. */
    method ObserveResponse(key: string, reply: bool)
      requires Valid()
      modifies this
      ensures Valid() && history == old(history) + [Frame(key, reply)] && inputDone == old(inputDone)
      ensures complete <==> Releases(history)
    {
      hide Run, Legal, Releases;
      var count := Count(pending, key);
      if count > 1 {
        pending := pending[key := count - 1];
      } else if count == 1 {
        pending := pending - {key};
      }
      CheckComplete();
      Observed(history, Frame(key, reply));
      history := history + [Frame(key, reply)];
    }

    /** `finishInput`. */
    method FinishInput()
      requires Valid()
      modifies this
      ensures Valid() && history == old(history) + [Finish] && inputDone
      ensures complete <==> Releases(history)
    {
      hide Run, Legal, Releases;
      inputDone := true;
      CheckComplete();
      Observed(history, Finish);
      history := history + [Finish];
    }

    method CheckComplete()
      modifies this`complete
      ensures View() == Checked(old(View()))
    {
      if inputDone && trackedIds && !untrackable && |pending| == 0 {
        complete := true;
      }
    }
  }

  lemma Observed(events: seq<Event>, e: Event)
    requires Legal(events) && (FromInput(e) ==> !Run(events).inputDone)
    ensures Legal(events + [e]) && Run(events + [e]) == Step(Run(events), e)
    ensures Run(events + [e]).complete <==> Releases(events + [e])
  {
    FlagsRecord(events);
    assert (events + [e])[..|events|] == events;
    hide Run, Step;
    assert Legal(events + [e]) by {
      if FromInput(e) {
        assert forall i :: 0 <= i < |events| ==> !events[i].Finish?;
      }
    }
    ReleasedExactly(events + [e]);
  }
}
