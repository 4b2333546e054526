/** What a window shows, told from its history: the workspace of the last refresh that was
    accepted, locked since the last action, on the source last switched to. */
module DesktopHistory {
  import opened Wrappers
  import opened Sources
  import opened Desktop
  import Capture

  /** The last word from the manager: none yet, none since a refresh failed, or a workspace.
      The demo has its own data and hears nothing. */
  datatype Heard = Unheard | Lost | Sample | Heard(workspace: Workspace)

  /** The source, what was last heard from it, whether an action has come back since, whether
      one is under way, whether the organization workspace is open, the sandbox whose frames
      are held, and what brought them. */
  datatype Account = Account(
    source: Source, heard: Heard, locked: bool, acting: bool, organizing: bool,
    sandbox: Option<string>, capture: seq<Capture.Event>)

  // ---------------------------------------------------------- what counts, of an event

  /** A refresh that is not stale comes back. */
  predicate Answers(s: State, e: Event) {
    e.Refreshed? && e.ticket in Current(s)
  }

  /** An action comes back. */
  predicate Finishes(s: State, e: Event) {
    e.JobDone? && e.ticket in s.work.jobs
  }

  /** Packets come back to the capture that was read, at the frame it was read from. */
  predicate Brings(a: Account, s: State, e: Event) {
    && e.PacketsRead? && e.read.Some? && a.heard.Heard? && e.ticket in s.work.packetReads
    && var r := s.work.packetReads[e.ticket];
    r.generation == s.generation && a.sandbox == Some(r.sandbox) && Capture.After(a.capture).next == r.after
  }

  /** Another source is chosen while nothing is being done or filled in. */
  predicate Leaves(a: Account, e: Event) {
    e.SwitchSource? && !e.formOpen && !a.acting && !a.source.Demo?
  }

  /** The manager takes actions: it was heard from since the last one, it is an organization
      or shows a dashboard, and it is an organization or can be controlled. */
  predicate TakesActions(a: Account) {
    && a.heard.Heard? && !a.locked && !a.acting
    && (a.heard.workspace.organization.Some? || (a.heard.workspace.dashboard.Some? && a.heard.workspace.control))
  }

  /** An action is begun: one on the manager that was heard from, or on the client's own profiles. */
  predicate Begins(a: Account, e: Event) {
    && e.StartJob? && !a.source.Demo?
    && match e.intent
       case Manage(target) => TakesActions(a) && target == Some(Target(a.source, a.heard.workspace.profile))
       case EditProfiles(configured) => configured && !a.acting
  }

  // ---------------------------------------------------------- the account

  function Retold(a: Account, s: State, e: Event): Account {
    if Leaves(a, e) then Account(e.to, Unheard, false, false, false, None, [])
    else if Answers(s, e) then
      if e.workspace.None? then a.(heard := Lost, locked := false, capture := [])
      else a.(heard := Heard(e.workspace.value), locked := false, organizing := e.workspace.value.organization.Some?)
    else if Begins(a, e) then a.(acting := true)
    else if Finishes(s, e) then
      var a := a.(locked := true, acting := false);
      if !e.outcome.Loaded? then a
      else a.(sandbox := Some(e.outcome.sandbox), capture := a.capture + [Capture.Load(e.outcome.packets)])
    else if Brings(a, s, e) then a.(capture := a.capture + [Capture.Read(e.read.value)])
    else a
  }

  function Told(source: Source, demo: Capture.Snapshot, run: seq<Event>): Account {
    if run == [] then
      if source.Demo? then Account(Demo, Sample, false, false, false, Some("dev"), [Capture.Load(demo)])
      else Account(source, Unheard, false, false, false, None, [])
    else
      var before := run[..|run| - 1];
      Retold(Told(source, demo, before), After(source, demo, before), run[|run| - 1])
  }

  /** Each part of a workspace, in its place. */
  predicate ShowsWorkspace(shown: Shown, source: Source, w: Workspace, locked: bool) {
    && shown.connection == Connected
    && shown.inventory == Some(Piece(source, w.inventory))
    && shown.host.Some? == shown.dashboardAvailable == w.dashboard.Some?
    && (w.dashboard.Some? ==> shown.host == Some(Piece(source, w.dashboard.value)))
    && shown.organization.Some? == shown.orgMode == w.organization.Some?
    && (w.organization.Some? ==> shown.organization == Some(Piece(source, w.organization.value)))
    && shown.target == Some(Target(source, w.profile))
    && shown.controlAvailable == (!locked && (w.organization.Some? || w.control))
  }

  predicate ShowsNothing(shown: Shown) {
    && shown.inventory == None && shown.host == None && shown.organization == None && shown.target == None
    && !shown.dashboardAvailable && !shown.controlAvailable
  }

  /** The demo shows its own data, and asks for nothing. */
  predicate ShowsSample(s: State) {
    && s.shown.connection == DemoData && s.source == Demo
    && s.shown.inventory == s.shown.host == Some(Piece(Demo, "demo"))
    && s.shown.organization == None && s.shown.target == None
    && s.shown.dashboardAvailable && s.shown.controlAvailable
    && s.work.requests == map[] && s.work.jobs == map[] && s.work.packetReads == map[]
  }

  /** The window is as the account tells. */
  predicate Shows(s: State, a: Account) {
    && s.source == a.source && s.writing == a.acting && s.shown.orgMode == a.organizing
    && (a.acting ==> !a.source.Demo?)
    && s.packetSandbox == a.sandbox && s.packets == Capture.After(a.capture)
    && match a.heard
       case Unheard => s.shown.connection == Connecting && ShowsNothing(s.shown)
       case Lost => s.shown.connection == Offline && ShowsNothing(s.shown)
       case Sample => ShowsSample(s)
       case Heard(w) => ShowsWorkspace(s.shown, a.source, w, a.locked)
  }

  // ---------------------------------------------------------- each step

  /** What `fetch` leaves alone. */
  lemma FetchShows(s: State, a: Account)
    requires Shows(s, a)
    ensures Shows(Fetched(s), a)
  {
  }

  lemma RefreshShows(s: State, a: Account, e: Event)
    requires Inv(s) && Shows(s, a) && e.Refreshed?
    ensures Shows(Step(s, e), Retold(a, s, e))
  {
    if Answers(s, e) {
      AskedHere(s, e.ticket);
      hide Inv, Connect, Disconnect, Retold, Shows, Current;
      var left := s.(refreshing := false, work := s.work.(requests := s.work.requests - {e.ticket}));
      AnswerShows(s, left, a, e);
    } else {
      hide Inv;
      StaleShows(s, a, e);
    }
  }

  /** A stale refresh is forgotten. */
  lemma StaleShows(s: State, a: Account, e: Event)
    requires Shows(s, a) && e.Refreshed? && !Answers(s, e)
    ensures Shows(Step(s, e), a)
  {
    hide Connect, Disconnect, Capture.After, ShowsWorkspace, ShowsNothing;
  }

  lemma AskedHere(s: State, t: nat)
    requires Inv(s) && t in Current(s)
    ensures t in s.work.requests && s.work.requests[t] == Request(s.generation, s.source)
  {
  }

  /** The answer of the refresh in flight, taken out of the work. */
  lemma AnswerShows(s: State, left: State, a: Account, e: Event)
    requires Shows(s, a) && Answers(s, e)
    requires left == s.(refreshing := false, work := s.work.(requests := s.work.requests - {e.ticket}))
    ensures
      var next := if e.workspace.Some? then Connect(left, s.source, e.workspace.value) else Disconnect(left);
      Shows(next, Retold(a, s, e))
  {
    EmptyCapture();
    hide Capture.After;
  }

  lemma EmptyCapture()
    ensures Capture.After([]) == Capture.EMPTY
  {
  }

  lemma SwitchShows(s: State, a: Account, e: Event)
    requires Shows(s, a) && e.SwitchSource?
    ensures Shows(Step(s, e), Retold(a, s, e))
  {
    EmptyCapture();
    hide Capture.After;
    if Leaves(a, e) {
      FetchShows(Cleared(s, e.to), Account(e.to, Unheard, false, false, false, None, []));
    }
  }

  lemma InstallShows(s: State, a: Account, e: Event)
    requires Shows(s, a) && (e.Poll? || e.InstallCli? || e.Installed?)
    ensures Shows(Step(s, e), Retold(a, s, e))
  {
    hide Capture.After;
  }

  /** A manager action may start exactly when the account says it may. */
  lemma WritesExactly(s: State, a: Account)
    requires Shows(s, a)
    ensures CanWrite(s) <==> TakesActions(a) && !a.source.Demo?
  {
    hide Capture.After;
  }

  lemma JobStartShows(s: State, a: Account, e: Event)
    requires Shows(s, a) && e.StartJob?
    ensures Shows(Step(s, e), Retold(a, s, e))
    ensures MayStart(s, e.intent) <==> Begins(a, e)
  {
    WritesExactly(s, a);
    hide Capture.After, CanWrite;
  }

  lemma CaptureGrows(run: seq<Capture.Event>, e: Capture.Event)
    ensures Capture.After(run + [e]) == Capture.Step(Capture.After(run), e)
  {
    assert (run + [e])[..|run|] == run;
  }

  lemma JobShows(s: State, a: Account, e: Event)
    requires Inv(s) && Shows(s, a) && e.JobDone?
    ensures Shows(Step(s, e), Retold(a, s, e))
  {
    if Finishes(s, e) {
      JobWasAlone(s, e.ticket);
      hide Inv, Capture.After;
      if e.outcome.Loaded? {
        CaptureGrows(a.capture, Capture.Load(e.outcome.packets));
      }
      var left := s.(work := s.work.(jobs := s.work.jobs - {e.ticket}));
      FetchShows(Unlocked(left, e.outcome), Retold(a, s, e));
    }
  }

  lemma ReadStartShows(s: State, a: Account, shown: bool)
    requires Shows(s, a)
    ensures Shows(ReadStarted(s, shown), a)
  {
    hide Capture.After;
  }

  lemma ReadShows(s: State, a: Account, e: Event)
    requires Shows(s, a) && e.PacketsRead?
    ensures Shows(Step(s, e), Retold(a, s, e))
  {
    hide Capture.After, Capture.Merged;
    if e.ticket in s.work.packetReads {
      var left := s.(packetsReading := false, work := s.work.(packetReads := s.work.packetReads - {e.ticket}));
      if Brings(a, s, e) {
        CaptureGrows(a.capture, Capture.Read(e.read.value));
        var merged := left.(packets := Capture.Merged(s.packets, e.read.value, s.packets.next));
        ReadStartShows(merged, Retold(a, s, e), e.shown);
      }
    }
  }

  lemma StepShows(s: State, a: Account, e: Event)
    requires Inv(s) && Shows(s, a)
    ensures Shows(Step(s, e), Retold(a, s, e))
  {
    hide Inv, Shows, Step;
    match e
    case Poll => InstallShows(s, a, e);
    case Refreshed(_, _) => RefreshShows(s, a, e);
    case SwitchSource(_, _) => SwitchShows(s, a, e);
    case InstallCli(_) => InstallShows(s, a, e);
    case Installed(_, _) => InstallShows(s, a, e);
    case StartJob(_) => JobStartShows(s, a, e);
    case JobDone(_, _) => JobShows(s, a, e);
    case ReadPackets(shown) => ReadPacketsShows(s, a, shown);
    case PacketsRead(_, _, _) => ReadShows(s, a, e);
  }

  lemma ReadPacketsShows(s: State, a: Account, shown: bool)
    requires Shows(s, a)
    ensures Shows(Step(s, ReadPackets(shown)), Retold(a, s, ReadPackets(shown)))
  {
    hide Shows, ReadStarted;
    ReadStartShows(s, a, shown);
  }

  /** Over every run, under any interleaving: the window shows, part by part, the workspace of
      the last refresh accepted since it last switched source or lost the manager, and nothing
      otherwise; it may act on the manager exactly when that workspace allows it and no action
      has come back since; and it holds the frames its accepted reads and captures brought. */
  lemma {:induction false} ShownIsLastAnswer(source: Source, demo: Capture.Snapshot, run: seq<Event>)
    requires HonestRun(source, demo, run)
    ensures Shows(After(source, demo, run), Told(source, demo, run))
    ensures CanWrite(After(source, demo, run)) <==>
      TakesActions(Told(source, demo, run)) && !Told(source, demo, run).source.Demo?
  {
    hide Honest, Inv, Step, Retold;
    var s, a := After(source, demo, run), Told(source, demo, run);
    if run == [] {
      OpenShows(source, demo);
    } else {
      hide Shows;
      var n := |run| - 1;
      HonestPrefix(source, demo, run, n);
      EveryRunIsSafe(source, demo, run[..n]);
      ShownIsLastAnswer(source, demo, run[..n]);
      StepShows(After(source, demo, run[..n]), Told(source, demo, run[..n]), run[n]);
    }
    hide CanWrite, TakesActions;
    WritesExactly(s, a);
  }

  lemma OpenShows(source: Source, demo: Capture.Snapshot)
    ensures Shows(Opened(source, demo), Told(source, demo, []))
  {
    EmptyCapture();
    CaptureGrows([], Capture.Load(demo));
    assert [] + [Capture.Load(demo)] == [Capture.Load(demo)];
  }

  // ---------------------------------------------------------- held frames

  lemma {:induction false} CapturesArePromised(source: Source, demo: Capture.Snapshot, run: seq<Event>)
    requires HonestRun(source, demo, run)
    ensures Capture.Promised(Told(source, demo, run).capture)
  {
    hide Capture.Answered, FromOrigin, After;
    if run != [] {
      var n := |run| - 1;
      HonestPrefix(source, demo, run, n);
      CapturesArePromised(source, demo, run[..n]);
      assert Honest(After(source, demo, run[..n]), run[n]);
      RetoldIsPromised(Told(source, demo, run[..n]), After(source, demo, run[..n]), run[n]);
    }
  }

  lemma RetoldIsPromised(a: Account, s: State, e: Event)
    requires Capture.Promised(a.capture) && Honest(s, e)
    ensures Capture.Promised(Retold(a, s, e).capture)
  {
    hide Capture.Answered, FromOrigin, Capture.After, TakesActions;
  }

  /** Over every run: the frames held are the last `KEEP` of those that came back in time
      since the last switch, lost manager or restart, but for a capture command's answer,
      held whole until the next read. */
  lemma HeldFrames(source: Source, demo: Capture.Snapshot, run: seq<Event>)
    requires HonestRun(source, demo, run)
    ensures
      var capture := Told(source, demo, run).capture;
      After(source, demo, run).packets.packets ==
      if Capture.JustLoaded(capture) then Capture.Log(capture) else Capture.LastKept(Capture.Log(capture))
  {
    hide HonestRun, After, Told, Capture.After, Capture.Log, Capture.LastKept, Capture.JustLoaded, Capture.Promised;
    ShownIsLastAnswer(source, demo, run);
    CapturesArePromised(source, demo, run);
    Capture.HeldIsLastKept(Told(source, demo, run).capture);
  }
}
