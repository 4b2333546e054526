/** One desktop window and the work it has in flight, after `desktop/src/app.rs`,
    `desktop/src/cli_install.rs`, `desktop/src/ui_forms.rs` and
    `desktop/src/packets_view.rs`. Refreshes, actions, installs and packet reads run in
    the background and come back in any order; a generation number tells stale work from
    current work. Each piece of work in flight has a ticket, and an answer is an event
    that names one. */
module Desktop {
  import opened Wrappers
  import opened Sources
  import opened Capture

  datatype Connection = Connecting | Connected | Offline | DemoData

  datatype Target = Target(source: Source, profile: string)

  /** Something shown, and the source it was read from. */
  datatype Piece = Piece(source: Source, text: string)

  /** Work in flight: a refresh or an action, and a packet read. `source` is that of the
      connector the work was handed. */
  datatype Request = Request(generation: nat, source: Source)
  datatype PacketRead = PacketRead(generation: nat, source: Source, sandbox: string, after: nat)

  /** What a refresh reads. */
  datatype Workspace = Workspace(inventory: string, dashboard: Option<string>, organization: Option<string>,
                                 control: bool, profile: string)

  datatype Outcome = Done | Loaded(sandbox: string, packets: Snapshot) | Failed

  /** An action on the manager behind a target, or on client-local profiles. */
  datatype Intent = Manage(target: Option<Target>) | EditProfiles(configured: bool)

  /** What the window shows of its connection. */
  datatype Shown = Shown(connection: Connection, inventory: Option<Piece>, host: Option<Piece>,
                         organization: Option<Piece>, orgMode: bool, target: Option<Target>,
                         dashboardAvailable: bool, controlAvailable: bool)

  /** Work in flight, by ticket, and the next ticket. */
  datatype Work = Work(requests: map<nat, Request>, jobs: map<nat, Request>, installs: map<nat, nat>,
                       packetReads: map<nat, PacketRead>, tickets: nat)

  datatype State = State(
    source: Source, generation: nat,
    refreshing: bool, writing: bool, installing: bool, packetsReading: bool,
    shown: Shown, packets: Snapshot, packetSandbox: Option<string>, work: Work)

  const NOTHING := Shown(Connecting, None, None, None, false, None, false, false)

  /** The same work, and one piece more. */
  function Asking(w: Work, r: Request): Work {
    w.(requests := w.requests[w.tickets := r], tickets := w.tickets + 1)
  }

  function Acting(w: Work, r: Request): Work {
    w.(jobs := w.jobs[w.tickets := r], tickets := w.tickets + 1)
  }

  function Installing(w: Work, generation: nat): Work {
    w.(installs := w.installs[w.tickets := generation], tickets := w.tickets + 1)
  }

  function Reading(w: Work, r: PacketRead): Work {
    w.(packetReads := w.packetReads[w.tickets := r], tickets := w.tickets + 1)
  }

  datatype Event =
    | Poll
    | Refreshed(ticket: nat, workspace: Option<Workspace>)
    | SwitchSource(to: Source, formOpen: bool)
    | InstallCli(offered: bool)
    | Installed(ticket: nat, ok: bool)
    | StartJob(intent: Intent)
    | JobDone(ticket: nat, outcome: Outcome)
    | ReadPackets(shown: bool)
    | PacketsRead(ticket: nat, read: Option<Snapshot>, shown: bool)

  // ---------------------------------------------------------- the steps, on values

  /** `fetch`. */
  function Fetched(s: State): State {
    if s.source.Demo? || s.refreshing || s.writing then s
    else s.(refreshing := true, work := Asking(s.work, Request(s.generation, s.source)))
  }

  function PieceOf(source: Source, text: Option<string>): Option<Piece> {
    if text.Some? then Some(Piece(source, text.value)) else None
  }

  /** A refresh comes back; a stale one is only forgotten. */
  function AfterRefresh(s: State, t: nat, answer: Option<Workspace>): State {
    if t !in s.work.requests then s
    else
      var r := s.work.requests[t];
      var s := s.(work := s.work.(requests := s.work.requests - {t}));
      if r.generation != s.generation then s
      else if answer.Some? then Connect(s.(refreshing := false), r.source, answer.value)
      else Disconnect(s.(refreshing := false))
  }

  function Connect(s: State, source: Source, w: Workspace): State {
    s.(shown := ShownOf(source, w))
  }

  function ShownOf(source: Source, w: Workspace): Shown {
    Shown(Connected, Some(Piece(source, w.inventory)), PieceOf(source, w.dashboard),
          PieceOf(source, w.organization), w.organization.Some?, Some(Target(source, w.profile)),
          w.dashboard.Some?, w.organization.Some? || w.control)
  }

  function Disconnect(s: State): State {
    s.(shown := NOTHING.(connection := Offline, orgMode := s.shown.orgMode), packets := EMPTY)
  }

  /** `switch_source`. */
  function Switched(s: State, to: Source, formOpen: bool): State {
    if s.writing || formOpen || s.source.Demo? then s else Fetched(Cleared(s, to))
  }

  /** A new generation on another source, with nothing shown. */
  function Cleared(s: State, to: Source): State {
    s.(generation := s.generation + 1, refreshing := false, source := to, shown := NOTHING,
       packets := EMPTY, packetSandbox := None)
  }

  /** `install_cli` and its completion. */
  function InstallStarted(s: State, offered: bool): State {
    if s.installing || s.writing || !offered then s
    else s.(installing := true, generation := s.generation + 1, refreshing := false,
            work := Installing(s.work, s.generation + 1))
  }

  function AfterInstall(s: State, t: nat, ok: bool): State {
    if t !in s.work.installs then s
    else
      var generation := s.work.installs[t];
      var s := s.(installing := false, work := s.work.(installs := s.work.installs - {t}));
      if ok && s.generation == generation then Fetched(s) else s
  }

  /** `can_write`. */
  predicate CanWrite(s: State) {
    && !s.source.Demo?
    && s.shown.connection.Connected?
    && (s.shown.dashboardAvailable || (s.shown.orgMode && s.shown.organization.Some?))
    && s.shown.controlAvailable
    && s.shown.target.Some? && s.shown.target.value.source == s.source
    && !s.writing
  }

  predicate MayStart(s: State, intent: Intent) {
    match intent
    case Manage(target) => CanWrite(s) && target == s.shown.target
    case EditProfiles(configured) => !s.source.Demo? && configured && !s.writing
  }

  /** `start_job` and its completion. */
  function JobStarted(s: State, intent: Intent): State {
    if !MayStart(s, intent) then s
    else s.(writing := true, refreshing := false, generation := s.generation + 1,
            work := Acting(s.work, Request(s.generation + 1, s.source)))
  }

  function AfterJob(s: State, t: nat, outcome: Outcome): State {
    if t !in s.work.jobs then s
    else
      var generation := s.work.jobs[t].generation;
      var s := s.(work := s.work.(jobs := s.work.jobs - {t}));
      if generation != s.generation then s else Fetched(Unlocked(s, outcome))
  }

  /** The write is over; a capture command's answer replaces the held frames. */
  function Unlocked(s: State, outcome: Outcome): State {
    var s := s.(writing := false, shown := s.shown.(controlAvailable := false));
    if outcome.Loaded? then s.(packetSandbox := Some(outcome.sandbox), packets := outcome.packets) else s
  }

  /** `read_packets` and its completion. */
  function ReadStarted(s: State, shown: bool): State {
    if || s.packetSandbox.None? || s.shown.target.None? || !shown || !s.packets.active || s.packetsReading || s.writing
       || !s.shown.connection.Connected? || s.shown.target.value.source != s.source
    then s
    else s.(packetsReading := true,
            work := Reading(s.work, PacketRead(s.generation, s.source, s.packetSandbox.value, s.packets.next)))
  }

  function AfterRead(s: State, t: nat, read: Option<Snapshot>, shown: bool): State {
    if t !in s.work.packetReads then s
    else
      var r := s.work.packetReads[t];
      var s := s.(packetsReading := false, work := s.work.(packetReads := s.work.packetReads - {t}));
      if || s.generation != r.generation || s.packetSandbox != Some(r.sandbox) || s.packets.next != r.after
         || !s.shown.connection.Connected? || read.None?
      then s
      else
        var s := s.(packets := Merged(s.packets, read.value, r.after));
        if Behind(s.packets) then ReadStarted(s, shown) else s
  }

  function Step(s: State, e: Event): State {
    match e
    case Poll => Fetched(s)
    case Refreshed(t, workspace) => AfterRefresh(s, t, workspace)
    case SwitchSource(to, formOpen) => Switched(s, to, formOpen)
    case InstallCli(offered) => InstallStarted(s, offered)
    case Installed(t, ok) => AfterInstall(s, t, ok)
    case StartJob(intent) => JobStarted(s, intent)
    case JobDone(t, outcome) => AfterJob(s, t, outcome)
    case ReadPackets(shown) => ReadStarted(s, shown)
    case PacketsRead(t, read, shown) => AfterRead(s, t, read, shown)
  }

  /** A window opened on a source: the demo shows its own data, the others fetch. */
  function Opened(source: Source, demo: Snapshot): State {
    if source.Demo? then
      var shown := Shown(DemoData, Some(Piece(Demo, "demo")), Some(Piece(Demo, "demo")), None, false, None, true, true);
      Blank(source).(shown := shown, packets := demo, packetSandbox := Some("dev"))
    else Fetched(Blank(source))
  }

  function Blank(source: Source): State {
    State(source, 0, false, false, false, false, NOTHING, EMPTY, None, Work(map[], map[], map[], map[], 0))
  }

  function After(source: Source, demo: Snapshot, run: seq<Event>): State {
    if run == [] then Opened(source, demo) else Step(After(source, demo, run[..|run| - 1]), run[|run| - 1])
  }

  // ---------------------------------------------------------- the invariant

  /** The refreshes in flight that are not stale. */
  function Current(s: State): set<nat> {
    set t | t in s.work.requests && s.work.requests[t].generation == s.generation
  }

  /** Exactly one ticket when the flag is set, none otherwise. */
  predicate Exactly(tickets: set<nat>, flag: bool) {
    |tickets| == (if flag then 1 else 0)
  }

  predicate ShownFromSource(s: State) {
    && (s.shown.inventory.Some? ==> s.shown.inventory.value.source == s.source)
    && (s.shown.host.Some? ==> s.shown.host.value.source == s.source)
    && (s.shown.organization.Some? ==> s.shown.organization.value.source == s.source && s.shown.orgMode)
    && (s.shown.target.Some? ==> s.shown.target.value.source == s.source)
  }

  /** Frames from one sandbox of one manager. */
  predicate FromOrigin(packets: seq<Packet>, origin: Origin) {
    forall i :: 0 <= i < |packets| ==> packets[i].origin == origin
  }

  predicate PacketsFromSource(s: State) {
    s.packets.packets != [] ==>
      s.packetSandbox.Some? && FromOrigin(s.packets.packets, Origin(s.source, s.packetSandbox.value))
  }

  /** A current refresh, action or read was handed the selected source. */
  predicate WorkFromSource(s: State) {
    && (forall t :: t in s.work.requests ==>
          FromHere(s, s.work.requests[t].generation, s.work.requests[t].source) && t < s.work.tickets)
    && (forall t :: t in s.work.packetReads ==>
          FromHere(s, s.work.packetReads[t].generation, s.work.packetReads[t].source))
    && (forall t :: t in s.work.jobs ==> s.work.jobs[t] == Request(s.generation, s.source))
  }

  predicate FromHere(s: State, generation: nat, source: Source) {
    generation <= s.generation && (generation == s.generation ==> source == s.source)
  }

  predicate FlagsMatchWork(s: State) {
    && Exactly(Current(s), s.refreshing)
    && Exactly(s.work.jobs.Keys, s.writing)
    && Exactly(s.work.installs.Keys, s.installing)
    && Exactly(s.work.packetReads.Keys, s.packetsReading)
    && !(s.writing && s.refreshing)
  }

  predicate Inv(s: State) {
    FlagsMatchWork(s) && WorkFromSource(s) && ShownFromSource(s) && PacketsFromSource(s) && Answered(s.packets)
  }

  /** What the environment promises: packet answers come from the sandbox asked, in order. */
  predicate Honest(s: State, e: Event) {
    match e
    case JobDone(t, Loaded(sandbox, packets)) =>
      t in s.work.jobs ==> Answered(packets) && FromOrigin(packets.packets, Origin(s.work.jobs[t].source, sandbox))
    case PacketsRead(t, Some(read), _) =>
      t in s.work.packetReads ==>
        var r := s.work.packetReads[t];
        Answered(read) && FromOrigin(read.packets, Origin(r.source, r.sandbox))
    case _ => true
  }

  predicate HonestRun(source: Source, demo: Snapshot, run: seq<Event>) {
    && Answered(demo) && FromOrigin(demo.packets, Origin(Demo, "dev"))
    && forall i :: 0 <= i < |run| ==> Honest(After(source, demo, run[..i]), run[i])
  }

  // ---------------------------------------------------------- tickets

  lemma OneTicket(tickets: set<nat>, t: nat)
    requires t in tickets && Exactly(tickets, true)
    ensures tickets == {t}
  {
    assert |tickets - {t}| == 0;
  }

  lemma NewTicket(tickets: set<nat>, t: nat)
    requires Exactly(tickets, false)
    ensures Exactly(tickets + {t}, true)
  {
    assert tickets + {t} == {t};
  }

  lemma SpentTicket(tickets: set<nat>, t: nat, flag: bool)
    requires t in tickets && Exactly(tickets, flag)
    ensures flag && Exactly(tickets - {t}, false)
  {
    assert |tickets| > 0;
    OneTicket(tickets, t);
  }

  // ---------------------------------------------------------- each step keeps it

  lemma FetchKeeps(s: State)
    requires Inv(s)
    ensures Inv(Fetched(s))
  {
    var next := Fetched(s);
    if next != s {
      NewTicket(Current(s), s.work.tickets);
      assert Current(next) == Current(s) + {s.work.tickets};
    }
  }

  lemma RefreshKeeps(s: State, t: nat, answer: Option<Workspace>)
    requires Inv(s)
    ensures Inv(AfterRefresh(s, t, answer))
  {
    hide Answered, FromOrigin, Exactly, Current, Connect, Disconnect;
    if t in s.work.requests {
      var next := s.(work := s.work.(requests := s.work.requests - {t}));
      if s.work.requests[t].generation != s.generation {
        RefreshFlags(s, t, next);
      } else {
        var idle := next.(refreshing := false);
        RefreshFlags(s, t, idle);
        assert Inv(idle);
        if answer.Some? {
          ConnectKeeps(idle, s.source, answer.value);
        } else {
          DisconnectKeeps(idle);
        }
      }
    }
  }

  lemma ConnectKeeps(s: State, source: Source, w: Workspace)
    requires Inv(s) && source == s.source
    ensures Inv(Connect(s, source, w))
  {
    hide Answered, FromOrigin, Exactly;
    assert Current(Connect(s, source, w)) == Current(s);
  }

  lemma DisconnectKeeps(s: State)
    requires Inv(s)
    ensures Inv(Disconnect(s))
  {
    hide Answered, FromOrigin, Exactly;
    EmptyInOrder();
    assert Current(Disconnect(s)) == Current(s);
  }

  lemma RefreshFlags(s: State, t: nat, next: State)
    requires Inv(s) && t in s.work.requests
    requires next.work.requests == s.work.requests - {t} && next.generation == s.generation
    requires next.refreshing == if s.work.requests[t].generation == s.generation then false else s.refreshing
    ensures Exactly(Current(next), next.refreshing)
  {
    if s.work.requests[t].generation == s.generation {
      SpentTicket(Current(s), t, s.refreshing);
      assert Current(next) == Current(s) - {t};
    } else {
      assert Current(next) == Current(s);
    }
  }

  lemma EmptyInOrder()
    ensures Answered(EMPTY)
  {
  }

  /** Work of an earlier generation is never current. */
  lemma NewGeneration(s: State, next: State)
    requires WorkFromSource(s) && next.work.requests == s.work.requests && next.generation == s.generation + 1
    ensures Exactly(Current(next), false)
  {
    assert Current(next) == {};
  }

  lemma NoTickets<T>(work: map<nat, T>)
    requires Exactly(work.Keys, false)
    ensures forall t :: t !in work
  {
    assert work.Keys == {};
  }

  lemma SwitchKeeps(s: State, to: Source, formOpen: bool)
    requires Inv(s)
    ensures Inv(Switched(s, to, formOpen))
  {
    hide Ascending, UpTo, FromOrigin;
    if !(s.writing || formOpen || s.source.Demo?) {
      var next := Cleared(s, to);
      NewGeneration(s, next);
      NoTickets(s.work.jobs);
      EmptyInOrder();
      FetchKeeps(next);
    }
  }

  lemma InstallStartKeeps(s: State, offered: bool)
    requires Inv(s)
    ensures Inv(InstallStarted(s, offered))
  {
    hide Answered, FromOrigin;
    var next := InstallStarted(s, offered);
    if next != s {
      NewGeneration(s, next);
      NoTickets(s.work.jobs);
      NewTicket(s.work.installs.Keys, s.work.tickets);
      assert next.work.installs.Keys == s.work.installs.Keys + {s.work.tickets};
    }
  }

  lemma InstallKeeps(s: State, t: nat, ok: bool)
    requires Inv(s)
    ensures Inv(AfterInstall(s, t, ok))
  {
    hide Answered, FromOrigin;
    if t in s.work.installs {
      var next := s.(installing := false, work := s.work.(installs := s.work.installs - {t}));
      SpentTicket(s.work.installs.Keys, t, s.installing);
      assert next.work.installs.Keys == s.work.installs.Keys - {t};
      assert Current(next) == Current(s);
      FetchKeeps(next);
    }
  }

  lemma MayStartIsIdle(s: State, intent: Intent)
    ensures MayStart(s, intent) ==> !s.writing && !s.source.Demo?
  {
  }

  lemma JobStartKeeps(s: State, intent: Intent)
    requires Inv(s)
    ensures Inv(JobStarted(s, intent))
  {
    MayStartIsIdle(s, intent);
    hide Answered, FromOrigin, MayStart, Current;
    var next := JobStarted(s, intent);
    if next != s {
      NewGeneration(s, next);
      NoTickets(s.work.jobs);
      NewTicket(s.work.jobs.Keys, s.work.tickets);
      assert next.work.jobs.Keys == s.work.jobs.Keys + {s.work.tickets};
    }
  }

  lemma JobKeeps(s: State, t: nat, outcome: Outcome)
    requires Inv(s) && Honest(s, JobDone(t, outcome))
    ensures Inv(AfterJob(s, t, outcome))
  {
    hide Answered, FromOrigin, Exactly, Current;
    if t in s.work.jobs {
      var done := s.(work := s.work.(jobs := s.work.jobs - {t}), writing := false,
                     shown := s.shown.(controlAvailable := false));
      JobFlags(s, t, done);
      assert Inv(done);
      if outcome.Loaded? {
        var next := done.(packetSandbox := Some(outcome.sandbox), packets := outcome.packets);
        LoadKeeps(done, next, outcome.sandbox);
        FetchKeeps(next);
      } else {
        FetchKeeps(done);
      }
    }
  }

  lemma JobFlags(s: State, t: nat, done: State)
    requires Inv(s) && t in s.work.jobs
    requires done == s.(work := s.work.(jobs := s.work.jobs - {t}), writing := false,
                        shown := s.shown.(controlAvailable := false))
    ensures FlagsMatchWork(done)
  {
    SpentTicket(s.work.jobs.Keys, t, s.writing);
    assert done.work.jobs.Keys == s.work.jobs.Keys - {t};
    assert Current(done) == Current(s);
  }

  lemma LoadKeeps(s: State, next: State, sandbox: string)
    requires Inv(s) && next == s.(packetSandbox := Some(sandbox), packets := next.packets)
    requires Answered(next.packets) && FromOrigin(next.packets.packets, Origin(s.source, sandbox))
    ensures Inv(next)
  {
    hide Answered, FromOrigin, Exactly;
    assert Current(next) == Current(s);
  }

  lemma ReadStartKeeps(s: State, shown: bool)
    requires Inv(s)
    ensures Inv(ReadStarted(s, shown))
  {
    hide Answered, FromOrigin;
    var next := ReadStarted(s, shown);
    if next != s {
      NewTicket(s.work.packetReads.Keys, s.work.tickets);
      assert next.work.packetReads.Keys == s.work.packetReads.Keys + {s.work.tickets};
      assert Current(next) == Current(s);
    }
  }

  lemma ReadKeeps(s: State, t: nat, read: Option<Snapshot>, shown: bool)
    requires Inv(s) && Honest(s, PacketsRead(t, read, shown))
    ensures Inv(AfterRead(s, t, read, shown))
  {
    hide Ascending, UpTo, FromOrigin, Merged;
    if t in s.work.packetReads {
      var r := s.work.packetReads[t];
      SpentTicket(s.work.packetReads.Keys, t, s.packetsReading);
      var done := s.(packetsReading := false, work := s.work.(packetReads := s.work.packetReads - {t}));
      assert done.work.packetReads.Keys == s.work.packetReads.Keys - {t};
      assert Current(done) == Current(s);
      assert Inv(done);
      if !(|| done.generation != r.generation || done.packetSandbox != Some(r.sandbox) || done.packets.next != r.after
           || !done.shown.connection.Connected? || read.None?)
      {
        var next := done.(packets := Merged(done.packets, read.value, r.after));
        assert Current(next) == Current(done);
        MergeKeeps(done, read.value);
        assert Inv(next);
        ReadStartKeeps(next, shown);
      }
    }
  }

  /** A read from the shown sandbox leaves the held frames in order and its own. */
  lemma MergeKeeps(s: State, read: Snapshot)
    requires PacketsFromSource(s) && Answered(s.packets) && s.packetSandbox.Some?
    requires Answered(read) && FromOrigin(read.packets, Origin(s.source, s.packetSandbox.value))
    ensures
      var next := s.(packets := Merged(s.packets, read, s.packets.next));
      PacketsFromSource(next) && Answered(next.packets)
  {
    MergeInOrder(s.packets, read);
    MergeFromOrigin(s.packets, read, Origin(s.source, s.packetSandbox.value));
    hide Merged, Answered;
  }

  lemma MergeInOrder(held: Snapshot, read: Snapshot)
    requires Answered(held) && Answered(read)
    ensures Answered(Merged(held, read, held.next))
  {
    hide Ascending, UpTo, Fresh;
    StepKeeps(held, held.packets, Read(read));
    LastKeptAscends(Logged(held.packets, held.next, Read(read)), Merged(held, read, held.next).next);
  }

  lemma MergeFromOrigin(held: Snapshot, read: Snapshot, origin: Origin)
    requires held.packets != [] ==> FromOrigin(held.packets, origin)
    requires FromOrigin(read.packets, origin)
    ensures FromOrigin(Merged(held, read, held.next).packets, origin)
  {
    var newer := Fresh(read.packets, held.next);
    forall i | 0 <= i < |newer| ensures newer[i].origin == origin {
      assert newer[i] in newer;
    }
  }

  /** Every step keeps the invariant. */
  lemma StepKeepsInv(s: State, e: Event)
    requires Inv(s) && Honest(s, e)
    ensures Inv(Step(s, e))
  {
    hide Inv, Honest;
    match e
    case Poll => FetchKeeps(s);
    case Refreshed(t, workspace) => RefreshKeeps(s, t, workspace);
    case SwitchSource(to, formOpen) => SwitchKeeps(s, to, formOpen);
    case InstallCli(offered) => InstallStartKeeps(s, offered);
    case Installed(t, ok) => InstallKeeps(s, t, ok);
    case StartJob(intent) => JobStartKeeps(s, intent);
    case JobDone(t, outcome) => JobKeeps(s, t, outcome);
    case ReadPackets(shown) => ReadStartKeeps(s, shown);
    case PacketsRead(t, read, shown) => ReadKeeps(s, t, read, shown);
  }

  lemma OpenKeeps(source: Source, demo: Snapshot)
    requires HonestRun(source, demo, [])
    ensures Inv(Opened(source, demo))
  {
    var s := Blank(source);
    assert Current(s) == {} && s.work.jobs.Keys == {} && s.work.installs.Keys == {} && s.work.packetReads.Keys == {};
    EmptyInOrder();
    if source.Demo? {
      assert Current(Opened(source, demo)) == {};
    } else {
      FetchKeeps(s);
    }
  }

  lemma HonestPrefix(source: Source, demo: Snapshot, run: seq<Event>, n: nat)
    requires n <= |run| && HonestRun(source, demo, run)
    ensures HonestRun(source, demo, run[..n])
  {
    hide Honest, After;
    forall i | 0 <= i < n ensures Honest(After(source, demo, run[..n][..i]), run[..n][i]) {
      assert run[..n][..i] == run[..i];
    }
  }

  /** In every reachable state, under any interleaving of refreshes, late answers,
      switches, installs, actions and packet reads: everything shown and the target come
      from the selected source, held frames from its selected sandbox and in order, and
      each flag is set exactly while one piece of current work of its kind is in flight. */
  lemma {:induction false} EveryRunIsSafe(source: Source, demo: Snapshot, run: seq<Event>)
    requires HonestRun(source, demo, run)
    ensures Inv(After(source, demo, run))
  {
    hide Inv, Honest;
    if run == [] {
      OpenKeeps(source, demo);
    } else {
      var n := |run| - 1;
      HonestPrefix(source, demo, run, n);
      EveryRunIsSafe(source, demo, run[..n]);
      StepKeepsInv(After(source, demo, run[..n]), run[n]);
    }
  }

  // ---------------------------------------------------------- what the invariant gives

  /** The request slot holds one refresh: whatever a new one replaces there is stale. */
  lemma OnlyStaleRefreshesAreReplaced(s: State, t: nat)
    requires Inv(s) && Fetched(s) != s && t in s.work.requests
    ensures s.work.requests[t].generation < s.generation
  {
    if s.work.requests[t].generation == s.generation {
      SpentTicket(Current(s), t, s.refreshing);
    }
  }

  /** An action's answer is never taken for stale: it ends the write, and no further
      write is allowed until a refresh has answered. */
  lemma NoActionIsLost(s: State, t: nat, outcome: Outcome)
    requires Inv(s) && t in s.work.jobs
    ensures s.writing && !AfterJob(s, t, outcome).writing && !CanWrite(AfterJob(s, t, outcome))
  {
    hide Answered, FromOrigin;
    SpentTicket(s.work.jobs.Keys, t, s.writing);
  }

  lemma LastKeptIsBounded(held: Snapshot, read: Snapshot, after: nat)
    ensures |Merged(held, read, after).packets| <= KEEP
  {
  }

  lemma ReadStartKeepsPackets(s: State, shown: bool)
    ensures ReadStarted(s, shown).packets == s.packets
  {
  }

  /** More than `KEEP` frames are held only as a capture command's answer brought them. */
  lemma LongOnlyAsLoaded(s: State, e: Event)
    requires |Step(s, e).packets.packets| > KEEP
    ensures
      || Step(s, e).packets == s.packets
      || (e.JobDone? && e.outcome.Loaded? && Step(s, e).packets == e.outcome.packets)
  {
    hide Merged, ReadStarted, CanWrite, MayStart;
    match e
    case ReadPackets(shown) => ReadStartKeepsPackets(s, shown);
    case PacketsRead(t, read, shown) =>
      if t in s.work.packetReads && read.Some? {
        var r := s.work.packetReads[t];
        LastKeptIsBounded(s.packets, read.value, r.after);
        var done := s.(packetsReading := false, work := s.work.(packetReads := s.work.packetReads - {t}));
        ReadStartKeepsPackets(done.(packets := Merged(s.packets, read.value, r.after)), shown);
      }
    case _ =>
  }

  // ---------------------------------------------------------- runs of an object

  /** One more honest event: the run stays honest, and its end is one safe step further. */
  lemma RunExtends(source: Source, demo: Snapshot, run: seq<Event>, e: Event)
    requires HonestRun(source, demo, run) && Honest(After(source, demo, run), e)
    ensures HonestRun(source, demo, run + [e]) && After(source, demo, run + [e]) == Step(After(source, demo, run), e)
    ensures Inv(After(source, demo, run)) && Inv(After(source, demo, run + [e]))
  {
    hide Honest, Step, Inv;
    var all := run + [e];
    assert all[..|run|] == run;
    assert HonestRun(source, demo, all) by {
      forall i | 0 <= i < |all| ensures Honest(After(source, demo, all[..i]), all[i]) {
        assert i < |run| ==> all[..i] == run[..i] && all[i] == run[i];
      }
    }
    EveryRunIsSafe(source, demo, run);
    EveryRunIsSafe(source, demo, all);
  }

  // ---------------------------------------------------------- writes need a fresh view

  /** The event is a refresh of the current generation that found its manager. */
  predicate Confirms(s: State, e: Event) {
    e.Refreshed? && e.workspace.Some? && e.ticket in Current(s)
  }

  predicate CurrentFrom(s: State, n: nat) {
    n <= s.work.tickets && forall t :: t in Current(s) ==> t >= n
  }

  /** Nothing new is asked. */
  predicate Quieter(s: State, next: State) {
    && next.work.tickets >= s.work.tickets && next.generation >= s.generation
    && (forall t :: t in next.work.requests ==> t in s.work.requests && next.work.requests[t] == s.work.requests[t])
  }

  lemma QuieterStaysFresh(s: State, next: State, n: nat)
    requires WorkFromSource(s) && CurrentFrom(s, n) && Quieter(s, next)
    ensures CurrentFrom(next, n)
  {
    forall t | t in Current(next) ensures t >= n {
      assert t in Current(s);
    }
  }

  lemma FetchStaysFresh(s: State, n: nat)
    requires CurrentFrom(s, n)
    ensures CurrentFrom(Fetched(s), n) && Fetched(s).shown.controlAvailable == s.shown.controlAvailable
  {
    var next := Fetched(s);
    forall t | t in Current(next) ensures t >= n {
      assert t in Current(s) || t == s.work.tickets;
    }
  }

  lemma RefreshStaysFresh(s: State, t: nat, answer: Option<Workspace>, n: nat)
    requires WorkFromSource(s) && CurrentFrom(s, n)
    ensures CurrentFrom(AfterRefresh(s, t, answer), n)
    ensures AfterRefresh(s, t, answer).shown.controlAvailable ==> s.shown.controlAvailable || Confirms(s,
        Refreshed(t, answer))
  {
    hide CurrentFrom, WorkFromSource, Connect, Disconnect;
    if t in s.work.requests {
      var idle := s.(work := s.work.(requests := s.work.requests - {t}), refreshing := false);
      AnswersAskNothing(idle, s.work.requests[t].source, answer);
    }
    QuieterStaysFresh(s, AfterRefresh(s, t, answer), n);
  }

  lemma AnswersAskNothing(s: State, source: Source, answer: Option<Workspace>)
    ensures
      var next := if answer.Some? then Connect(s, source, answer.value) else Disconnect(s);
      && next.work.requests == s.work.requests && next.work.tickets == s.work.tickets && next.generation == s.generation
      && (next.shown.controlAvailable ==> answer.Some?)
  {
  }

  lemma StartStaysFresh(s: State, next: State, n: nat)
    requires WorkFromSource(s) && CurrentFrom(s, n)
    requires next.work.requests == s.work.requests
    requires next.work.tickets >= s.work.tickets && next.generation >= s.generation
    ensures CurrentFrom(next, n)
  {
    QuieterStaysFresh(s, next, n);
  }

  lemma ReadStartAsksNothing(s: State, shown: bool)
    ensures
      var next := ReadStarted(s, shown);
      && next.work.requests == s.work.requests && next.work.tickets >= s.work.tickets && next.generation == s.generation
      && next.shown.controlAvailable == s.shown.controlAvailable
  {
  }

  lemma ReadAsksNothing(s: State, t: nat, read: Option<Snapshot>, shown: bool)
    ensures
      var next := AfterRead(s, t, read, shown);
      && next.work.requests == s.work.requests && next.work.tickets >= s.work.tickets && next.generation == s.generation
      && next.shown.controlAvailable == s.shown.controlAvailable
  {
    hide Merged, ReadStarted;
    if t in s.work.packetReads && read.Some? {
      var done := s.(packetsReading := false, work := s.work.(packetReads := s.work.packetReads - {t}));
      ReadStartAsksNothing(done.(packets := Merged(done.packets, read.value, s.work.packetReads[t].after)), shown);
    }
  }

  lemma StartsAskNothing(s: State, offered: bool, intent: Intent)
    ensures
      var install, job := InstallStarted(s, offered), JobStarted(s, intent);
      && install.work.requests == job.work.requests == s.work.requests
      && install.work.tickets >= s.work.tickets && install.generation >= s.generation
      && job.work.tickets >= s.work.tickets && job.generation >= s.generation
      && install.shown.controlAvailable == job.shown.controlAvailable == s.shown.controlAvailable
  {
    hide MayStart;
  }

  lemma SwitchStaysFresh(s: State, to: Source, formOpen: bool, n: nat)
    requires WorkFromSource(s) && CurrentFrom(s, n)
    ensures CurrentFrom(Switched(s, to, formOpen), n)
    ensures Switched(s, to, formOpen).shown.controlAvailable ==> s.shown.controlAvailable
  {
    hide CurrentFrom;
    if !(s.writing || formOpen || s.source.Demo?) {
      var next := Cleared(s, to);
      QuieterStaysFresh(s, next, n);
      FetchStaysFresh(next, n);
    }
  }

  lemma InstallStaysFresh(s: State, t: nat, ok: bool, n: nat)
    requires WorkFromSource(s) && CurrentFrom(s, n)
    ensures CurrentFrom(AfterInstall(s, t, ok), n)
    ensures AfterInstall(s, t, ok).shown.controlAvailable ==> s.shown.controlAvailable
  {
    hide CurrentFrom;
    if t in s.work.installs {
      var next := s.(installing := false, work := s.work.(installs := s.work.installs - {t}));
      QuieterStaysFresh(s, next, n);
      FetchStaysFresh(next, n);
    }
  }

  lemma JobStaysFresh(s: State, t: nat, outcome: Outcome, n: nat)
    requires WorkFromSource(s) && CurrentFrom(s, n)
    ensures CurrentFrom(AfterJob(s, t, outcome), n)
    ensures AfterJob(s, t, outcome).shown.controlAvailable ==> s.shown.controlAvailable
  {
    hide CurrentFrom;
    if t in s.work.jobs {
      QuieterStaysFresh(s, s.(work := s.work.(jobs := s.work.jobs - {t})), n);
      var done := s.(work := s.work.(jobs := s.work.jobs - {t}), writing := false,
                     shown := s.shown.(controlAvailable := false));
      var next := if outcome.Loaded? then done.(packetSandbox := Some(outcome.sandbox), packets := outcome.packets)
                  else done;
      QuieterStaysFresh(s, next, n);
      FetchStaysFresh(next, n);
    }
  }

  lemma StepStaysFresh(s: State, e: Event, n: nat)
    requires Inv(s) && CurrentFrom(s, n)
    ensures CurrentFrom(Step(s, e), n)
    ensures Step(s, e).shown.controlAvailable ==> s.shown.controlAvailable || Confirms(s, e)
  {
    assert WorkFromSource(s);
    hide Inv, WorkFromSource, CurrentFrom, Confirms, MayStart;
    hide Fetched, AfterRefresh, Switched, InstallStarted, AfterInstall, JobStarted, AfterJob, ReadStarted, AfterRead;
    match e {
      case Poll => FetchStaysFresh(s, n);
      case Refreshed(t, workspace) => RefreshStaysFresh(s, t, workspace, n);
      case SwitchSource(to, formOpen) => SwitchStaysFresh(s, to, formOpen, n);
      case InstallCli(offered) =>
        StartsAskNothing(s, offered, Manage(None));
        StartStaysFresh(s, InstallStarted(s, offered), n);
      case Installed(t, ok) => InstallStaysFresh(s, t, ok, n);
      case StartJob(intent) =>
        StartsAskNothing(s, false, intent);
        StartStaysFresh(s, JobStarted(s, intent), n);
      case JobDone(t, outcome) => JobStaysFresh(s, t, outcome, n);
      case ReadPackets(shown) =>
        ReadStartAsksNothing(s, shown);
        StartStaysFresh(s, ReadStarted(s, shown), n);
      case PacketsRead(t, read, shown) =>
        ReadAsksNothing(s, t, read, shown);
        StartStaysFresh(s, AfterRead(s, t, read, shown), n);
    }
  }

  /** Between two writes the desktop has refreshed: when a manager action starts after an
      earlier action's answer, a refresh begun since that answer has come back. */
  lemma WritesNeedAFreshView(source: Source, demo: Snapshot, run: seq<Event>, i: nat, j: nat)
    requires HonestRun(source, demo, run) && i < j < |run|
    requires run[i].JobDone? && run[i].ticket in After(source, demo, run[..i]).work.jobs
    requires run[j].StartJob? && run[j].intent.Manage? && MayStart(After(source, demo, run[..j]), run[j].intent)
    ensures exists l :: i < l < j && FreshView(source, demo, run, i, l)
  {
    hide HonestRun, After, FreshView;
    FreshSince(source, demo, run, i, j);
  }

  /** The refresh that comes back at `l` was begun at `i` or later, and is accepted. */
  predicate FreshView(source: Source, demo: Snapshot, run: seq<Event>, i: nat, l: nat) {
    && i < l < |run|
    && Confirms(After(source, demo, run[..l]), run[l])
    && run[l].ticket >= After(source, demo, run[..i]).work.tickets
  }

  lemma {:induction false} FreshSince(source: Source, demo: Snapshot, run: seq<Event>, i: nat, m: nat)
    requires HonestRun(source, demo, run) && i < m < |run|
    requires run[i].JobDone? && run[i].ticket in After(source, demo, run[..i]).work.jobs
    ensures CurrentFrom(After(source, demo, run[..m]), After(source, demo, run[..i]).work.tickets)
    ensures After(source, demo, run[..m]).shown.controlAvailable ==> exists l :: i < l < m && FreshView(source, demo,
        run, i, l)
    decreases m
  {
    hide Step, HonestRun, Inv, CurrentFrom, Confirms;
    var n := After(source, demo, run[..i]).work.tickets;
    var before, e := After(source, demo, run[..m - 1]), run[m - 1];
    assert run[..m][..m - 1] == run[..m - 1];
    HonestPrefix(source, demo, run, m - 1);
    EveryRunIsSafe(source, demo, run[..m - 1]);
    if m == i + 1 {
      JobAnswered(before, e);
    } else {
      FreshSince(source, demo, run, i, m - 1);
      StepStaysFresh(before, e, n);
      if Confirms(before, e) {
        ConfirmsFrom(before, e, n);
        assert FreshView(source, demo, run, i, m - 1);
      }
    }
  }

  lemma ConfirmsFrom(s: State, e: Event, n: nat)
    requires CurrentFrom(s, n) && Confirms(s, e)
    ensures e.Refreshed? && e.ticket >= n
  {
  }

  lemma JobAnswered(s: State, e: Event)
    requires Inv(s) && e.JobDone? && e.ticket in s.work.jobs
    ensures CurrentFrom(Step(s, e), s.work.tickets) && !Step(s, e).shown.controlAvailable
  {
    JobWasAlone(s, e.ticket);
    assert WorkFromSource(s);
    hide Inv, WorkFromSource, AfterJob;
    JobLocks(s, e.ticket, e.outcome);
    JobStaysFresh(s, e.ticket, e.outcome, s.work.tickets);
  }

  lemma JobWasAlone(s: State, t: nat)
    requires Inv(s) && t in s.work.jobs
    ensures s.work.jobs[t].generation == s.generation && Current(s) == {}
  {
    SpentTicket(s.work.jobs.Keys, t, s.writing);
  }

  lemma JobLocks(s: State, t: nat, outcome: Outcome)
    requires t in s.work.jobs && s.work.jobs[t].generation == s.generation
    ensures !AfterJob(s, t, outcome).shown.controlAvailable
  {
  }
}
