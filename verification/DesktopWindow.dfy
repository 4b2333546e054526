/** The desktop window as the object its handlers update. It remembers the run that led to
    its state, so that what holds of every run holds of the object: it is safe, and it shows
    what the history tells. */
module DesktopWindow {
  import opened Wrappers
  import opened Sources
  import Capture
  import opened Desktop
  import opened DesktopHistory

  class Window {
    var source: Source
    var connection: Connection
    var generation: nat
    var refreshing: bool
    var writing: bool
    var installing: bool
    var packetsReading: bool
    var inventory: Option<Piece>
    var host: Option<Piece>
    var organization: Option<Piece>
    var orgMode: bool
    var target: Option<Target>
    var dashboardAvailable: bool
    var controlAvailable: bool
    var packets: Capture.Snapshot
    var packetSandbox: Option<string>
    // Work begun and not yet answered.
    var work: Work

    // What the window was opened on, and everything that happened to it since.
    ghost const start: Source
    ghost const demo: Capture.Snapshot
    ghost var history: seq<Event>

    function ShownNow(): Shown
      reads this`connection, this`inventory, this`host, this`organization, this`orgMode, this`target
      reads this`dashboardAvailable, this`controlAvailable
    {
      Shown(connection, inventory, host, organization, orgMode, target, dashboardAvailable, controlAvailable)
    }

    function View(): State
      reads this`connection, this`inventory, this`host, this`organization, this`orgMode, this`target
      reads this`dashboardAvailable, this`controlAvailable
      reads this`source, this`generation, this`refreshing, this`writing, this`installing, this`packetsReading
      reads this`packets, this`packetSandbox, this`work
    {
      State(source, generation, refreshing, writing, installing, packetsReading,
            ShownNow(), packets, packetSandbox, work)
    }

    /** The state is the one the history leads to, is safe, and shows what the history tells. */
    ghost predicate Valid()
      reads this
    {
      && View() == After(start, demo, history) && HonestRun(start, demo, history) && Inv(View())
      && Shows(View(), Told(start, demo, history))
    }

    /** `new`: the demo shows its own data, the others fetch. */
    constructor (source: Source, demo: Capture.Snapshot)
      requires Capture.Answered(demo) && FromOrigin(demo.packets, Origin(Demo, "dev"))
      ensures Valid() && start == source && this.demo == demo && history == [] && refreshing == !source.Demo?
    {
      this.source := source;
      connection, generation := Connecting, 0;
      refreshing, writing, installing, packetsReading := false, false, false, false;
      inventory, host, organization, orgMode, target := None, None, None, false, None;
      dashboardAvailable, controlAvailable := false, false;
      packets, packetSandbox := Capture.EMPTY, None;
      work := Work(map[], map[], map[], map[], 0);
      this.start, this.demo, this.history := source, demo, [];
      new;
      hide Inv, HonestRun, Fetched, Capture.Answered, FromOrigin, Shows;
      assert View() == Blank(source);
      if source.Demo? {
        ShowDemo(demo);
      } else {
        FetchAsks(View());
        Fetch();
      }
      NewRun(source, demo);
    }

    /** `Poll` or a manual refresh: one refresh is in flight, unless there is nothing to ask or
        an action is under way. */
    method Poll()
      requires Valid()
      modifies this
      ensures Valid() && history == old(history) + [Event.Poll]
      ensures refreshing == (old(refreshing) || (!source.Demo? && !writing))
      ensures ShownNow() == old(ShownNow()) && packets == old(packets)
    {
      hide Inv, HonestRun, After, Fetched, Shows, Told, ShownNow;
      GoesOn(start, demo, history, Event.Poll);
      FetchAsks(View());
      Fetch();
      history := history + [Event.Poll];
    }

    /** The request of `fetch` comes back. The window shows what it brought, part by part, or
        nothing; if it is stale, nothing changes. */
    method Refresh(t: nat, answer: Option<Workspace>)
      requires Valid() && t in work.requests
      modifies this
      ensures Valid() && history == old(history) + [Refreshed(t, answer)] && source == old(source)
      ensures old(work.requests[t].generation == generation) ==>
        && !refreshing
        && match answer
           case Some(w) => ShowsWorkspace(ShownNow(), source, w, false) && packets == old(packets)
           case None => ShownNow().connection == Offline && ShowsNothing(ShownNow()) && packets == Capture.EMPTY
      ensures old(work.requests[t].generation != generation) ==>
        ShownNow() == old(ShownNow()) && packets == old(packets) && refreshing == old(refreshing)
    {
      hide Inv, HonestRun, After, AfterRefresh, Shows, Told, ShownNow, ShowsWorkspace, ShowsNothing;
      GoesOn(start, demo, history, Refreshed(t, answer));
      RefreshGives(View(), t, answer);
      TakeAnswer(t, answer);
      history := history + [Refreshed(t, answer)];
    }

    /** `switch_source`. Nothing of the old source is left to see or act on, and the new one is
        asked; while an action or a form is open, and in the demo, nothing happens. */
    method SwitchTo(to: Source, formOpen: bool)
      requires Valid()
      modifies this
      ensures Valid() && history == old(history) + [SwitchSource(to, formOpen)]
      ensures !old(writing) && !formOpen && !old(source).Demo? ==>
        && source == to && ShownNow() == NOTHING && packets == Capture.EMPTY && !CanWrite(View())
        && packetSandbox == None && refreshing == !to.Demo?
      ensures old(writing) || formOpen || old(source).Demo? ==> View() == old(View())
    {
      hide Inv, HonestRun, After, Switched, Shows, Told;
      GoesOn(start, demo, history, SwitchSource(to, formOpen));
      Switch(to, formOpen);
      history := history + [SwitchSource(to, formOpen)];
    }

    /** `install_cli`, and its work coming back: a refresh follows one that worked. */
    method StartInstall(offered: bool)
      requires Valid()
      modifies this
      ensures Valid() && history == old(history) + [InstallCli(offered)]
      ensures installing == (old(installing) || (offered && !writing))
      ensures !old(installing) && installing ==> !refreshing && generation > old(generation)
    {
      hide Inv, HonestRun, After, InstallStarted, Shows, Told;
      GoesOn(start, demo, history, InstallCli(offered));
      InstallStarts(View(), offered);
      BeginInstall(offered);
      history := history + [InstallCli(offered)];
    }

    method FinishInstall(t: nat, ok: bool)
      requires Valid() && t in work.installs
      modifies this
      ensures Valid() && history == old(history) + [Installed(t, ok)]
      ensures old(installing) && !installing
      ensures refreshing ==
        (old(refreshing) || (ok && old(work.installs[t] == generation) && !source.Demo? && !writing))
    {
      hide Inv, HonestRun, After, AfterInstall, Shows, Told;
      GoesOn(start, demo, history, Installed(t, ok));
      InstallGives(View(), t, ok);
      EndInstall(t, ok);
      history := history + [Installed(t, ok)];
    }

    /** `start_job`: begins exactly when the last answer allows it, on the target it named. */
    method Start(intent: Intent)
      requires Valid()
      modifies this
      ensures Valid() && history == old(history) + [StartJob(intent)]
      ensures writing == (old(writing) || old(Begins(Told(start, demo, history), StartJob(intent))))
      ensures !old(writing) && writing ==> !refreshing && generation > old(generation)
    {
      hide Inv, HonestRun, After, JobStarted, MayStart, Shows, Told, Begins;
      GoesOn(start, demo, history, StartJob(intent));
      JobStartShows(View(), Told(start, demo, history), StartJob(intent));
      JobStarts(View(), intent);
      BeginJob(intent);
      history := history + [StartJob(intent)];
    }

    /** Its work comes back: the write ends, and none may follow until the refresh that is
        then in flight has answered. */
    method FinishJob(t: nat, outcome: Outcome)
      requires Valid() && t in work.jobs && Honest(View(), JobDone(t, outcome))
      modifies this
      ensures Valid() && history == old(history) + [JobDone(t, outcome)]
      ensures old(writing) && !writing && !CanWrite(View()) && refreshing
      ensures outcome.Loaded? ==> packets == outcome.packets && packetSandbox == Some(outcome.sandbox)
      ensures !outcome.Loaded? ==> packets == old(packets) && packetSandbox == old(packetSandbox)
    {
      hide Inv, HonestRun, After, AfterJob, Honest, CanWrite, Shows, Told;
      GoesOn(start, demo, history, JobDone(t, outcome));
      NoActionIsLost(View(), t, outcome);
      JobGives(View(), Told(start, demo, history), t, outcome);
      EndJob(t, outcome);
      history := history + [JobDone(t, outcome)];
    }

    /** `read_packets`: a read is in flight while a running capture is on screen, the manager
        answers and no action is under way. */
    method ReadPackets(shown: bool)
      requires Valid()
      modifies this
      ensures Valid() && history == old(history) + [Event.ReadPackets(shown)]
      ensures packetsReading ==
        (old(packetsReading)
         || (shown && packetSandbox.Some? && packets.active && connection.Connected? && !writing))
      ensures packets == old(packets)
    {
      hide Inv, HonestRun, After, ReadStarted, Shows, Told;
      GoesOn(start, demo, history, Event.ReadPackets(shown));
      ReadAsks(View(), Told(start, demo, history), shown);
      BeginRead(shown);
      history := history + [Event.ReadPackets(shown)];
    }

    /** Its work comes back: the frames after the cursor join those held, and while there are
        more the next read follows; a stale answer changes nothing. */
    method FinishRead(t: nat, read: Option<Capture.Snapshot>, shown: bool)
      requires Valid() && t in work.packetReads && Honest(View(), PacketsRead(t, read, shown))
      modifies this
      ensures Valid() && history == old(history) + [PacketsRead(t, read, shown)]
      ensures
        var brought := old(Brings(Told(start, demo, history), View(), PacketsRead(t, read, shown)));
        && packets == (if brought then Capture.Step(old(packets), Capture.Read(read.value)) else old(packets))
        && packetsReading == (brought && packets.next < packets.latest && shown && packets.active && !writing)
    {
      hide Inv, HonestRun, After, AfterRead, Honest, Shows, Told, Brings, Capture.Merged;
      GoesOn(start, demo, history, PacketsRead(t, read, shown));
      ReadGives(View(), Told(start, demo, history), t, read, shown);
      EndRead(t, read, shown);
      history := history + [PacketsRead(t, read, shown)];
    }

    // -------------------------------------------------------- what the handlers do

    method ShowDemo(demo: Capture.Snapshot)
      requires source.Demo? && View() == Blank(source)
      modifies this
      ensures View() == Opened(Demo, demo) && history == old(history)
    {
      inventory, host := Some(Piece(Demo, "demo")), Some(Piece(Demo, "demo"));
      packets, packetSandbox := demo, Some("dev");
      dashboardAvailable, controlAvailable := true, true;
      connection := DemoData;
    }

    method Fetch()
      modifies this`refreshing, this`work
      ensures View() == Fetched(old(View()))
    {
      if source.Demo? || refreshing || writing {
        return;
      }
      refreshing := true;
      work := Asking(work, Request(generation, source));
    }

    method TakeAnswer(t: nat, answer: Option<Workspace>)
      requires t in work.requests
      modifies this`connection, this`inventory, this`host, this`organization, this`orgMode, this`target
      modifies this`dashboardAvailable, this`controlAvailable, this`work, this`refreshing, this`packets
      ensures View() == AfterRefresh(old(View()), t, answer)
    {
      hide ShownNow, Connect, Disconnect;
      var request := work.requests[t];
      work := work.(requests := work.requests - {t});
      if request.generation != generation {
        return;
      }
      refreshing := false;
      if answer.Some? {
        GoOnline(request.source, answer.value);
      } else {
        GoOffline();
      }
    }

    method GoOnline(from: Source, w: Workspace)
      modifies this`connection, this`inventory, this`host, this`organization, this`orgMode, this`target
      modifies this`dashboardAvailable, this`controlAvailable
      ensures View() == Connect(old(View()), from, w)
    {
      hide ShownNow, ShownOf;
      Show(from, w);
    }

    method GoOffline()
      modifies this`connection, this`inventory, this`host, this`organization, this`orgMode, this`target
      modifies this`dashboardAvailable, this`controlAvailable, this`packets
      ensures View() == Disconnect(old(View()))
    {
      Clear(Offline);
      packets := Capture.EMPTY;
    }

    /** A snapshot, set field by field. */
    method Show(from: Source, w: Workspace)
      modifies this`connection, this`inventory, this`host, this`organization, this`orgMode, this`target
      modifies this`dashboardAvailable, this`controlAvailable
      ensures ShownNow() == ShownOf(from, w)
    {
      inventory := Some(Piece(from, w.inventory));
      connection := Connected;
      dashboardAvailable := w.dashboard.Some?;
      controlAvailable := w.organization.Some? || w.control;
      orgMode := w.organization.Some?;
      organization := PieceOf(from, w.organization);
      host := PieceOf(from, w.dashboard);
      target := Some(Target(from, w.profile));
    }

    /** Nothing shown but the organization workspace, if it was open. */
    method Clear(now: Connection)
      modifies this`connection, this`inventory, this`host, this`organization, this`target
      modifies this`dashboardAvailable, this`controlAvailable
      ensures ShownNow() == NOTHING.(connection := now, orgMode := orgMode)
    {
      inventory, host, target, organization := None, None, None, None;
      dashboardAvailable, controlAvailable := false, false;
      connection := now;
    }

    method Switch(to: Source, formOpen: bool)
      modifies this
      ensures View() == Switched(old(View()), to, formOpen) && history == old(history)
      ensures !old(writing) && !formOpen && !old(source).Demo? ==>
        && source == to && ShownNow() == NOTHING && packets == Capture.EMPTY && !CanWrite(View())
        && packetSandbox == None && refreshing == !to.Demo?
      ensures old(writing) || formOpen || old(source).Demo? ==> View() == old(View())
    {
      if writing || formOpen || source.Demo? {
        return;
      }
      Select(to);
      hide Fetched, Cleared, ShownNow;
      Fetch();
    }

    method Select(to: Source)
      modifies this
      ensures View() == Cleared(old(View()), to) && history == old(history)
      ensures source == to && ShownNow() == NOTHING && packets == Capture.EMPTY && packetSandbox == None
      ensures !refreshing && !writing == !old(writing)
    {
      hide ShownNow;
      generation := generation + 1;
      refreshing := false;
      source := to;
      packets, packetSandbox := Capture.EMPTY, None;
      orgMode := false;
      Clear(Connecting);
    }

    method BeginInstall(offered: bool)
      modifies this
      ensures View() == InstallStarted(old(View()), offered) && history == old(history)
    {
      if installing || writing || !offered {
        return;
      }
      installing := true;
      generation := generation + 1;
      refreshing := false;
      work := Installing(work, generation);
    }

    method EndInstall(t: nat, ok: bool)
      requires t in work.installs
      modifies this
      ensures View() == AfterInstall(old(View()), t, ok) && history == old(history)
    {
      var started := work.installs[t];
      work := work.(installs := work.installs - {t});
      installing := false;
      if ok && generation == started {
        Fetch();
      }
    }

    method BeginJob(intent: Intent)
      modifies this
      ensures View() == JobStarted(old(View()), intent) && history == old(history)
    {
      if !MayStart(View(), intent) {
        return;
      }
      writing := true;
      refreshing := false;
      generation := generation + 1;
      work := Acting(work, Request(generation, source));
    }

    method EndJob(t: nat, outcome: Outcome)
      requires t in work.jobs
      modifies this`refreshing, this`work, this`writing, this`controlAvailable, this`packets, this`packetSandbox
      ensures View() == AfterJob(old(View()), t, outcome)
    {
      hide ShownNow, Fetched, Unlocked;
      var started := work.jobs[t].generation;
      work := work.(jobs := work.jobs - {t});
      if generation != started {
        return;
      }
      Unlock(outcome);
      Fetch();
    }

    method Unlock(outcome: Outcome)
      modifies this`writing, this`controlAvailable, this`packets, this`packetSandbox
      ensures View() == Unlocked(old(View()), outcome)
    {
      hide ShownNow;
      writing := false;
      Lock();
      if outcome.Loaded? {
        packetSandbox := Some(outcome.sandbox);
        packets := outcome.packets;
      }
    }

    /** No write until a refresh allows one. */
    method Lock()
      modifies this`controlAvailable
      ensures ShownNow() == old(ShownNow()).(controlAvailable := false)
    {
      controlAvailable := false;
    }

    method BeginRead(shown: bool)
      modifies this`packetsReading, this`work
      ensures View() == ReadStarted(old(View()), shown)
    {
      if packetSandbox.None? || target.None? {
        return;
      }
      if || !shown || !packets.active || packetsReading || writing || !connection.Connected?
         || target.value.source != source
      {
        return;
      }
      packetsReading := true;
      work := Reading(work, PacketRead(generation, source, packetSandbox.value, packets.next));
    }

    method EndRead(t: nat, read: Option<Capture.Snapshot>, shown: bool)
      requires t in work.packetReads
      modifies this
      ensures View() == AfterRead(old(View()), t, read, shown) && history == old(history)
    {
      hide Capture.Merged;
      var r := work.packetReads[t];
      work := work.(packetReads := work.packetReads - {t});
      packetsReading := false;
      if || generation != r.generation || packetSandbox != Some(r.sandbox) || packets.next != r.after
         || !connection.Connected?
      {
        return;
      }
      if read.Some? {
        packets := Capture.Merged(packets, read.value, r.after);
        if Capture.Behind(packets) {
          BeginRead(shown);
        }
      }
    }
  }

  lemma NewRun(source: Source, demo: Capture.Snapshot)
    requires Capture.Answered(demo) && FromOrigin(demo.packets, Origin(Demo, "dev"))
    ensures HonestRun(source, demo, []) && After(source, demo, []) == Opened(source, demo) && Inv(Opened(source, demo))
    ensures Shows(Opened(source, demo), Told(source, demo, []))
  {
    OpenKeeps(source, demo);
    OpenShows(source, demo);
  }

  /** One more honest event. */
  lemma GoesOn(source: Source, demo: Capture.Snapshot, run: seq<Event>, e: Event)
    requires HonestRun(source, demo, run) && Honest(After(source, demo, run), e)
    ensures HonestRun(source, demo, run + [e]) && After(source, demo, run + [e]) == Step(After(source, demo, run), e)
    ensures Inv(After(source, demo, run + [e])) && Shows(After(source, demo, run + [e]), Told(source, demo, run + [e]))
  {
    hide HonestRun, Honest, After, Told, Inv, Shows, Step;
    RunExtends(source, demo, run, e);
    ShownIsLastAnswer(source, demo, run + [e]);
  }

  // ---------------------------------------------------------- what a step gives

  lemma FetchAsks(s: State)
    ensures
      var next := Fetched(s);
      && next.refreshing == (s.refreshing || (!s.source.Demo? && !s.writing))
      && next.shown == s.shown && next.packets == s.packets && next.source == s.source && next.writing == s.writing
  {
  }

  lemma RefreshGives(s: State, t: nat, answer: Option<Workspace>)
    requires Inv(s) && t in s.work.requests
    ensures
      var next := AfterRefresh(s, t, answer);
      && next.source == s.source
      && (s.work.requests[t].generation == s.generation ==>
            && !next.refreshing
            && match answer
               case Some(w) => ShowsWorkspace(next.shown, s.source, w, false) && next.packets == s.packets
               case None =>
                 next.shown.connection == Offline && ShowsNothing(next.shown) && next.packets == Capture.EMPTY)
      && (s.work.requests[t].generation != s.generation ==>
            next.shown == s.shown && next.packets == s.packets && next.refreshing == s.refreshing)
  {
    assert WorkFromSource(s);
    hide Inv;
  }

  lemma InstallStarts(s: State, offered: bool)
    ensures
      var next := InstallStarted(s, offered);
      && next.installing == (s.installing || (offered && !s.writing)) && next.writing == s.writing
      && (!s.installing && next.installing ==> !next.refreshing && next.generation > s.generation)
  {
  }

  lemma InstallGives(s: State, t: nat, ok: bool)
    requires Inv(s) && t in s.work.installs
    ensures
      var next := AfterInstall(s, t, ok);
      && s.installing && !next.installing && next.source == s.source && next.writing == s.writing
      && next.refreshing ==
         (s.refreshing || (ok && s.work.installs[t] == s.generation && !s.source.Demo? && !s.writing))
  {
    SpentTicket(s.work.installs.Keys, t, s.installing);
    hide Inv;
  }

  lemma JobStarts(s: State, intent: Intent)
    ensures
      var next := JobStarted(s, intent);
      && next.writing == (s.writing || MayStart(s, intent))
      && (!s.writing && next.writing ==> !next.refreshing && next.generation > s.generation)
  {
    hide MayStart;
  }

  lemma JobGives(s: State, a: Account, t: nat, outcome: Outcome)
    requires Inv(s) && t in s.work.jobs && Shows(s, a)
    ensures
      var next := AfterJob(s, t, outcome);
      && next.refreshing
      && (outcome.Loaded? ==> next.packets == outcome.packets && next.packetSandbox == Some(outcome.sandbox))
      && (!outcome.Loaded? ==> next.packets == s.packets && next.packetSandbox == s.packetSandbox)
  {
    NoActionIsLost(s, t, outcome);
    JobWasAlone(s, t);
    hide Inv;
  }

  lemma ReadAsks(s: State, a: Account, shown: bool)
    requires Shows(s, a)
    ensures
      var next := ReadStarted(s, shown);
      && next.packetsReading ==
         (s.packetsReading
          || (shown && s.packetSandbox.Some? && s.packets.active && s.shown.connection.Connected? && !s.writing))
      && next.packets == s.packets && next.writing == s.writing
  {
  }

  lemma ReadGives(s: State, a: Account, t: nat, read: Option<Capture.Snapshot>, shown: bool)
    requires Shows(s, a) && t in s.work.packetReads
    ensures
      var next, brought := AfterRead(s, t, read, shown), Brings(a, s, PacketsRead(t, read, shown));
      && next.packets == (if brought then Capture.Step(s.packets, Capture.Read(read.value)) else s.packets)
      && next.packetsReading == (brought && next.packets.next < next.packets.latest && shown && next.packets.active
                                 && !next.writing)
  {
    hide Capture.After, Capture.Merged;
    if Brings(a, s, PacketsRead(t, read, shown)) {
      var left := s.(packetsReading := false, work := s.work.(packetReads := s.work.packetReads - {t}));
      var merged := left.(packets := Capture.Merged(s.packets, read.value, s.packets.next));
      var told := a.(capture := a.capture + [Capture.Read(read.value)]);
      CaptureGrows(a.capture, Capture.Read(read.value));
      ReadAsks(merged, told, shown);
    }
  }
}
