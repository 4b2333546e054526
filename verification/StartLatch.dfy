/** Automatic startup of the local manager, after `desktop/src/connector.rs`: a
    poll that finds no manager may launch one, at most once between manual retries.
    Each poll's environment (what the reads answer, whether a CLI is found, how the
    launcher ends) is part of the poll, so a run is a sequence of polls. */
module StartLatch {

  import opened Wrappers
  import opened Sources

  /** A read answers, finds no manager listening, or fails otherwise. */
  datatype Reading = Answer(value: string) | Absent(message: string) | Failure(message: string)

  datatype Launch = Started | Refused(message: string)

  datatype Poll = Poll(retry: bool, first: Reading, found: bool, launch: Launch, second: Reading)

  /** The texts an unavailable manager is reported with: the missing-CLI one, a launcher's
      own, or the default that asks for a manual retry. */
  datatype Notice = NoCli | Said(message: string) | Manual

  datatype Error = ReadError(message: string) | CliMissing | LaunchError(message: string) | Unavailable(notice: Notice)

  datatype Outcome = Ok(value: string) | Err(error: Error)

  /** The latch fields of a connector. */
  datatype Latch = Latch(attempted: bool, error: Option<Notice>, missing: bool)

  datatype Polled = Polled(latch: Latch, outcome: Outcome, launched: bool)

  const NEW := Latch(false, None, false)

  function Read(reading: Reading): Outcome {
    match reading
    case Answer(value) => Ok(value)
    case Absent(message) => Err(ReadError(message))
    case Failure(message) => Err(ReadError(message))
  }

  function Shown(notice: Option<Notice>): Notice {
    if notice.Some? then notice.value else Manual
  }

  /** One poll, on values. */
  function Step(source: Source, autoStart: bool, s: Latch, p: Poll): Polled {
    if source.Demo? then Polled(s, Ok("demo"), false)
    else
      var s := if p.retry then NEW else s;
      if p.first.Answer? then Polled(s.(error := None), Read(p.first), false)
      else if !(source.Local? && autoStart && p.first.Absent?) then Polled(s, Read(p.first), false)
      else if s.attempted && !(s.missing && p.found) then
        Polled(s, Err(if s.missing then CliMissing else Unavailable(Shown(s.error))), false)
      else if !p.found then Polled(Latch(true, Some(NoCli), true), Err(CliMissing), false)
      else if p.launch.Refused? then
        Polled(Latch(true, Some(Said(p.launch.message)), false), Err(LaunchError(p.launch.message)), true)
      else Polled(Latch(true, s.error, false), Read(p.second), true)
  }

  // ---------------------------------------------------------- runs

  /** The latch after a run of polls from a new connector. */
  function After(source: Source, autoStart: bool, run: seq<Poll>): Latch {
    if run == [] then NEW
    else Step(source, autoStart, After(source, autoStart, run[..|run| - 1]), run[|run| - 1]).latch
  }

  /** What the poll at `i` of a run does. */
  function At(source: Source, autoStart: bool, run: seq<Poll>, i: nat): Polled
    requires i < |run|
  {
    Step(source, autoStart, After(source, autoStart, run[..i]), run[i])
  }

  function Launches(source: Source, autoStart: bool, run: seq<Poll>): nat {
    if run == [] then 0
    else
      var last := |run| - 1;
      Launches(source, autoStart, run[..last]) + if At(source, autoStart, run, last).launched then 1 else 0
  }

  function Retries(run: seq<Poll>): nat {
    if run == [] then 0 else Retries(run[..|run| - 1]) + if run[|run| - 1].retry then 1 else 0
  }

  /** What a run leaves to the automatic start. It is due until a launch is made, and
      due again on a retry. `tried` records a missing CLI, `missed` that its message
      stands, `answered` a read that answered since the launch. */
  datatype Start = Due(tried: bool, missed: bool) | Used(launch: Launch, missed: bool, answered: bool)

  const FRESH := Due(false, false)

  function StartAfter(source: Source, autoStart: bool, run: seq<Poll>): Start {
    if run == [] then FRESH
    else Next(source, autoStart, StartAfter(source, autoStart, run[..|run| - 1]), run[|run| - 1])
  }

  /** What is left of the start when the poll's own read begins. */
  function Retried(start: Start, p: Poll): Start {
    if p.retry then FRESH else start
  }

  /** No manager answers a source that may start one. */
  predicate Wanted(source: Source, autoStart: bool, p: Poll) {
    source.Local? && autoStart && p.first.Absent?
  }

  function Next(source: Source, autoStart: bool, start: Start, p: Poll): Start {
    var start := Retried(start, p);
    if p.first.Answer? then (if start.Due? then Due(start.tried, false) else Used(start.launch, start.missed, true))
    else if start.Due? && Wanted(source, autoStart, p) then
      if p.found then Used(p.launch, start.missed, false)
      else Due(true, start.missed || !start.tried)
    else start
  }

  // ---------------------------------------------------------- one poll

  /** The latch fields read as what is left to the start. */
  predicate Reads(s: Latch, start: Start) {
    match start
    case Due(tried, missed) =>
      && s.attempted == s.missing == tried
      && s.error == (if missed then Some(NoCli) else None)
    case Used(launch, missed, answered) =>
      && s.attempted && !s.missing
      && s.error == (if answered then None
                     else if launch.Refused? then Some(Said(launch.message))
                     else if missed then Some(NoCli) else None)
  }

  /** A poll keeps the reading; it launches exactly when a start is wanted, is due and
      a CLI is there, and reports a missing CLI exactly when only the CLI is lacking. */
  lemma StepReads(source: Source, autoStart: bool, s: Latch, start: Start, p: Poll)
    requires !source.Demo? && Reads(s, start)
    ensures
      var r, due := Step(source, autoStart, s, p), Retried(start, p).Due? && Wanted(source, autoStart, p);
      && Reads(r.latch, Next(source, autoStart, start, p))
      && (r.launched <==> due && p.found)
      && (r.outcome == Err(CliMissing) <==> due && !p.found)
  {
  }

  lemma {:induction false} RunReads(source: Source, autoStart: bool, run: seq<Poll>)
    requires !source.Demo?
    ensures Reads(After(source, autoStart, run), StartAfter(source, autoStart, run))
  {
    if run != [] {
      var init := run[..|run| - 1];
      RunReads(source, autoStart, init);
      StepReads(source, autoStart, After(source, autoStart, init), StartAfter(source, autoStart, init), run[|run| - 1]);
    }
  }

  // ---------------------------------------------------------- launches

  /** The run from `j` up to `i` has no retry after `j`. */
  predicate SameTurn(run: seq<Poll>, j: nat, i: nat) {
    j < i < |run| && forall k :: j < k <= i ==> !run[k].retry
  }

  /** Some earlier poll of the same turn launched. */
  ghost predicate Spent(source: Source, autoStart: bool, run: seq<Poll>, i: nat)
    requires i < |run|
  {
    exists j: nat :: SameTurn(run, j, i) && At(source, autoStart, run, j).launched
  }

  /** A poll's start is still due exactly when no earlier poll of its turn launched. */
  lemma {:induction false} DueUntilSpent(source: Source, autoStart: bool, run: seq<Poll>, i: nat)
    requires !source.Demo? && i < |run|
    ensures Retried(StartAfter(source, autoStart, run[..i]), run[i]).Due? <==> !Spent(source, autoStart, run, i)
  {
    if run[i].retry {
      assert forall j: nat :: !SameTurn(run, j, i);
    } else if i > 0 {
      DueUntilSpent(source, autoStart, run, i - 1);
      DueAfter(source, autoStart, run, i - 1);
      SpentStep(source, autoStart, run, i - 1);
    } else {
      assert run[..0] == [];
    }
  }

  lemma DueAfter(source: Source, autoStart: bool, run: seq<Poll>, i: nat)
    requires !source.Demo? && i < |run|
    ensures StartAfter(source, autoStart, run[..i + 1]).Due? <==>
            Retried(StartAfter(source, autoStart, run[..i]), run[i]).Due? && !At(source, autoStart, run, i).launched
    ensures At(source, autoStart, run, i).launched ==> Retried(StartAfter(source, autoStart, run[..i]), run[i]).Due?
  {
    assert run[..i + 1][..i] == run[..i];
    RunReads(source, autoStart, run[..i]);
    StepReads(source, autoStart, After(source, autoStart, run[..i]), StartAfter(source, autoStart, run[..i]), run[i]);
  }

  lemma SpentStep(source: Source, autoStart: bool, run: seq<Poll>, i: nat)
    requires i + 1 < |run| && !run[i + 1].retry
    ensures Spent(source, autoStart, run, i + 1) <==>
            Spent(source, autoStart, run, i) || At(source, autoStart, run, i).launched
  {
    hide At;
    if Spent(source, autoStart, run, i) {
      var j: nat :| SameTurn(run, j, i) && At(source, autoStart, run, j).launched;
      assert SameTurn(run, j, i + 1);
    }
    if At(source, autoStart, run, i).launched {
      assert SameTurn(run, i, i + 1);
    }
    if Spent(source, autoStart, run, i + 1) {
      var j: nat :| SameTurn(run, j, i + 1) && At(source, autoStart, run, j).launched;
      assert j == i || SameTurn(run, j, i);
    }
  }

  /** Over every run: a poll launches exactly when the source is a local one that may
      start, no manager answers, a CLI is found, and no launch was made since the last
      retry. An attempt that found no CLI does not count. */
  lemma LaunchesExactly(source: Source, autoStart: bool, run: seq<Poll>, i: nat)
    requires i < |run|
    ensures At(source, autoStart, run, i).launched <==>
            Wanted(source, autoStart, run[i]) && run[i].found && !Spent(source, autoStart, run, i)
  {
    if !source.Demo? {
      RunReads(source, autoStart, run[..i]);
      StepReads(source, autoStart, After(source, autoStart, run[..i]), StartAfter(source, autoStart, run[..i]), run[i]);
      DueUntilSpent(source, autoStart, run, i);
    }
  }

  /** At most one launch more than retries, over any run. */
  lemma {:induction false} LaunchesAreFew(source: Source, autoStart: bool, run: seq<Poll>)
    ensures Launches(source, autoStart, run) <= 1 + Retries(run)
    ensures !(source.Local? && autoStart) ==> Launches(source, autoStart, run) == 0
  {
    if source.Demo? || !(source.Local? && autoStart) {
      NoLaunches(source, autoStart, run);
    } else {
      LaunchBudget(source, autoStart, run);
    }
  }

  lemma {:induction false} NoLaunches(source: Source, autoStart: bool, run: seq<Poll>)
    requires !(source.Local? && autoStart)
    ensures Launches(source, autoStart, run) == 0
  {
    if run != [] {
      NoLaunches(source, autoStart, run[..|run| - 1]);
      LaunchesExactly(source, autoStart, run, |run| - 1);
    }
  }

  /** The launches made and the one still due never exceed the retries and the first. */
  lemma {:induction false} LaunchBudget(source: Source, autoStart: bool, run: seq<Poll>)
    requires !source.Demo?
    ensures
      var due := if StartAfter(source, autoStart, run).Due? then 1 else 0;
      Launches(source, autoStart, run) + due <= 1 + Retries(run)
  {
    if run != [] {
      var last := |run| - 1;
      LaunchBudget(source, autoStart, run[..last]);
      DueAfter(source, autoStart, run, last);
      assert run[..last + 1] == run;
    }
  }

  // ---------------------------------------------------------- what a latched poll says

  /** The message the launch that used the start earned: its refusal, or the default
      once it started or a read has answered. */
  function Earned(start: Start): Notice
    requires start.Used?
  {
    if start.launch.Refused? && !start.answered then Said(start.launch.message) else Manual
  }

  /** A latched poll repeats the launch's refusal, except that a launch which started
      after a missing-CLI attempt leaves that attempt's message until a read answers. */
  lemma LatchedMessage(source: Source, autoStart: bool, run: seq<Poll>, i: nat)
    requires i < |run| && Wanted(source, autoStart, run[i])
    requires Retried(StartAfter(source, autoStart, run[..i]), run[i]).Used?
    ensures
      var start := StartAfter(source, autoStart, run[..i]);
      At(source, autoStart, run, i).outcome == Err(Unavailable(Earned(start))) <==>
      start.answered || start.launch.Refused? || !start.missed
  {
    RunReads(source, autoStart, run[..i]);
  }

  /** A run where it does not: no CLI, then one that starts the manager, then no manager. */
  lemma StaleMessage()
    ensures
      var none := Poll(false, Absent("absent"), false, Started, Absent("absent"));
      var found := none.(found := true, second := Answer("ready"));
      At(Local("socket"), true, [none, found, found], 2).outcome == Err(Unavailable(NoCli))
  {
    var none := Poll(false, Absent("absent"), false, Started, Absent("absent"));
    var found := none.(found := true, second := Answer("ready"));
    var run := [none, found, found];
    assert run[..2] == [none, found] && run[..2][..1] == [none] && run[..1][..0] == [];
    assert After(Local("socket"), true, []) == NEW;
    assert After(Local("socket"), true, [none]) == Latch(true, Some(NoCli), true) by { assert [none][..0] == []; }
    assert After(Local("socket"), true, [none, found]) == Latch(true, Some(NoCli), false) by {
      assert [none, found][..1] == [none];
    }
  }

  // ---------------------------------------------------------- the connector

  /** The notice a latched poll shows. */
  function Latched(start: Start): Notice {
    if start.Due? || start.answered then Manual
    else if start.launch.Refused? then Said(start.launch.message)
    else if start.missed then NoCli else Manual
  }

  /** What the last poll of a run returns, said of the run alone. A read that answers gives
      its value and one that fails its message, the first read unless a launch started;
      where a start is wanted, a missing CLI, a refusal or the latch is told instead. */
  ghost predicate Told(source: Source, autoStart: bool, run: seq<Poll>, outcome: Outcome)
    requires run != []
  {
    var n := |run| - 1;
    var p := run[n];
    if source.Demo? then outcome == Ok("demo")
    else match p.first
      case Answer(value) => outcome == Ok(value)
      case Failure(message) => outcome == Err(ReadError(message))
      case Absent(message) =>
        if !(source.Local? && autoStart) then outcome == Err(ReadError(message))
        else if Spent(source, autoStart, run, n) then
          outcome == Err(Unavailable(Latched(StartAfter(source, autoStart, run[..n]))))
        else if !p.found then outcome == Err(CliMissing)
        else match p.launch
          case Refused(refusal) => outcome == Err(LaunchError(refusal))
          case Started =>
            match p.second
            case Answer(value) => outcome == Ok(value)
            case Absent(again) => outcome == Err(ReadError(again))
            case Failure(again) => outcome == Err(ReadError(again))
  }

  /** What a poll added to a history comes to, said of the history alone. */
  ghost predicate Outlined(source: Source, autoStart: bool, run: seq<Poll>, outcome: Outcome, launched: bool)
    requires run != []
  {
    var last := |run| - 1;
    && Told(source, autoStart, run, outcome)
    && (launched <==>
          Wanted(source, autoStart, run[last]) && !Spent(source, autoStart, run, last) && run[last].found)
    && Launches(source, autoStart, run) <= 1 + Retries(run)
    && (!(source.Local? && autoStart) ==> Launches(source, autoStart, run) == 0)
  }

  lemma PollOutlined(source: Source, autoStart: bool, run: seq<Poll>, p: Poll)
    ensures
      var r := Step(source, autoStart, After(source, autoStart, run), p);
      After(source, autoStart, run + [p]) == r.latch && Outlined(source, autoStart, run + [p], r.outcome, r.launched)
  {
    var all := run + [p];
    assert all[..|run|] == run;
    LaunchesExactly(source, autoStart, all, |run|);
    LaunchesAreFew(source, autoStart, all);
    if !source.Demo? {
      RunReads(source, autoStart, run);
      StepReads(source, autoStart, After(source, autoStart, run), StartAfter(source, autoStart, run), p);
      DueUntilSpent(source, autoStart, all, |run|);
    }
  }

  class Connector {
    const source: Source
    const autoStart: bool
    var startAttempted: bool
    var startError: Option<Notice>
    var cliMissing: bool
    /** Every poll so far. */
    ghost var history: seq<Poll>

    function View(): Latch
      reads this
    {
      Latch(startAttempted, startError, cliMissing)
    }

    ghost predicate Valid()
      reads this
    {
      View() == After(source, autoStart, history)
    }

    constructor (source: Source, autoStart: bool)
      ensures this.source == source && this.autoStart == autoStart && Valid() && history == []
    {
      this.source, this.autoStart := source, autoStart;
      startAttempted, startError, cliMissing := false, None, false;
      history := [];
    }

    /** `snapshot` and `workspace`: the demo answers itself, the others are read. */
    method Snapshot(p: Poll) returns (outcome: Outcome, launched: bool)
      requires Valid()
      modifies this
      ensures Valid() && history == old(history) + [p]
      ensures Outlined(source, autoStart, history, outcome, launched)
    {
      if source.Demo? {
        hide After, Outlined;
        PollOutlined(source, autoStart, history, p);
        history := history + [p];
        return Ok("demo"), false;
      }
      outcome, launched := ReadManager(p);
    }

    /** `read`. */
    method ReadManager(p: Poll) returns (outcome: Outcome, launched: bool)
      requires Valid() && !source.Demo?
      modifies this
      ensures Valid() && history == old(history) + [p]
      ensures Outlined(source, autoStart, history, outcome, launched)
    {
      hide After, Outlined;
      ghost var before := View();
      PollOutlined(source, autoStart, history, p);
      outcome, launched := Try(p);
      assert Polled(View(), outcome, launched) == Step(source, autoStart, before, p);
      history := history + [p];
    }

    method Try(p: Poll) returns (outcome: Outcome, launched: bool)
      requires !source.Demo?
      modifies this`startAttempted, this`startError, this`cliMissing
      ensures Polled(View(), outcome, launched) == Step(source, autoStart, old(View()), p)
    {
      launched := false;
      if p.retry {
        startAttempted, startError, cliMissing := false, None, false;
      }
      match p.first {
        case Answer(value) =>
          startError := None;
          return Ok(value), false;
        case Absent(message) =>
          if !(source.Local? && autoStart) {
            return Err(ReadError(message)), false;
          }
        case Failure(message) =>
          return Err(ReadError(message)), false;
      }
      if startAttempted && !(cliMissing && p.found) {
        if cliMissing {
          return Err(CliMissing), false;
        }
        return Err(Unavailable(Shown(startError))), false;
      }
      startAttempted := true;
      cliMissing := !p.found;
      if !p.found {
        startError := Some(NoCli);
        return Err(CliMissing), false;
      }
      launched := true;
      if p.launch.Refused? {
        startError := Some(Said(p.launch.message));
        return Err(LaunchError(p.launch.message)), true;
      }
      outcome := Read(p.second);
    }
  }
}
