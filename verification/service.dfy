/**
 * The refresh service: a PID file that says whether the scheduler runs in
 * the background, the start, stop, restart and status commands built on
 * it, the one-off manual refresh, and the command line that picks one.
 */
module RefreshService {
  import opened Wrappers
  import opened Strings
  import Scheduler

  // ---------------------------------------------------------------------
  // The PID file
  // ---------------------------------------------------------------------

  /**
   * What the service sees of the machine: the PID file's text when the
   * file exists, and the ids of the processes `os.kill(pid, 0)` succeeds on.
   */
  datatype Host = Host(pidFile: Option<string>, alive: set<int>)

  /** The id in the PID file: `int(f.read().strip())`, None when there is no file or no number. */
  function ReadPid(h: Host): Option<int> {
    if h.pidFile.Some? then ParseInt(h.pidFile.value) else None
  }

  /** `is_running`: the PID file names a live process; a missing or unparsable file means not running. */
  predicate IsRunning(h: Host) {
    ReadPid(h).Some? && ReadPid(h).value in h.alive
  }

  /** A signal `stop_service` sends. */
  datatype Signal = Term(pid: int) | Kill(pid: int)

  /** What a command returned, the machine after it, and the signals it sent. */
  datatype Outcome = Outcome(ok: bool, host: Host, signals: seq<Signal>)

  /**
   * `start_service`: refuses when the service already runs; otherwise
   * launches the scheduler (`spawned` is its process id, or None when the
   * launch raised) and writes the id to the PID file.
   */
  function Start(h: Host, spawned: Option<int>): (r: Outcome)
    ensures r.signals == []
    ensures r.ok <==> !IsRunning(h) && spawned.Some?
    ensures !r.ok ==> r.host == h
    ensures r.ok ==> IsRunning(r.host) && ReadPid(r.host) == spawned && h.alive <= r.host.alive
  {
    if IsRunning(h) then Outcome(false, h, [])
    else
      match spawned
      case None => Outcome(false, h, [])
      case Some(pid) =>
        IntRoundTrip(pid);
        Outcome(true, Host(Some(IntToString(pid)), h.alive + {pid}), [])
  }

  /**
   * The scheduler the service launches gets no arguments, so, corrected or
   * not, it serves the schedule until it is interrupted.
   */
  lemma StartLaunchesScheduler(m: Scheduler.Machine, interrupt: Option<nat>)
    ensures Scheduler.SchedulerMain([], m, interrupt) == Scheduler.SchedulerMainAsWritten([], m, interrupt)
    ensures Scheduler.SchedulerMain([], m, interrupt).exit == Scheduler.ServesForever <==> interrupt.None?
  {
  }

  /**
   * `stop_service`: with the service not running it reports success and
   * touches nothing. Otherwise it sends SIGTERM, sends SIGKILL only when the
   * process survived it (`diesOnTerm` says whether it did), and removes the
   * PID file.
   */
  function Stop(h: Host, diesOnTerm: bool): (r: Outcome)
    ensures r.ok
    ensures !IsRunning(r.host)
  {
    if !IsRunning(h) then Outcome(true, h, [])
    else
      var pid := ReadPid(h).value;
      var afterTerm := if diesOnTerm then h.alive - {pid} else h.alive;
      var signals := if pid in afterTerm then [Term(pid), Kill(pid)] else [Term(pid)];
      Outcome(true, Host(None, afterTerm - {pid}), signals)
  }

  /**
   * Stopping a running service signals only its own process, TERM first
   * and KILL exactly when TERM was not enough, removes the PID file and
   * leaves every other process alone; stopping a service that is not
   * running changes nothing, a stale PID file included.
   */
  lemma StopSpec(h: Host, diesOnTerm: bool)
    ensures var r := Stop(h, diesOnTerm);
      && (!IsRunning(h) ==> r.host == h && r.signals == [])
      && (IsRunning(h) ==>
            var pid := ReadPid(h).value;
            && r.host.pidFile.None?
            && r.host.alive == h.alive - {pid}
            && |r.signals| > 0 && r.signals[0] == Term(pid)
            && (forall i :: 0 <= i < |r.signals| ==> r.signals[i].pid == pid)
            && (|r.signals| == 2 <==> !diesOnTerm))
  {
  }

  /**
   * The PID file `start_service` wrote names the launched process, whose
   * id is positive: stopping then signals that one process and leaves
   * every other process as it was before the start.
   */
  lemma StopAfterStart(h: Host, pid: int, diesOnTerm: bool)
    requires pid > 0 && !IsRunning(h)
    ensures var started := Start(h, Some(pid)).host;
      var r := Stop(started, diesOnTerm);
      && IsRunning(started)
      && (forall i :: 0 <= i < |r.signals| ==> r.signals[i] in {Term(pid), Kill(pid)})
      && r.host.alive == h.alive - {pid}
      && r.host.pidFile.None?
  {
    StopSpec(Start(h, Some(pid)).host, diesOnTerm);
  }

  /** `restart_service`: stop, then start; the result is the start's. */
  function Restart(h: Host, diesOnTerm: bool, spawned: Option<int>): (r: Outcome)
    ensures r.ok ==> IsRunning(r.host)
  {
    var stopped := Stop(h, diesOnTerm);
    var started := Start(stopped.host, spawned);
    Outcome(started.ok, started.host, stopped.signals + started.signals)
  }

  /**
   * A restart succeeds exactly when the launch does, whatever state the
   * service was in, and leaves the new process in the PID file.
   */
  lemma RestartSpec(h: Host, diesOnTerm: bool, spawned: Option<int>)
    ensures var r := Restart(h, diesOnTerm, spawned);
      && (r.ok <==> spawned.Some?)
      && (r.ok ==> ReadPid(r.host) == spawned)
      && r.signals == Stop(h, diesOnTerm).signals
  {
    assert !IsRunning(Stop(h, diesOnTerm).host);
  }

  /** Starting twice: the second start is refused and changes nothing. */
  lemma StartTwice(h: Host, first: Option<int>, second: Option<int>)
    ensures var r := Start(h, first);
      r.ok ==> Start(r.host, second) == Outcome(false, r.host, [])
  {
  }

  // ---------------------------------------------------------------------
  // The last refresh, from a log
  // ---------------------------------------------------------------------

  /** `s.split(sep)[0]`: the text before the first `sep`, or all of `s` without one. */
  function SplitHead(s: string, sep: string): (r: string)
    requires sep != ""
    ensures StartsWith(s, r)
  {
    match FindFrom(s, sep, 0)
    case None => s
    case Some(i) => s[..i]
  }

  /**
   * The head holds no separator; when `s` has one, the head and the
   * separator start `s`; when it has none, the head is all of `s`.
   */
  lemma SplitHeadSpec(s: string, sep: string)
    requires sep != ""
    ensures var r := SplitHead(s, sep);
      && !Contains(r, sep)
      && (Contains(s, sep) ==> StartsWith(s, r + sep))
      && (!Contains(s, sep) ==> r == s)
  {
    var r := SplitHead(s, sep);
    match FindFrom(s, sep, 0)
    case None =>
      assert r == s;
    case Some(i) =>
      assert r == s[..i];
      if Contains(r, sep) {
        var j :| 0 <= j <= |r| && OccursAt(r, sep, j);
        assert s[j..j + |sep|] == r[j..j + |sep|];
        assert OccursAt(s, sep, j);
        assert false;
      }
      assert s[..i + |sep|] == r + sep;
  }

  /**
   * A line that starts with a time and a separator has no separator
   * earlier: the time holds none, and its last character, a digit, cannot
   * begin or continue one.
   */
  lemma NoSeparatorBefore(time: string, l: string)
    requires |time| > 0 && IsDigit(time[|time| - 1]) && !Contains(time, Scheduler.LogSeparator)
    requires StartsWith(l, time + Scheduler.LogSeparator)
    ensures forall j :: 0 <= j < |time| ==> !OccursAt(l, Scheduler.LogSeparator, j)
  {
    var sep := Scheduler.LogSeparator;
    var n := |time|;
    assert |sep| == 3 && sep[0] == ' ' && sep[1] == '-';
    assert l[..n + 3] == time + sep;
    assert l[n - 1] == time[n - 1];
    forall j | 0 <= j < n
      ensures !OccursAt(l, sep, j)
    {
      if j + 3 <= n {
        assert l[j..j + 3] == time[j..j + 3];
        assert !OccursAt(time, sep, j);
      } else if j == n - 1 {
        assert l[j..j + 3][0] == l[n - 1];
        assert l[j..j + 3][0] != sep[0];
      } else {
        assert j == n - 2;
        assert l[j..j + 3][1] == l[n - 1];
        assert l[j..j + 3][1] != sep[1];
      }
    }
  }

  /**
   * A log line's time field comes back whole: a time that ends in a digit
   * and holds no separator is everything before the line's first separator.
   */
  lemma SplitHeadOfLogLine(time: string, logger: string, level: string, message: string)
    requires |time| > 0 && IsDigit(time[|time| - 1]) && !Contains(time, Scheduler.LogSeparator)
    ensures SplitHead(Scheduler.LogLine(time, logger, level, message), Scheduler.LogSeparator) == time
  {
    var sep := Scheduler.LogSeparator;
    var l := Scheduler.LogLine(time, logger, level, message);
    assert l[..|time + sep|] == time + sep;
    assert OccursAt(l, sep, |time|) by {
      assert l[|time|..|time| + |sep|] == (time + sep)[|time|..];
    }
    NoSeparatorBefore(time, l);
    assert FindFrom(l, sep, 0) == Some(|time|);
    assert l[..|time|] == time;
  }

  /** The index of the last line containing `m`. */
  function LastContaining(lines: seq<string>, m: string): (r: Option<nat>)
    ensures r.Some? ==> r.value < |lines| && Contains(lines[r.value], m)
    ensures r.Some? ==> forall j :: r.value < j < |lines| ==> !Contains(lines[j], m)
    ensures r.None? ==> forall j :: 0 <= j < |lines| ==> !Contains(lines[j], m)
  {
    if lines == [] then None
    else if Contains(lines[|lines| - 1], m) then Some(|lines| - 1)
    else LastContaining(lines[..|lines| - 1], m)
  }

  /**
   * `get_last_refresh_time` on a log (None when it cannot be read): the
   * time field of the last line that reports a finished refresh.
   */
  function GetLastRefreshTime(log: Option<seq<string>>): Option<string> {
    match log
    case None => None
    case Some(lines) =>
      match LastContaining(lines, Scheduler.RefreshDoneMessage)
      case None => None
      case Some(i) => Some(SplitHead(lines[i], Scheduler.LogSeparator))
  }

  /**
   * There is a last refresh exactly when some line reports one; it is the
   * head of the last such line and holds no separator itself.
   */
  lemma GetLastRefreshTimeSpec(lines: seq<string>)
    ensures var t := GetLastRefreshTime(Some(lines));
      && (t.Some? <==> exists i :: 0 <= i < |lines| && Contains(lines[i], Scheduler.RefreshDoneMessage))
      && (t.Some? ==> exists i :: 0 <= i < |lines| && Contains(lines[i], Scheduler.RefreshDoneMessage)
                                  && t.value == SplitHead(lines[i], Scheduler.LogSeparator)
                                  && forall j :: i < j < |lines| ==> !Contains(lines[j], Scheduler.RefreshDoneMessage))
      && (t.Some? ==> !Contains(t.value, Scheduler.LogSeparator))
  {
    var t := GetLastRefreshTime(Some(lines));
    if t.Some? {
      var i := LastContaining(lines, Scheduler.RefreshDoneMessage).value;
      SplitHeadSpec(lines[i], Scheduler.LogSeparator);
    }
  }

  /**
   * After a refresh finishes at `time`, the log's last refresh is `time`,
   * whatever came before and whatever else was logged after it.
   */
  lemma LastRefreshAfterRefresh(before: seq<string>, time: string, after: seq<string>)
    requires |time| > 0 && IsDigit(time[|time| - 1]) && !Contains(time, Scheduler.LogSeparator)
    requires forall j :: 0 <= j < |after| ==> !Contains(after[j], Scheduler.RefreshDoneMessage)
    ensures GetLastRefreshTime(Some(before + [Scheduler.RefreshDoneLine(time)] + after)) == Some(time)
  {
    var lines := before + [Scheduler.RefreshDoneLine(time)] + after;
    var k := |before|;
    assert lines[k] == Scheduler.RefreshDoneLine(time);
    assert Contains(lines[k], Scheduler.RefreshDoneMessage);
    assert forall j :: k < j < |lines| ==> lines[j] == after[j - k - 1];
    SplitHeadOfLogLine(time, Scheduler.LoggerName, "INFO", Scheduler.RefreshDoneMessage);
  }

  // ---------------------------------------------------------------------
  // Status
  // ---------------------------------------------------------------------

  /** What `status` reports: the result and the last refresh it logs, if any. */
  datatype StatusReport = StatusReport(ok: bool, lastRefresh: Option<string>)

  /**
   * `status` reading its last refresh from `log` (None when the log is
   * missing or unreadable): running or not, and an empty time is not shown.
   */
  function StatusOf(h: Host, log: Option<seq<string>>): (r: StatusReport)
    ensures r.ok <==> IsRunning(h)
    ensures r.lastRefresh.Some? ==> r.ok && r.lastRefresh.value != ""
  {
    if !IsRunning(h) then StatusReport(false, None)
    else
      var t := GetLastRefreshTime(log);
      StatusReport(true, if t.Some? && t.value != "" then t else None)
  }

  /**
   * The two logs: the service's own, where `status` looks as written, and
   * the scheduler's, where a refresh reports that it finished.
   */
  datatype Logs = Logs(service: Option<seq<string>>, scheduler: Option<seq<string>>)

  /** `status` as written: it searches the service's own log. */
  function StatusAsWritten(h: Host, logs: Logs): StatusReport {
    StatusOf(h, logs.service)
  }

  /** `status` reading the log the refresh writes to. */
  function Status(h: Host, logs: Logs): StatusReport {
    StatusOf(h, logs.scheduler)
  }

  /**
   * A running service whose scheduler has just finished a refresh: as
   * written, `status` shows no last refresh, since the completion line is
   * only in the scheduler's log.
   */
  lemma StatusAsWrittenMissesRefresh(time: string)
    requires |time| > 0 && IsDigit(time[|time| - 1]) && !Contains(time, Scheduler.LogSeparator)
    ensures var h := Host(Some("7"), {7});
      var logs := Logs(Some([]), Some([Scheduler.RefreshDoneLine(time)]));
      && IsRunning(h)
      && StatusAsWritten(h, logs).lastRefresh == None
      && Status(h, logs).lastRefresh == Some(time)
  {
    var h := Host(Some("7"), {7});
    IntRoundTrip(7);
    assert IntToString(7) == "7";
    LastRefreshAfterRefresh([], time, []);
    assert [] + [Scheduler.RefreshDoneLine(time)] + [] == [Scheduler.RefreshDoneLine(time)];
  }

  /** A running service shows the time of the last refresh its scheduler logged. */
  lemma StatusShowsLastRefresh(h: Host, before: seq<string>, time: string, after: seq<string>)
    requires IsRunning(h)
    requires |time| > 0 && IsDigit(time[|time| - 1]) && !Contains(time, Scheduler.LogSeparator)
    requires forall j :: 0 <= j < |after| ==> !Contains(after[j], Scheduler.RefreshDoneMessage)
    ensures forall service :: Status(h, Logs(service, Some(before + [Scheduler.RefreshDoneLine(time)] + after)))
                              == StatusReport(true, Some(time))
  {
    LastRefreshAfterRefresh(before, time, after);
  }

  // ---------------------------------------------------------------------
  // Manual refresh and the command line
  // ---------------------------------------------------------------------

  /** What `subprocess.run` gives back: the exit, or nothing when the child never ends. */
  datatype Waited = Returned(ok: bool) | Blocks

  /** `run_manual_refresh`, waiting for a scheduler run that ends as `e`. */
  function RunManualRefresh(e: Scheduler.SchedulerExit): (w: Waited)
    ensures w.Returned? <==> e.Exits?
    ensures w.Returned? ==> w.ok == e.ok
  {
    match e
    case ServesForever => Blocks
    case Exits(ok) => Returned(ok)
  }

  /** The arguments `run_manual_refresh` passes to the scheduler. */
  const ManualRefreshArgs := [Scheduler.RefreshNowFlag]

  /**
   * As written, a manual refresh waits on a scheduler that ignores the flag
   * and serves: with no interrupt it is still serving after any number of
   * rounds and the refresh never returns. When someone interrupts it, the
   * refresh returns success whether or not the refresh itself worked.
   */
  lemma ManualRefreshBlocks(m: Scheduler.Machine, interrupt: Option<nat>)
    ensures var run := Scheduler.SchedulerMainAsWritten(ManualRefreshArgs, m, interrupt);
      && run.initial == Scheduler.RefreshCalls(m)
      && (interrupt.None? ==> (forall n: nat :: Scheduler.Serve(n, interrupt) == Scheduler.Serving(n))
                              && RunManualRefresh(run.exit) == Blocks)
      && (interrupt.Some? ==> RunManualRefresh(run.exit) == Returned(true))
  {
  }

  /** With the flag honoured, a manual refresh returns whether the refresh got through the database update. */
  lemma ManualRefreshReturns(m: Scheduler.Machine, interrupt: Option<nat>)
    ensures var run := Scheduler.SchedulerMain(ManualRefreshArgs, m, interrupt);
      RunManualRefresh(run.exit) == Returned(Scheduler.RefreshSucceeded(m))
  {
    assert Scheduler.RefreshNowFlag in ManualRefreshArgs;
  }

  /** A command of `refresh_service.py`. */
  datatype Command =
    | StartCommand | StopCommand | RestartCommand | StatusCommand | RefreshCommand
    | UnknownCommand(name: string)
    | NoCommand

  /** `main`'s choice: the first argument, lower-cased; none prints the usage. */
  function ParseCommand(argv: seq<string>): (c: Command)
    ensures c == NoCommand <==> |argv| < 2
    ensures c.UnknownCommand? ==> c.name == Lower(argv[1])
  {
    if |argv| < 2 then NoCommand
    else
      var name := Lower(argv[1]);
      if name == "start" then StartCommand
      else if name == "stop" then StopCommand
      else if name == "restart" then RestartCommand
      else if name == "status" then StatusCommand
      else if name == "refresh" then RefreshCommand
      else UnknownCommand(name)
  }

  /** The command names are already lower case. */
  lemma LowerRefresh()
    ensures Lower("refresh") == "refresh"
  {
  }

  /**
   * Commands ignore case and extra arguments, and an unknown command is
   * none of the five names.
   */
  lemma ParseCommandSpec(argv: seq<string>)
    requires |argv| >= 2
    ensures ParseCommand(argv) == ParseCommand(argv[..2])
    ensures ParseCommand(argv) == ParseCommand(argv[1 := Lower(argv[1])])
    ensures ParseCommand(argv).UnknownCommand? ==>
      ParseCommand(argv).name !in {"start", "stop", "restart", "status", "refresh"}
  {
    LowerIdempotent(argv[1]);
    assert argv[1 := Lower(argv[1])][1] == Lower(argv[1]);
  }

  /**
   * What the machine answers during one command: whether the scheduler
   * dies on SIGTERM, the id of a launched process, the two logs, and, for a
   * manual refresh, the scheduler child's machine and interrupt.
   */
  datatype Env = Env(diesOnTerm: bool, spawned: Option<int>, logs: Logs,
                     child: Scheduler.Machine, interrupt: Option<nat>)

  /** What `main` reports. */
  datatype Reply = Result(ok: bool) | Reported(status: StatusReport) | Waiting(w: Waited) | Usage | Unknown(name: string)

  /**
   * `main` as written: the chosen command run against the machine. Only
   * start, stop and restart touch the service or send signals; `status`
   * searches the service's own log and `refresh` waits on the scheduler as
   * written.
   */
  function Main(argv: seq<string>, h: Host, env: Env): (r: (Host, seq<Signal>, Reply))
    ensures ParseCommand(argv) == StartCommand ==>
      var o := Start(h, env.spawned); r == (o.host, o.signals, Result(o.ok))
    ensures ParseCommand(argv) == StopCommand ==>
      var o := Stop(h, env.diesOnTerm); r == (o.host, o.signals, Result(o.ok))
    ensures ParseCommand(argv) == RestartCommand ==>
      var o := Restart(h, env.diesOnTerm, env.spawned); r == (o.host, o.signals, Result(o.ok))
    ensures ParseCommand(argv) !in {StartCommand, StopCommand, RestartCommand} ==> r.0 == h && r.1 == []
    ensures ParseCommand(argv) == StatusCommand ==> r.2 == Reported(StatusAsWritten(h, env.logs))
    ensures ParseCommand(argv) == RefreshCommand ==>
      r.2 == Waiting(RunManualRefresh(Scheduler.SchedulerMainAsWritten(ManualRefreshArgs, env.child, env.interrupt).exit))
    ensures |argv| < 2 ==> r.2 == Usage
    ensures ParseCommand(argv).UnknownCommand? ==> r.2 == Unknown(Lower(argv[1]))
  {
    match ParseCommand(argv)
    case StartCommand =>
      var o := Start(h, env.spawned); (o.host, o.signals, Result(o.ok))
    case StopCommand =>
      var o := Stop(h, env.diesOnTerm); (o.host, o.signals, Result(o.ok))
    case RestartCommand =>
      var o := Restart(h, env.diesOnTerm, env.spawned); (o.host, o.signals, Result(o.ok))
    case StatusCommand => (h, [], Reported(StatusAsWritten(h, env.logs)))
    case RefreshCommand =>
      (h, [], Waiting(RunManualRefresh(Scheduler.SchedulerMainAsWritten(ManualRefreshArgs, env.child, env.interrupt).exit)))
    case UnknownCommand(name) => (h, [], Unknown(name))
    case NoCommand => (h, [], Usage)
  }

  /**
   * `main` with both corrections: `status` reads the scheduler's log and
   * `refresh` runs a scheduler that honours `--refresh-now`. Every other
   * command is as written.
   */
  function MainCorrected(argv: seq<string>, h: Host, env: Env): (r: (Host, seq<Signal>, Reply))
    ensures ParseCommand(argv) !in {StatusCommand, RefreshCommand} ==> r == Main(argv, h, env)
    ensures ParseCommand(argv) == StatusCommand ==> r == (h, [], Reported(Status(h, env.logs)))
    ensures ParseCommand(argv) == RefreshCommand ==>
      r == (h, [], Waiting(Returned(Scheduler.RefreshSucceeded(env.child))))
  {
    match ParseCommand(argv)
    case StatusCommand => (h, [], Reported(Status(h, env.logs)))
    case RefreshCommand =>
      ManualRefreshReturns(env.child, env.interrupt);
      (h, [], Waiting(RunManualRefresh(Scheduler.SchedulerMain(ManualRefreshArgs, env.child, env.interrupt).exit)))
    case _ => Main(argv, h, env)
  }

  /**
   * `refresh_service.py refresh` as written does not come back unless the
   * scheduler is interrupted; corrected, it reports the refresh.
   */
  lemma MainRefreshBlocks(h: Host, env: Env)
    requires env.interrupt.None?
    ensures Main(["refresh_service.py", "refresh"], h, env).2 == Waiting(Blocks)
    ensures MainCorrected(["refresh_service.py", "refresh"], h, env).2 == Waiting(Returned(Scheduler.RefreshSucceeded(env.child)))
  {
    LowerRefresh();
    ManualRefreshBlocks(env.child, env.interrupt);
  }

  /** After `stop`, whichever command line spelled it, the service is not running. */
  lemma MainStopStops(argv: seq<string>, h: Host, env: Env)
    requires ParseCommand(argv) == StopCommand
    ensures !IsRunning(Main(argv, h, env).0)
  {
  }
}
