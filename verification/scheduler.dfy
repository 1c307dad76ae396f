/**
 * The refresh scheduler: which steps one refresh runs and in what order,
 * how a step finds its script, the three daily jobs it registers, and how
 * it renders the next run time.
 */
module Scheduler {
  import opened Wrappers
  import opened Strings

  // ---------------------------------------------------------------------
  // Running one script
  // ---------------------------------------------------------------------

  /** The scrapers, in the order `refresh_all_tenders` runs them. */
  const ScraperNames: seq<string> := ["mr_gov_il", "wizbiz", "govi"]

  /** `SCRAPERS_DIR / f"{scraper_name}_scraper.py"`, relative to the project root. */
  function ScraperPath(name: string): string {
    "scrapers/" + name + "_scraper.py"
  }

  const ProcessorPath := "scrapers/unified_processor.py"
  const InitDbPath := "database/init_db.py"

  /**
   * What the machine answers about scripts: which files exist, and which
   * of them exit with status 0 when run.
   */
  datatype Machine = Machine(files: set<string>, exitsOk: set<string>)

  /** One `run_*` call: whether it started a subprocess, and what it returned. */
  datatype ScriptRun = ScriptRun(launched: bool, ok: bool)

  /**
   * `run_scraper`, `run_processor` and `update_database`: a missing file
   * returns False before any subprocess; otherwise the script runs and
   * `check=True` turns a non-zero exit into False.
   */
  function RunScript(m: Machine, path: string): (r: ScriptRun)
    ensures r.launched <==> path in m.files
    ensures r.ok <==> r.launched && path in m.exitsOk
  {
    if path !in m.files then ScriptRun(false, false) else ScriptRun(true, path in m.exitsOk)
  }

  /** `run_scraper(name)`. */
  function RunScraper(m: Machine, name: string): ScriptRun {
    RunScript(m, ScraperPath(name))
  }

  /**
   * `run_scraper` targets its own file: different names give different
   * paths, and a scraper whose file is missing returns False without
   * starting a subprocess.
   */
  lemma RunScraperSpec(m: Machine, name: string, other: string)
    ensures name != other ==> ScraperPath(name) != ScraperPath(other)
    ensures ScraperPath(name) !in m.files ==> RunScraper(m, name) == ScriptRun(false, false)
    ensures RunScraper(m, name).ok <==> ScraperPath(name) in m.files && ScraperPath(name) in m.exitsOk
  {
    if ScraperPath(name) == ScraperPath(other) {
      var p, q := ScraperPath(name), ScraperPath(other);
      var n := |"scrapers/"|;
      assert |name| == |other|;
      assert name == p[n..n + |name|];
      assert other == q[n..n + |other|];
    }
  }

  // ---------------------------------------------------------------------
  // One refresh
  // ---------------------------------------------------------------------

  /** A call `refresh_all_tenders` makes. */
  datatype Step = Scrape(name: string) | Process | UpdateDatabase

  /**
   * `refresh_all_tenders` with the three step functions answered by
   * `scraperOk` and `processorOk`: every scraper runs, whatever the others
   * returned; the processor runs when at least one scraper succeeded, and
   * the database update runs when the processor returned True.
   */
  method RefreshAllTenders(scraperOk: string -> bool, processorOk: bool) returns (calls: seq<Step>)
    ensures |calls| >= 3 && calls[..3] == [Scrape("mr_gov_il"), Scrape("wizbiz"), Scrape("govi")]
    ensures forall i :: 3 <= i < |calls| ==> !calls[i].Scrape?
    ensures Process in calls <==> exists i :: 0 <= i < |ScraperNames| && scraperOk(ScraperNames[i])
    ensures UpdateDatabase in calls <==> Process in calls && processorOk
    ensures Process !in calls ==> calls == calls[..3]
    ensures Process in calls && UpdateDatabase !in calls ==> calls == calls[..3] + [Process]
    ensures Process in calls && UpdateDatabase in calls ==> calls == calls[..3] + [Process, UpdateDatabase]
  {
    calls := [];
    var successCount := 0;
    var i := 0;
    while i < |ScraperNames|
      invariant 0 <= i <= |ScraperNames|
      invariant |calls| == i && forall j :: 0 <= j < i ==> calls[j] == Scrape(ScraperNames[j])
      invariant successCount >= 0
      invariant successCount > 0 <==> exists j :: 0 <= j < i && scraperOk(ScraperNames[j])
    {
      calls := calls + [Scrape(ScraperNames[i])];
      if scraperOk(ScraperNames[i]) {
        successCount := successCount + 1;
      }
      i := i + 1;
    }
    assert calls == [Scrape("mr_gov_il"), Scrape("wizbiz"), Scrape("govi")];
    if successCount > 0 {
      calls := calls + [Process];
      if processorOk {
        calls := calls + [UpdateDatabase];
      }
    }
  }

  /** With every step succeeding: the three scrapers in order, then one processor run and one database update. */
  method RefreshAllSucceed() returns (calls: seq<Step>)
    ensures calls == [Scrape("mr_gov_il"), Scrape("wizbiz"), Scrape("govi"), Process, UpdateDatabase]
  {
    calls := RefreshAllTenders(_ => true, true);
    assert Process in calls by {
      assert (_ => true)(ScraperNames[0]);
    }
  }

  /**
   * `refresh_all_tenders` on a machine: the step functions answer with
   * what their scripts do there.
   */
  method RefreshOn(m: Machine) returns (calls: seq<Step>)
    ensures Process in calls <==> AnyScraperOk(m)
    ensures UpdateDatabase in calls <==> Process in calls && RunScript(m, ProcessorPath).ok
    ensures calls == RefreshCalls(m)
  {
    calls := RefreshAllTenders(n => RunScraper(m, n).ok, RunScript(m, ProcessorPath).ok);
  }

  /** Some scraper's script exists on `m` and exits with status 0. */
  predicate AnyScraperOk(m: Machine) {
    exists i :: 0 <= i < |ScraperNames| && RunScraper(m, ScraperNames[i]).ok
  }

  /**
   * The calls of one refresh on `m`, case by case: the three scrapes, then
   * the processor when a scraper succeeded, then the database update when
   * the processor succeeded too.
   */
  function RefreshCalls(m: Machine): seq<Step> {
    var scrapes := [Scrape("mr_gov_il"), Scrape("wizbiz"), Scrape("govi")];
    if !AnyScraperOk(m) then scrapes
    else if !RunScript(m, ProcessorPath).ok then scrapes + [Process]
    else scrapes + [Process, UpdateDatabase]
  }

  // ---------------------------------------------------------------------
  // The log and the script's entry point
  // ---------------------------------------------------------------------

  /** The separator between the fields of a log line. */
  const LogSeparator := " - "

  /** The scheduler's logger name. */
  const LoggerName := "tenders_scheduler"

  /** The message `refresh_all_tenders` logs when a refresh is over. */
  const RefreshDoneMessage := "תהליך רענון המכרזים הסתיים"

  /** A line of the `%(asctime)s - %(name)s - %(levelname)s - %(message)s` log format. */
  function LogLine(time: string, logger: string, level: string, message: string): (l: string)
    ensures StartsWith(l, time + LogSeparator)
    ensures Contains(l, message)
  {
    var head := time + LogSeparator + logger + LogSeparator + level + LogSeparator;
    assert OccursAt(head + message + "\n", message, |head|) by {
      assert (head + message + "\n")[|head|..|head| + |message|] == message;
    }
    assert (head + message + "\n")[..|time + LogSeparator|] == time + LogSeparator;
    head + message + "\n"
  }

  /** The line a finished refresh leaves in the scheduler's log, logged at `time`. */
  function RefreshDoneLine(time: string): string {
    LogLine(time, LoggerName, "INFO", RefreshDoneMessage)
  }

  /** How a run of the scheduler script ends, for whoever waits for it. */
  datatype SchedulerExit = ServesForever | Exits(ok: bool)

  /**
   * One run of the script: the schedule it set up, the calls of the
   * refresh it made before serving, and how it ended.
   */
  datatype SchedulerRun = SchedulerRun(schedule: seq<Job>, initial: seq<Step>, exit: SchedulerExit)

  /** The argument the service passes for a one-off refresh. */
  const RefreshNowFlag := "--refresh-now"

  /** The serving loop after some rounds: still in it, or left it at an interrupted round. */
  datatype LoopState = Serving(rounds: nat) | Left(rounds: nat)

  /**
   * The first `n` rounds of `while True: schedule.run_pending();
   * time.sleep(60)`. `interrupt` is the round in which a KeyboardInterrupt
   * or another exception escapes, if any; both are caught and end the loop.
   */
  function Serve(n: nat, interrupt: Option<nat>): (s: LoopState)
    ensures s.Left? <==> interrupt.Some? && interrupt.value < n
    ensures s.Left? ==> s.rounds == interrupt.value
    ensures s.Serving? ==> s.rounds == n
  {
    if n == 0 then Serving(0)
    else
      match Serve(n - 1, interrupt)
      case Left(k) => Left(k)
      case Serving(k) => if interrupt == Some(k) then Left(k) else Serving(k + 1)
  }

  /** The loop serves through every round exactly when nothing interrupts it. */
  lemma ServesUntilInterrupted(interrupt: Option<nat>)
    ensures (forall n: nat :: Serve(n, interrupt).Serving?) <==> interrupt.None?
  {
    if interrupt.None? {
      forall n: nat
        ensures Serve(n, interrupt).Serving?
      {
        assert !Serve(n, interrupt).Left?;
      }
    } else {
      assert Serve(interrupt.value + 1, interrupt).Left?;
    }
  }

  /**
   * `main` as written, in a new process (its schedule starts empty): it
   * never looks at `args`, sets up the three daily jobs, refreshes once and
   * then serves. It ends only when the loop is interrupted, and then it
   * returns normally, so the process exits with status 0.
   */
  function SchedulerMainAsWritten(args: seq<string>, m: Machine, interrupt: Option<nat>): (run: SchedulerRun)
    ensures run.schedule == SetupSchedule([]) && run.initial == RefreshCalls(m)
    ensures run.exit == ServesForever <==> forall n: nat :: Serve(n, interrupt).Serving?
    ensures run.exit.Exits? ==> run.exit.ok
  {
    ServesUntilInterrupted(interrupt);
    SchedulerRun(SetupSchedule([]), RefreshCalls(m), if interrupt.None? then ServesForever else Exits(true))
  }

  /** The arguments make no difference to the scheduler as written, `--refresh-now` included. */
  lemma SchedulerIgnoresArgs(args: seq<string>, m: Machine, interrupt: Option<nat>)
    ensures SchedulerMainAsWritten(args, m, interrupt) == SchedulerMainAsWritten([RefreshNowFlag], m, interrupt)
    ensures SchedulerMainAsWritten(args, m, interrupt) == SchedulerMainAsWritten([], m, interrupt)
  {
  }

  /** One refresh succeeded: the database update ran and its script exited with status 0. */
  predicate RefreshSucceeded(m: Machine) {
    AnyScraperOk(m) && RunScript(m, ProcessorPath).ok && RunScript(m, InitDbPath).ok
  }

  /**
   * `main` as its callers use it: with `--refresh-now` it refreshes once
   * and exits, with status 0 exactly when the refresh got through the
   * database update; otherwise it runs as written.
   */
  function SchedulerMain(args: seq<string>, m: Machine, interrupt: Option<nat>): (run: SchedulerRun)
    ensures run.initial == RefreshCalls(m)
    ensures RefreshNowFlag in args ==> run.exit == Exits(RefreshSucceeded(m)) && run.schedule == []
    ensures RefreshNowFlag !in args ==> run == SchedulerMainAsWritten(args, m, interrupt)
  {
    if RefreshNowFlag in args then SchedulerRun([], RefreshCalls(m), Exits(RefreshSucceeded(m)))
    else SchedulerMainAsWritten(args, m, interrupt)
  }

  // ---------------------------------------------------------------------
  // The daily jobs
  // ---------------------------------------------------------------------

  /** A job of `schedule.every().day.at("HH:MM")`, running `refresh_all_tenders`. */
  datatype Job = Daily(hour: int, minute: int)

  /** A time the `at` call accepts. */
  predicate ValidJob(j: Job) {
    0 <= j.hour < 24 && 0 <= j.minute < 60
  }

  /** Two digits with a leading zero, as `%H`, `%M` and `%S` print them. */
  function Pad2(n: nat): (r: string)
    requires n < 100
    ensures |r| == 2 && AllDigits(r)
  {
    [DigitChar(n / 10), DigitChar(n % 10)]
  }

  /** The `"HH:MM"` text the job was registered with. */
  function JobClock(j: Job): string
    requires ValidJob(j)
  {
    Pad2(j.hour) + ":" + Pad2(j.minute)
  }

  const DaySeconds := 24 * 60 * 60

  /** `setup_schedule`: three more daily jobs, at 06:00, 14:00 and 22:00. */
  function SetupSchedule(jobs: seq<Job>): (r: seq<Job>)
    ensures |r| == |jobs| + 3 && r[..|jobs|] == jobs
  {
    jobs + [Daily(6, 0), Daily(14, 0), Daily(22, 0)]
  }

  /** The jobs `setup_schedule` adds are registered as "06:00", "14:00" and "22:00". */
  lemma SetupScheduleClocks(jobs: seq<Job>)
    ensures var r := SetupSchedule(jobs);
      var n := |jobs|;
      && ValidJob(r[n]) && ValidJob(r[n + 1]) && ValidJob(r[n + 2])
      && [JobClock(r[n]), JobClock(r[n + 1]), JobClock(r[n + 2])] == ["06:00", "14:00", "22:00"]
  {
    var r := SetupSchedule(jobs);
    var n := |jobs|;
    assert r[n] == Daily(6, 0) && r[n + 1] == Daily(14, 0) && r[n + 2] == Daily(22, 0);
    assert Pad2(0) == ['0', '0'] && Pad2(6) == ['0', '6'] && Pad2(14) == ['1', '4'] && Pad2(22) == ['2', '2'];
    assert JobClock(Daily(6, 0)) == ['0', '6', ':', '0', '0'] == "06:00";
    assert JobClock(Daily(14, 0)) == ['1', '4', ':', '0', '0'] == "14:00";
    assert JobClock(Daily(22, 0)) == ['2', '2', ':', '0', '0'] == "22:00";
  }

  /**
   * Seconds from `now` (seconds since midnight) to the job's next run: a
   * time already reached today runs tomorrow.
   */
  function Wait(j: Job, now: int): (w: int)
    requires ValidJob(j) && 0 <= now < DaySeconds
    ensures 0 < w <= DaySeconds
  {
    var at := (j.hour * 60 + j.minute) * 60;
    if at > now then at - now else at + DaySeconds - now
  }

  /** `schedule.next_run()`, as the wait until the earliest job; None without jobs. */
  function NextRun(jobs: seq<Job>, now: int): (r: Option<int>)
    requires forall i :: 0 <= i < |jobs| ==> ValidJob(jobs[i])
    requires 0 <= now < DaySeconds
    ensures r.None? <==> jobs == []
    ensures r.Some? ==> (exists i :: 0 <= i < |jobs| && r.value == Wait(jobs[i], now))
                        && forall i :: 0 <= i < |jobs| ==> r.value <= Wait(jobs[i], now)
  {
    if jobs == [] then None
    else
      var w := Wait(jobs[0], now);
      match NextRun(jobs[1..], now)
      case None => Some(w)
      case Some(v) =>
        assert forall i :: 1 <= i < |jobs| ==> jobs[i] == jobs[1..][i - 1];
        Some(if v < w then v else w)
  }

  /** Once the schedule is set up, the next refresh is never more than eight hours away. */
  lemma SetupScheduleEightHours(jobs: seq<Job>, now: int)
    requires forall i :: 0 <= i < |jobs| ==> ValidJob(jobs[i])
    requires 0 <= now < DaySeconds
    ensures var r := SetupSchedule(jobs);
      (forall i :: 0 <= i < |r| ==> ValidJob(r[i]))
      && NextRun(r, now).Some? && 0 < NextRun(r, now).value <= 8 * 60 * 60
  {
    var r := SetupSchedule(jobs);
    var n := |jobs|;
    assert forall i :: 0 <= i < |r| ==> ValidJob(r[i]) by {
      forall i | 0 <= i < |r| ensures ValidJob(r[i]) {
        if i < n {
          assert r[i] == jobs[i];
        }
      }
    }
    var w := NextRun(r, now).value;
    assert w <= Wait(r[n], now) && w <= Wait(r[n + 1], now) && w <= Wait(r[n + 2], now);
  }

  // ---------------------------------------------------------------------
  // `get_next_run_time`
  // ---------------------------------------------------------------------

  /** A `datetime` value (no time zone). */
  datatype DateTime = DateTime(year: int, month: int, day: int, hour: int, minute: int, second: int)

  /** The ranges every `datetime` value lies in. */
  predicate ValidDateTime(t: DateTime) {
    && 1 <= t.year <= 9999 && 1 <= t.month <= 12 && 1 <= t.day <= 31
    && 0 <= t.hour < 24 && 0 <= t.minute < 60 && 0 <= t.second < 60
  }

  /** Four digits with leading zeros, as `%Y` prints a year. */
  function Pad4(n: nat): (r: string)
    requires n < 10000
    ensures |r| == 4 && AllDigits(r)
  {
    [DigitChar(n / 1000), DigitChar(n / 100 % 10), DigitChar(n / 10 % 10), DigitChar(n % 10)]
  }

  /** `strftime("%Y-%m-%d %H:%M:%S")`. */
  function Format(t: DateTime): string
    requires ValidDateTime(t)
  {
    Pad4(t.year) + "-" + Pad2(t.month) + "-" + Pad2(t.day) + " "
    + Pad2(t.hour) + ":" + Pad2(t.minute) + ":" + Pad2(t.second)
  }

  const NotScheduled := "לא מתוזמן"

  /** `get_next_run_time`, given what `schedule.next_run()` returned. */
  function GetNextRunTime(next: Option<DateTime>): (s: string)
    requires next.Some? ==> ValidDateTime(next.value)
  {
    if next.Some? then Format(next.value) else NotScheduled
  }

  lemma Pad2Value(n: nat)
    requires n < 100
    ensures ParseDigits(Pad2(n)) == Some(n)
  {
    var r := Pad2(n);
    assert r[..1][..0] == [];
    assert DigitsValue(r[..1]) == n / 10;
  }

  lemma Pad4Value(n: nat)
    requires n < 10000
    ensures ParseDigits(Pad4(n)) == Some(n)
  {
    var r := Pad4(n);
    assert r[..1][..0] == [] && r[..2][..1] == r[..1] && r[..3][..2] == r[..2] && r[..3] == r[..4][..3];
    assert DigitsValue(r[..1]) == n / 1000;
    assert DigitsValue(r[..2]) == n / 100;
    assert DigitsValue(r[..3]) == n / 10;
    assert r[..4] == r;
  }

  /** The two halves of a concatenation come back by slicing. */
  lemma Split(a: string, b: string)
    ensures (a + b)[..|a|] == a && (a + b)[|a|..] == b
  {
  }

  /**
   * The next run time is 19 characters of the form `YYYY-MM-DD HH:MM:SS`
   * whose digit groups read back as the date and time; with nothing
   * scheduled the text is "not scheduled".
   */
  lemma GetNextRunTimeSpec(next: Option<DateTime>)
    requires next.Some? ==> ValidDateTime(next.value)
    ensures next.None? ==> GetNextRunTime(next) == NotScheduled
    ensures next.Some? ==>
      var s := GetNextRunTime(next);
      var t := next.value;
      && |s| == 19
      && s[4] == '-' && s[7] == '-' && s[10] == ' ' && s[13] == ':' && s[16] == ':'
      && ParseDigits(s[..4]) == Some(t.year) && ParseDigits(s[5..7]) == Some(t.month)
      && ParseDigits(s[8..10]) == Some(t.day) && ParseDigits(s[11..13]) == Some(t.hour)
      && ParseDigits(s[14..16]) == Some(t.minute) && ParseDigits(s[17..]) == Some(t.second)
  {
    if next.Some? {
      var t := next.value;
      var s := GetNextRunTime(next);
      var y, mo, d, h, mi, se := Pad4(t.year), Pad2(t.month), Pad2(t.day), Pad2(t.hour), Pad2(t.minute), Pad2(t.second);
      var p1 := y + "-";
      var p2 := p1 + mo;
      var p3 := p2 + "-";
      var p4 := p3 + d;
      var p5 := p4 + " ";
      var p6 := p5 + h;
      var p7 := p6 + ":";
      var p8 := p7 + mi;
      var p9 := p8 + ":";
      assert s == p9 + se;
      assert |p9| == 17;
      Split(p9, se);
      Split(p8, ":");
      Split(p7, mi);
      Split(p6, ":");
      Split(p5, h);
      Split(p4, " ");
      Split(p3, d);
      Split(p2, "-");
      Split(p1, mo);
      Split(y, "-");
      assert s[..17] == p9 && s[17..] == se;
      assert s[16] == p9[16] == ':' && s[14..16] == p9[14..16] == p8[14..] == mi;
      assert s[13] == p7[13] == ':' && s[11..13] == p6[11..] == h;
      assert s[10] == p5[10] == ' ' && s[8..10] == p4[8..] == d;
      assert s[7] == p3[7] == '-' && s[5..7] == p2[5..] == mo;
      assert s[4] == p1[4] == '-' && s[..4] == y;
      Pad4Value(t.year);
      Pad2Value(t.month);
      Pad2Value(t.day);
      Pad2Value(t.hour);
      Pad2Value(t.minute);
      Pad2Value(t.second);
    }
  }
}
