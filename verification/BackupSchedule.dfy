/**
 The automatic backup scheduler (app_core/backup_scheduler.py): when the next backup is due, and how
 configuration updates, manual backups and the background loop keep that date.

 Times are UTC instants in microseconds. The configuration lives in memory and is saved to a file; the
 loop reloads the file before every check.
 */
module BackupSchedule {
  import opened Wrappers
  import opened Sorting

  const HOUR: int := 3_600_000_000
  const DAY: int := 24 * HOUR

  datatype Config = Config(
    enabled: bool, intervalHours: int, hour: int, keepCount: int,
    lastRun: Option<int>, lastRunSuccess: Option<bool>, nextRun: Option<int>)

  const DEFAULT_CONFIG := Config(false, 24, 2, 7, None, None, None)

  function Interval(c: Config): int { Max(1, c.intervalHours) * HOUR }

  /** now.replace(hour=hour, minute=0, second=0, microsecond=0) */
  function AtHour(now: int, hour: int): int { now - now % DAY + hour * HOUR }

  predicate ValidHour(hour: int) { 0 <= hour < 24 }

  /** Recent enough that the next run follows from it alone. */
  predicate Recent(c: Config, now: int) { c.lastRun.Some? && c.lastRun.value + Interval(c) > now }

  datatype ScheduleError = HourOutOfRange

  function ComputeNextRun(c: Config, now: int): Result<int, ScheduleError> {
    if Recent(c, now) then Ok(c.lastRun.value + Interval(c))
    else if !ValidHour(c.hour) then Err(HourOutOfRange)
    else
      var today := AtHour(now, c.hour);
      var candidate := if today <= now then today + DAY else today;
      Ok(Min(candidate, now + Interval(c)))
  }

  /**
   A computed next run is always in the future, at least one interval after the last run, and, unless
   the last run is dated in the future, at most one interval away. The hour only matters, and only
   fails, when there is no recent run.
   */
  lemma NextRunBounds(c: Config, now: int)
    ensures ComputeNextRun(c, now).Err? <==>
              && (c.hour < 0 || c.hour > 23)
              && (c.lastRun.Some? ==> now >= c.lastRun.value + (if c.intervalHours >= 1 then c.intervalHours else 1) * 3_600_000_000)
    ensures ComputeNextRun(c, now).Ok? ==>
              var next := ComputeNextRun(c, now).value;
              && next > now
              && (c.lastRun.Some? ==> next >= c.lastRun.value + Interval(c))
              && (next <= now + Interval(c) <==> c.lastRun.None? || c.lastRun.value <= now)
  {
  }

  /** After a recent run the next one follows it by exactly the configured hours, one hour at least. */
  lemma NextRunFollowsTheLast(c: Config, now: int, t: int)
    requires c.lastRun == Some(t)
    ensures c.intervalHours >= 1 && now < t + c.intervalHours * 3_600_000_000 ==>
              ComputeNextRun(c, now) == Ok(t + c.intervalHours * 3_600_000_000)
    ensures c.intervalHours < 1 && now < t + 3_600_000_000 ==> ComputeNextRun(c, now) == Ok(t + 3_600_000_000)
  {
  }

  /** Without a recent run the next one comes no later than the configured hours from now. */
  lemma NextRunWithinTheHours(c: Config, now: int)
    requires ComputeNextRun(c, now).Ok? && (c.lastRun.Some? ==> c.lastRun.value <= now)
    ensures ComputeNextRun(c, now).value <= now + (if c.intervalHours >= 1 then c.intervalHours else 1) * 3_600_000_000
    ensures now < ComputeNextRun(c, now).value
    ensures c.lastRun.Some? ==> ComputeNextRun(c, now).value >= c.lastRun.value + c.intervalHours * 3_600_000_000
    ensures c.lastRun.Some? ==> ComputeNextRun(c, now).value >= c.lastRun.value + 3_600_000_000
  {
    NextRunBounds(c, now);
  }

  /** Without a recent run the next one is the first instant at the configured hour, or one interval from now. */
  lemma NextRunAtConfiguredHour(c: Config, now: int, t: int)
    requires 0 <= c.hour <= 23
    requires c.lastRun.Some? ==> now >= c.lastRun.value + (if c.intervalHours >= 1 then c.intervalHours else 1) * 3_600_000_000
    requires now < t && t % 86_400_000_000 == c.hour * 3_600_000_000
    ensures ComputeNextRun(c, now).Ok?
    ensures var next := ComputeNextRun(c, now).value;
            && next <= t
            && (next % 86_400_000_000 == c.hour * 3_600_000_000
                || next == now + (if c.intervalHours >= 1 then c.intervalHours else 1) * 3_600_000_000)
  {
    FirstAtHour(now, c.hour, t);
  }

  lemma FirstAtHour(now: int, hour: int, t: int)
    requires ValidHour(hour) && now < t && t % DAY == hour * HOUR
    ensures var today := AtHour(now, hour);
            var candidate := if today <= now then today + DAY else today;
            candidate <= t && candidate % DAY == hour * HOUR
  {
    var day, into := now / DAY, now % DAY;
    assert now == day * DAY + into;
    var k := if hour * HOUR <= into then day + 1 else day;
    TimeOfDay(k, hour * HOUR);
    SameTimeOfDay(k * DAY + hour * HOUR, t);
  }

  lemma TimeOfDay(k: int, into: int)
    requires 0 <= into < DAY
    ensures (k * DAY + into) % DAY == into
  {
  }

  lemma SameTimeOfDay(candidate: int, t: int)
    requires candidate % DAY == t % DAY && candidate - DAY < t
    ensures candidate <= t
  {
    assert candidate == DAY * (candidate / DAY) + candidate % DAY;
    assert t == DAY * (t / DAY) + t % DAY;
    assert candidate / DAY - 1 < t / DAY;
  }

  // ---------------------------------------------------------------------------
  // The scheduler's steps
  // ---------------------------------------------------------------------------

  datatype Update =
    | SetEnabled(enabled: bool)
    | SetIntervalHours(hours: int)
    | SetHour(hour: int)
    | SetKeepCount(count: int)
    | NotAllowed(key: string)     // last_run, last_run_success, next_run and unknown keys

  function Applied(c: Config, u: Update): Config {
    match u
    case SetEnabled(enabled) => c.(enabled := enabled)
    case SetIntervalHours(hours) => c.(intervalHours := hours)
    case SetHour(hour) => c.(hour := hour)
    case SetKeepCount(count) => c.(keepCount := count)
    case NotAllowed(_) => c
  }

  function Merged(c: Config, us: seq<Update>): Config {
    if us == [] then c else Applied(Merged(c, us[..|us| - 1]), us[|us| - 1])
  }

  lemma {:induction false} MergedConcat(c: Config, us: seq<Update>, more: seq<Update>)
    ensures Merged(c, us + more) == Merged(Merged(c, us), more)
  {
    if more == [] {
      assert us + more == us;
    } else {
      assert (us + more)[..|us + more| - 1] == us + more[..|more| - 1];
      MergedConcat(c, us, more[..|more| - 1]);
    }
  }

  /** Settings that no update names stay, and so does the bookkeeping. */
  lemma {:induction false} UnnamedSettingsStay(c: Config, us: seq<Update>)
    ensures var m := Merged(c, us);
            && (m.lastRun, m.lastRunSuccess, m.nextRun) == (c.lastRun, c.lastRunSuccess, c.nextRun)
            && ((forall u <- us :: !u.SetEnabled?) ==> m.enabled == c.enabled)
            && ((forall u <- us :: !u.SetIntervalHours?) ==> m.intervalHours == c.intervalHours)
            && ((forall u <- us :: !u.SetHour?) ==> m.hour == c.hour)
            && ((forall u <- us :: !u.SetKeepCount?) ==> m.keepCount == c.keepCount)
  {
    if us != [] {
      var most, last := us[..|us| - 1], us[|us| - 1];
      assert last in us && forall u <- most :: u in us;
      UnnamedSettingsStay(c, most);
    }
  }

  /** Of the updates of one kind the last one counts. */
  lemma LastSettingCounts(c: Config, us: seq<Update>, u: Update, more: seq<Update>)
    ensures var m := Merged(c, us + [u] + more);
            match u
            case SetEnabled(enabled) => (forall v <- more :: !v.SetEnabled?) ==> m.enabled == enabled
            case SetIntervalHours(hours) => (forall v <- more :: !v.SetIntervalHours?) ==> m.intervalHours == hours
            case SetHour(hour) => (forall v <- more :: !v.SetHour?) ==> m.hour == hour
            case SetKeepCount(count) => (forall v <- more :: !v.SetKeepCount?) ==> m.keepCount == count
            case NotAllowed(_) => m == Merged(c, us + more)
  {
    assert (us + [u])[..|us|] == us;
    assert Merged(c, us + [u]) == Applied(Merged(c, us), u);
    hide Merged;
    MergedConcat(c, us + [u], more);
    MergedConcat(c, us, more);
    UnnamedSettingsStay(Merged(c, us + [u]), more);
  }

  /** A scheduled backup starts at `at`, under the configuration `under` saved at that time. */
  datatype Start = Start(at: int, under: Config)

  datatype Scheduler = Scheduler(memory: Config, disk: Config, starts: seq<Start>)

  datatype Event =
    | UpdateConfig(updates: seq<Update>, now: int, saved: bool)
    | BackupDone(success: bool, ranAt: int, now: int, saved: bool) // by hand or by the loop
    | LoopCheck(now: int)
    | LoadFails                                               // the loop cannot read the file and takes the defaults

  /** Set next_run, then save; a failed computation raises before the file is written. */
  function Rescheduled(s: Scheduler, c: Config, now: int, saved: bool): Scheduler {
    match ComputeNextRun(c, now)
    case Err(_) => s.(memory := c)
    case Ok(next) =>
      var c' := c.(nextRun := Some(next));
      Scheduler(c', if saved then c' else s.disk, s.starts)
  }

  predicate ShouldRunNow(c: Config, now: int) { c.enabled && c.nextRun.Some? && now >= c.nextRun.value }

  function Step(s: Scheduler, e: Event): Scheduler {
    match e
    case UpdateConfig(updates, now, saved) =>
      var c := Merged(s.memory, updates);
      if c.enabled then Rescheduled(s, c, now, saved)
      else
        var c' := c.(nextRun := None);
        Scheduler(c', if saved then c' else s.disk, s.starts)
    case BackupDone(success, ranAt, now, saved) =>
      Rescheduled(s, s.memory.(lastRun := Some(ranAt), lastRunSuccess := Some(success)), now, saved)
    case LoadFails => s.(memory := DEFAULT_CONFIG)
    case LoopCheck(now) =>
      Scheduler(s.disk, s.disk, if ShouldRunNow(s.disk, now) then s.starts + [Start(now, s.disk)] else s.starts)
  }

  function Run(disk: Config, es: seq<Event>): Scheduler {
    if es == [] then Scheduler(disk, disk, []) else Step(Run(disk, es[..|es| - 1]), es[|es| - 1])
  }

  /** A set next run leaves a full interval after the last one. */
  predicate Spaced(c: Config) {
    c.nextRun.Some? && c.lastRun.Some? ==> c.nextRun.value >= c.lastRun.value + Interval(c)
  }

  /** Every scheduled start leaves the configured hours, and one hour at least, after the run it knows of. */
  lemma StartsLeaveTheHours(disk: Config, es: seq<Event>)
    requires Spaced(disk)
    ensures forall start <- Run(disk, es).starts ::
              && start.under.enabled
              && (start.under.lastRun.Some? ==>
                    && start.at >= start.under.lastRun.value + start.under.intervalHours * 3_600_000_000
                    && start.at >= start.under.lastRun.value + 3_600_000_000)
  {
    ScheduledRunsAreSpacedOut(disk, es);
    forall start <- Run(disk, es).starts
      ensures start.under.lastRun.Some? ==>
                && start.at >= start.under.lastRun.value + start.under.intervalHours * 3_600_000_000
                && start.at >= start.under.lastRun.value + 3_600_000_000
    {
      assert FullIntervalBefore(start);
    }
  }

  predicate FullIntervalBefore(start: Start) {
    && start.under.enabled
    && (start.under.lastRun.Some? ==> start.at >= start.under.lastRun.value + Interval(start.under))
  }

  /**
   Over every sequence of updates, finished backups and loop checks, with any clock readings and any
   failures to save or to compute, the saved schedule is properly spaced, and a scheduled backup starts
   only when enabled and never less than a full interval after the last saved run.
   */
  lemma {:induction false} ScheduledRunsAreSpacedOut(disk: Config, es: seq<Event>)
    requires Spaced(disk)
    ensures Spaced(Run(disk, es).disk)
    ensures forall start <- Run(disk, es).starts :: FullIntervalBefore(start)
  {
    if es != [] {
      ScheduledRunsAreSpacedOut(disk, es[..|es| - 1]);
    }
  }

  /** When the last backup finished, by hand or by the loop. */
  function LastRecorded(disk: Config, es: seq<Event>): Option<int> {
    if es == [] then disk.lastRun
    else if es[|es| - 1].BackupDone? then Some(es[|es| - 1].ranAt)
    else LastRecorded(disk, es[..|es| - 1])
  }

  /** Every save succeeds and every configured hour is one. */
  predicate Smooth(disk: Config, es: seq<Event>) {
    && ValidHour(disk.hour)
    && (forall e <- es | e.UpdateConfig? || e.BackupDone? :: e.saved)
    && (forall e <- es | e.UpdateConfig? :: forall u <- e.updates | u.SetHour? :: ValidHour(u.hour))
  }

  /** Memory holds the defaults of a failed load, or what was read from a file that has lost the last run. */
  predicate MemoryForgets(es: seq<Event>) {
    es != [] &&
    match es[|es| - 1]
    case LoadFails => true
    case LoopCheck(_) => FileForgets(es[..|es| - 1])
    case UpdateConfig(_, _, _) => MemoryForgets(es[..|es| - 1])
    case BackupDone(_, _, _, _) => false
  }

  /** The file has been overwritten from such a memory. */
  predicate FileForgets(es: seq<Event>) {
    es != [] &&
    match es[|es| - 1]
    case LoadFails => FileForgets(es[..|es| - 1])
    case LoopCheck(_) => FileForgets(es[..|es| - 1])
    case UpdateConfig(_, _, _) => MemoryForgets(es[..|es| - 1])
    case BackupDone(_, _, _, _) => false
  }

  predicate Reloads(e: Event) { e.LoopCheck? || e.BackupDone? }

  /** A failed load at `i` has not been followed by a good one or a backup. */
  predicate Blank(es: seq<Event>, i: nat) {
    i < |es| && es[i].LoadFails? && forall m | i < m < |es| :: !Reloads(es[m])
  }

  /** An update at `j` saves the defaults of the failed load at `i`, and no backup has finished since. */
  predicate SavedBlank(es: seq<Event>, i: nat, j: nat) {
    j < |es| && es[j].UpdateConfig? && Blank(es[..j], i) && forall m | j < m < |es| :: !es[m].BackupDone?
  }

  lemma BlankSnoc(es: seq<Event>, e: Event, i: nat)
    ensures Blank(es + [e], i) <==> (i == |es| && e.LoadFails?) || (Blank(es, i) && !Reloads(e))
  {
    var all := es + [e];
    assert all[|es|] == e && forall m | 0 <= m < |es| :: all[m] == es[m];
  }

  lemma SavedBlankSnoc(es: seq<Event>, e: Event, i: nat, j: nat)
    ensures SavedBlank(es + [e], i, j) <==>
            (j == |es| && e.UpdateConfig? && Blank(es, i)) || (SavedBlank(es, i, j) && !e.BackupDone?)
  {
    hide Blank;
    var all := es + [e];
    assert all[|es|] == e && forall m | 0 <= m < |es| :: all[m] == es[m];
    if j <= |es| {
      assert all[..j] == es[..j] && (j == |es| ==> es[..j] == es);
    }
  }

  /** The same in terms of the events alone. */
  lemma {:induction false} ForgetsIff(es: seq<Event>)
    ensures MemoryForgets(es) <==> FileForgets(es) || exists i: nat :: Blank(es, i)
    ensures FileForgets(es) <==> exists i: nat, j: nat :: SavedBlank(es, i, j)
  {
    if es != [] {
      var before, last := es[..|es| - 1], es[|es| - 1];
      assert es == before + [last];
      ForgetsIff(before);
      hide Blank, SavedBlank;
      forall i: nat ensures Blank(es, i) <==> (i == |before| && last.LoadFails?) || (Blank(before, i) && !Reloads(last)) {
        BlankSnoc(before, last, i);
      }
      forall i: nat, j: nat
        ensures SavedBlank(es, i, j) <==> (j == |before| && last.UpdateConfig? && Blank(before, i)) || (SavedBlank(before, i, j) && !last.BackupDone?)
      {
        SavedBlankSnoc(before, last, i, j);
      }
      if last.LoadFails? {
        assert Blank(es, |before|);
      }
      if last.UpdateConfig? && MemoryForgets(before) && !FileForgets(before) {
        var i: nat :| Blank(before, i);
        assert SavedBlank(es, i, |before|);
      }
    } else {
      assert forall i: nat :: !Blank(es, i);
      assert forall i: nat, j: nat :: !SavedBlank(es, i, j);
    }
  }

  lemma {:induction false} MergedHour(c: Config, us: seq<Update>)
    requires ValidHour(c.hour) && forall u <- us | u.SetHour? :: ValidHour(u.hour)
    ensures ValidHour(Merged(c, us).hour) && Merged(c, us).lastRun == c.lastRun
  {
    if us != [] {
      MergedHour(c, us[..|us| - 1]);
    }
  }

  /**
   Unless a save or an hour fails, the file holds the last finished backup exactly if no update since has
   saved the defaults of a failed load, or there is none to hold; and memory agrees with the file except
   right after a failed load.
   */
  lemma {:induction false} RecordIsKept(disk: Config, es: seq<Event>)
    requires Smooth(disk, es)
    ensures var s := Run(disk, es);
            && ValidHour(s.disk.hour) && ValidHour(s.memory.hour)
            && s.disk.lastRun == (if FileForgets(es) then None else LastRecorded(disk, es))
            && s.memory.lastRun == (if MemoryForgets(es) then None else LastRecorded(disk, es))
            && s.memory == if es != [] && es[|es| - 1].LoadFails? then DEFAULT_CONFIG else s.disk
  {
    if es != [] {
      var before, last := es[..|es| - 1], es[|es| - 1];
      assert last in es && forall e <- before :: e in es;
      RecordIsKept(disk, before);
      if last.UpdateConfig? {
        MergedHour(Run(disk, before).memory, last.updates);
      }
    }
  }

  /** Without such an update the loop starts a backup only a full interval after the last one finished, whoever ran it. */
  lemma ScheduledRunsFollowTheLastBackup(disk: Config, es: seq<Event>, now: int)
    requires Spaced(disk) && Smooth(disk, es)
    requires Run(disk, es + [LoopCheck(now)]).starts != Run(disk, es).starts
    ensures var last, c := LastRecorded(disk, es), Run(disk, es).disk;
            && c.enabled
            && (last.Some? && (forall i: nat, j: nat :: !SavedBlank(es, i, j)) ==>
                  now >= last.value + Interval(c) && now >= last.value + HOUR)
  {
    assert (es + [LoopCheck(now)])[..|es|] == es;
    ScheduledRunsAreSpacedOut(disk, es);
    RecordIsKept(disk, es);
    ForgetsIff(es);
  }

  /** A failed load loses the last run and the settings, and the next backup starts an hour after the last one. */
  lemma FailedLoadLosesTheRecord(success: bool)
    ensures var disk := DEFAULT_CONFIG.(enabled := true, hour := 3);
            var es := [BackupDone(success, 2 * HOUR, 2 * HOUR, true), LoadFails,
                       UpdateConfig([SetEnabled(true), SetHour(3)], 2 * HOUR + 1, true)];
            && Smooth(disk, es) && SavedBlank(es, 1, 2)
            && LastRecorded(disk, es) == Some(2 * HOUR) && Run(disk, es).disk.lastRun == None
            && Run(disk, es + [LoopCheck(3 * HOUR)]).starts == [Start(3 * HOUR, Run(disk, es).disk)]
  {
    var disk := DEFAULT_CONFIG.(enabled := true, hour := 3);
    var done, fail := BackupDone(success, 2 * HOUR, 2 * HOUR, true), LoadFails;
    var updates := [SetEnabled(true), SetHour(3)];
    var update, check := UpdateConfig(updates, 2 * HOUR + 1, true), LoopCheck(3 * HOUR);
    var es := [done, fail, update];
    assert (es + [check])[..3] == es && es[..2] == [done, fail] && [done, fail][..1] == [done] && [done][..0] == [];
    assert updates[..1] == [SetEnabled(true)] && updates[..1][..0] == [];
    assert Merged(DEFAULT_CONFIG, updates[..1]) == DEFAULT_CONFIG.(enabled := true);
    assert Merged(DEFAULT_CONFIG, updates) == disk;
    var saved := disk.(lastRun := Some(2 * HOUR), lastRunSuccess := Some(success), nextRun := Some(26 * HOUR));
    var blank := disk.(nextRun := Some(3 * HOUR));
    assert Run(disk, [done]) == Scheduler(saved, saved, []);
    assert Run(disk, [done, fail]) == Scheduler(DEFAULT_CONFIG, saved, []);
    assert ComputeNextRun(disk, 2 * HOUR + 1) == Ok(3 * HOUR);
    assert Run(disk, es) == Scheduler(blank, blank, []);
    assert LastRecorded(disk, [done]) == Some(2 * HOUR) && LastRecorded(disk, [done, fail]) == Some(2 * HOUR);
    assert Blank(es[..2], 1);
  }

  /** The run without its failed loads. */
  function GoodLoads(es: seq<Event>): seq<Event> {
    if es == [] then [] else
      GoodLoads(es[..|es| - 1]) + if es[|es| - 1].LoadFails? then [] else [es[|es| - 1]]
  }

  /** Nothing else is left out or moved. */
  lemma {:induction false} GoodLoadsInOrder(es: seq<Event>, more: seq<Event>, e: Event)
    ensures GoodLoads(es + more) == GoodLoads(es) + GoodLoads(more)
    ensures GoodLoads([e]) == if e.LoadFails? then [] else [e]
  {
    assert [e][..0] == [];
    if more == [] {
      assert es + more == es;
    } else {
      GoodLoadsInOrder(es, more[..|more| - 1], e);
      assert (es + more)[..|es + more| - 1] == es + more[..|more| - 1];
    }
  }

  /** No update or backup comes between a failed load and the next good one. */
  predicate Unclobbered(es: seq<Event>) {
    es == [] ||
    (Unclobbered(es[..|es| - 1]) && (es[|es| - 1].UpdateConfig? || es[|es| - 1].BackupDone? ==> !Unread(es[..|es| - 1])))
  }

  predicate Unread(es: seq<Event>) {
    es != [] && (es[|es| - 1].LoadFails? || (!es[|es| - 1].LoopCheck? && Unread(es[..|es| - 1])))
  }

  lemma UnreadSince(es: seq<Event>, e: Event, i: int)
    requires 0 <= i <= |es|
    ensures ((es + [e])[i].LoadFails? && forall m | i < m < |es + [e]| :: !(es + [e])[m].LoopCheck?)
       <==> (i == |es| && e.LoadFails?)
            || (i < |es| && es[i].LoadFails? && (forall m | i < m < |es| :: !es[m].LoopCheck?) && !e.LoopCheck?)
  {
    var all := es + [e];
    assert all[|es|] == e && forall m | 0 <= m < |es| :: all[m] == es[m];
  }

  lemma {:induction false} UnreadIff(es: seq<Event>)
    ensures Unread(es) <==> exists i | 0 <= i < |es| && es[i].LoadFails? :: forall m | i < m < |es| :: !es[m].LoopCheck?
  {
    if es != [] {
      var before, last := es[..|es| - 1], es[|es| - 1];
      UnreadIff(before);
      assert es == before + [last];
      if Unread(es) {
        var i := |before|;
        if !last.LoadFails? {
          i :| 0 <= i < |before| && before[i].LoadFails? && forall m | i < m < |before| :: !before[m].LoopCheck?;
        }
        UnreadSince(before, last, i);
      } else {
        forall i | 0 <= i < |es| && es[i].LoadFails? ensures exists m | i < m < |es| :: es[m].LoopCheck? {
          UnreadSince(before, last, i);
          assert i < |before| ==> before[i] == es[i];
        }
      }
    }
  }

  lemma {:induction false} NothingSavedUnread(es: seq<Event>)
    requires forall i, j | 0 <= i < j < |es| && es[i].LoadFails? && (es[j].UpdateConfig? || es[j].BackupDone?) ::
               exists m | i < m < j :: es[m].LoopCheck?
    ensures Unclobbered(es)
  {
    if es != [] {
      var before, last := es[..|es| - 1], es[|es| - 1];
      forall i, j | 0 <= i < j < |before| && before[i].LoadFails? && (before[j].UpdateConfig? || before[j].BackupDone?)
        ensures exists m | i < m < j :: before[m].LoopCheck?
      {
        var m :| i < m < j && es[m].LoopCheck?;
        assert before[m].LoopCheck?;
      }
      NothingSavedUnread(before);
      UnreadIff(before);
    }
  }

  /** A failed load does no harm if nothing is saved before the next good one: it only skips a check. */
  lemma FailedLoadsAreHarmless(disk: Config, es: seq<Event>)
    requires forall i, j | 0 <= i < j < |es| && es[i].LoadFails? && (es[j].UpdateConfig? || es[j].BackupDone?) ::
               exists m | i < m < j :: es[m].LoopCheck?
    ensures var s, good := Run(disk, es), Run(disk, GoodLoads(es));
            && s.disk == good.disk && s.starts == good.starts
            && ((forall i | 0 <= i < |es| && es[i].LoadFails? :: exists m | i < m < |es| :: es[m].LoopCheck?) ==> s.memory == good.memory)
  {
    NothingSavedUnread(es);
    UnreadIff(es);
    OnlyUnreadDiffers(disk, es);
  }

  lemma {:induction false} OnlyUnreadDiffers(disk: Config, es: seq<Event>)
    requires Unclobbered(es)
    ensures var s, good := Run(disk, es), Run(disk, GoodLoads(es));
            s.disk == good.disk && s.starts == good.starts && (!Unread(es) ==> s.memory == good.memory)
  {
    if es != [] {
      var before, last := es[..|es| - 1], es[|es| - 1];
      OnlyUnreadDiffers(disk, before);
      assert GoodLoads(before) + [] == GoodLoads(before);
      assert (GoodLoads(before) + [last])[..|GoodLoads(before)|] == GoodLoads(before);
    }
  }

  /** A finished backup pushes the next run exactly one interval out, if the clock has not jumped. */
  lemma BackupPushesSchedule(s: Scheduler, success: bool, ranAt: int, now: int, saved: bool)
    requires ranAt <= now < ranAt + HOUR
    ensures var s' := Step(s, BackupDone(success, ranAt, now, saved));
            && s'.memory == s.memory.(lastRun := Some(ranAt), lastRunSuccess := Some(success),
                                      nextRun := Some(ranAt + Interval(s.memory)))
            && (saved ==> s'.disk == s'.memory)
  {
    assert Interval(s.memory) >= HOUR;
  }

  /** A manual backup sets and saves a next run even while scheduling is off. */
  lemma ManualBackupSchedulesWhileDisabled(s: Scheduler, success: bool, ranAt: int, now: int)
    requires !s.memory.enabled && ranAt <= now < ranAt + HOUR
    ensures var s' := Step(s, BackupDone(success, ranAt, now, true));
            !s'.disk.enabled && s'.disk.nextRun == Some(ranAt + Interval(s.memory))
            && forall t :: !ShouldRunNow(s'.disk, t)
  {
    BackupPushesSchedule(s, success, ranAt, now, true);
  }

  /** An update that fails on a bad hour leaves its other settings in memory beside the old next run. */
  lemma FailedUpdateIsHalfApplied()
    ensures var es := [BackupDone(true, 0, 0, true), UpdateConfig([SetEnabled(true), SetIntervalHours(48), SetHour(24)], 3 * DAY, true)];
            var s := Run(DEFAULT_CONFIG, es);
            && s.memory.enabled && s.memory.intervalHours == 48 && !Spaced(s.memory)
            && s.disk == Run(DEFAULT_CONFIG, es[..1]).disk && Spaced(s.disk)
  {
    var done := BackupDone(true, 0, 0, true);
    var updates := [SetEnabled(true), SetIntervalHours(48), SetHour(24)];
    var update := UpdateConfig(updates, 3 * DAY, true);
    assert [done, update][..1] == [done] && [done][..0] == [];
    var c := Config(false, 24, 2, 7, Some(0), Some(true), Some(DAY));
    assert Run(DEFAULT_CONFIG, [done]) == Scheduler(c, c, []);
    assert updates[..2] == [SetEnabled(true), SetIntervalHours(48)] && updates[..2][..1] == [SetEnabled(true)];
    assert updates[..2][..1][..0] == [];
    assert Merged(c, updates[..2][..1]) == c.(enabled := true);
    assert Merged(c, updates[..2]) == c.(enabled := true, intervalHours := 48);
    assert Merged(c, updates) == c.(enabled := true, intervalHours := 48, hour := 24);
  }

  /**
   When an update fails, on a bad hour without a recent run, the file is untouched and memory holds the new settings with the old next run.
   That next run is too early exactly if the new interval is longer than the time it left after the last
   run; right after a backup, exactly if the update lengthens the interval. The next loop check drops
   the failed settings, but a backup finished before it saves them.
   */
  lemma FailedUpdateUnspacedIff(s: Scheduler, updates: seq<Update>, now: int, saved: bool)
    requires var c := Merged(s.memory, updates);
             && c.enabled && (c.hour < 0 || c.hour > 23)
             && (c.lastRun.Some? ==> now >= c.lastRun.value + (if c.intervalHours >= 1 then c.intervalHours else 1) * 3_600_000_000)
    ensures var c, s' := Merged(s.memory, updates), Step(s, UpdateConfig(updates, now, saved));
            && s' == s.(memory := c) && c.lastRun == s.memory.lastRun && c.nextRun == s.memory.nextRun
            && (!Spaced(s'.memory) <==>
                && s.memory.nextRun.Some? && s.memory.lastRun.Some?
                && Interval(c) > s.memory.nextRun.value - s.memory.lastRun.value)
            && (s.memory.lastRun.Some? && s.memory.nextRun == Some(s.memory.lastRun.value + Interval(s.memory)) ==>
                  (!Spaced(s'.memory) <==> Interval(c) > Interval(s.memory)))
            && (forall t :: Step(s', LoopCheck(t)).memory == s.disk)
            && (forall t, success :: var d := Step(s', BackupDone(success, t, t, true)).disk;
                  d == c.(lastRun := Some(t), lastRunSuccess := Some(success), nextRun := Some(t + Interval(c))))
  {
    MergedKeepsRecord(s.memory, updates);
    var s' := Step(s, UpdateConfig(updates, now, saved));
    forall t, success
      ensures Step(s', BackupDone(success, t, t, true)).disk
           == s'.memory.(lastRun := Some(t), lastRunSuccess := Some(success), nextRun := Some(t + Interval(s'.memory)))
    {
      BackupPushesSchedule(s', success, t, t, true);
    }
  }

  lemma {:induction false} MergedKeepsRecord(c: Config, us: seq<Update>)
    ensures Merged(c, us).lastRun == c.lastRun && Merged(c, us).nextRun == c.nextRun
  {
    if us != [] {
      MergedKeepsRecord(c, us[..|us| - 1]);
    }
  }

  /** Switched off and never switched on, the loop starts nothing, whatever else happens. */
  lemma {:induction false} DisabledNeverStarts(disk: Config, es: seq<Event>)
    requires !disk.enabled
    requires forall e <- es | e.UpdateConfig? :: SetEnabled(true) !in e.updates
    ensures var s := Run(disk, es); !s.memory.enabled && !s.disk.enabled && s.starts == []
  {
    if es != [] {
      var before, last := es[..|es| - 1], es[|es| - 1];
      assert last in es && forall e <- before :: e in es;
      DisabledNeverStarts(disk, before);
      if last.UpdateConfig? {
        StaysDisabled(Run(disk, before).memory, last.updates);
      }
    }
  }

  lemma {:induction false} StaysDisabled(c: Config, us: seq<Update>)
    requires !c.enabled && SetEnabled(true) !in us
    ensures !Merged(c, us).enabled
  {
    if us != [] {
      assert us[|us| - 1] in us;
      StaysDisabled(c, us[..|us| - 1]);
    }
  }

  // ---------------------------------------------------------------------------
  // Pruning
  // ---------------------------------------------------------------------------

  function StartsWith(s: string, prefix: string): bool { |prefix| <= |s| && s[..|prefix|] == prefix }

  function EndsWith(s: string, suffix: string): bool { |suffix| <= |s| && s[|s| - |suffix|..] == suffix }

  predicate IsAutoBackup(name: string) { StartsWith(name, "backup-") && EndsWith(name, "-auto") }

  /** Lexicographic order of names. */
  predicate Before(a: string, b: string) {
    a == [] || (b != [] && (a[0] < b[0] || (a[0] == b[0] && Before(a[1..], b[1..]))))
  }

  predicate SmallerAt(a: string, b: string, i: nat) { i < |a| && i < |b| && a[..i] == b[..i] && a[i] < b[i] }

  lemma SmallerFurtherOn(a: string, b: string, i: nat)
    requires a != [] && b != [] && a[0] == b[0]
    ensures SmallerAt(a, b, i + 1) <==> SmallerAt(a[1..], b[1..], i)
    ensures !SmallerAt(a, b, 0)
  {
    if i < |a| - 1 && i < |b| - 1 {
      assert a[..i + 1] == [a[0]] + a[1..][..i] && b[..i + 1] == [b[0]] + b[1..][..i];
    }
  }

  /** One name comes before another if it is a beginning of it, or smaller at the first place where they differ. */
  lemma {:induction false} BeforeMeans(a: string, b: string)
    ensures Before(a, b) <==> a <= b || exists i: nat :: SmallerAt(a, b, i)
  {
    if a != [] && b != [] && a[0] == b[0] {
      var a', b' := a[1..], b[1..];
      BeforeMeans(a', b');
      assert a == [a[0]] + a' && b == [b[0]] + b';
      hide SmallerAt;
      if i: nat :| SmallerAt(a', b', i) {
        SmallerFurtherOn(a, b, i);
      }
      if i: nat :| SmallerAt(a, b, i) {
        SmallerFurtherOn(a, b, if i > 0 then i - 1 else 0);
        assert SmallerAt(a', b', i - 1);
      }
    } else if a != [] && b != [] {
      assert a[0] < b[0] ==> SmallerAt(a, b, 0);
      if i: nat :| SmallerAt(a, b, i) {
        assert i > 0 ==> a[..i][0] == b[..i][0];
      }
    }
  }

  lemma {:induction false} BeforeIsTotal(a: string, b: string)
    ensures Before(a, b) || Before(b, a)
    ensures Before(a, b) && Before(b, a) ==> a == b
  {
    if a != [] && b != [] && a[0] == b[0] {
      BeforeIsTotal(a[1..], b[1..]);
      assert a == [a[0]] + a[1..] && b == [b[0]] + b[1..];
    }
  }

  lemma {:induction false} BeforeIsTransitive(a: string, b: string, c: string)
    requires Before(a, b) && Before(b, c)
    ensures Before(a, c)
  {
    if a != [] && b[0] == a[0] && c[0] == a[0] {
      BeforeIsTransitive(a[1..], b[1..], c[1..]);
    }
  }

  lemma BeforeIsTotalPreorder()
    ensures TotalPreorder(Before)
  {
    forall a, b ensures Before(a, b) || Before(b, a) {
      BeforeIsTotal(a, b);
    }
    forall a, b, c | Before(a, b) && Before(b, c) ensures Before(a, c) {
      BeforeIsTransitive(a, b, c);
    }
  }

  /** auto_dirs[:-keep] */
  function ToPrune(dirs: seq<string>, keep: nat): seq<string> {
    var auto := StableSort(Before, Filter(IsAutoBackup, dirs));
    auto[..Max(0, |auto| - keep)]
  }

  // ---------------------------------------------------------------------------
  // The scheduler object
  // ---------------------------------------------------------------------------

  class BackupScheduler {
    var config: Config
    var configFile: Config
    var directories: set<string>
    ghost var initial: Config
    ghost var starts: seq<Start>
    ghost var log: seq<Event>

    ghost predicate Valid()
      reads this
    {
      Spaced(initial) && Scheduler(config, configFile, starts) == Run(initial, log)
    }

    /** The saved configuration, or the defaults when there is none or it cannot be read. */
    constructor (onDisk: Option<Config>, readable: bool, directories: set<string>)
      requires onDisk.Some? ==> Spaced(onDisk.value)
      ensures Valid() && log == (if readable then [] else [LoadFails])
      ensures config == if onDisk.Some? && readable then onDisk.value else DEFAULT_CONFIG
    {
      var c := if onDisk.Some? then onDisk.value else DEFAULT_CONFIG;
      config, configFile, initial := if readable then c else DEFAULT_CONFIG, c, c;
      this.directories := directories;
      starts, log := [], if readable then [] else [LoadFails];
      assert [LoadFails][..0] == [];
    }

    ghost method Log(e: Event)
      requires Scheduler(config, configFile, starts) == Step(Run(initial, log), e) && Spaced(initial)
      modifies this`log
      ensures Valid() && log == old(log) + [e]
    {
      log := log + [e];
      assert log[..|log| - 1] == old(log);
    }

    /** The new configuration has a next run exactly when it is enabled. */
    method UpdateConfiguration(updates: seq<Update>, now: int, saved: bool) returns (r: Result<Config, ScheduleError>)
      requires Valid()
      modifies this
      ensures Valid() && log == old(log) + [UpdateConfig(updates, now, saved)]
      ensures var c := Merged(old(config), updates);
              r.Err? <==> && c.enabled && (c.hour < 0 || c.hour > 23)
                          && (c.lastRun.Some? ==> now >= c.lastRun.value + (if c.intervalHours >= 1 then c.intervalHours else 1) * 3_600_000_000)
      ensures r.Ok? ==> && r.value == config && (config.nextRun.Some? <==> config.enabled)
                        && (config.enabled ==> config.nextRun.value > now && Spaced(config))
                        && config == Merged(old(config), updates).(nextRun := config.nextRun)
      ensures r.Err? ==> configFile == old(configFile) && config == Merged(old(config), updates)
      ensures r.Ok? ==> configFile == if saved then config else old(configFile)
    {
      for i := 0 to |updates|
        invariant config == Merged(old(config), updates[..i])
        invariant configFile == old(configFile) && starts == old(starts) && log == old(log) && initial == old(initial)
      {
        assert updates[..i + 1][..i] == updates[..i];
        config := Applied(config, updates[i]);
      }
      assert updates[..|updates|] == updates;
      NextRunBounds(config, now);
      var next := if config.enabled then ComputeNextRun(config, now) else Err(HourOutOfRange);
      if config.enabled && next.Err? {
        r := Err(next.error);
      } else {
        config := config.(nextRun := if config.enabled then Some(next.value) else None);
        configFile := if saved then config else configFile;
        r := Ok(config);
      }
      Log(UpdateConfig(updates, now, saved));
    }

    /** The bookkeeping after a backup, manual or scheduled. */
    method RecordRun(success: bool, ranAt: int, now: int, saved: bool)
      requires Valid()
      modifies this
      ensures Valid() && log == old(log) + [BackupDone(success, ranAt, now, saved)]
      ensures config.lastRun == Some(ranAt) && config.lastRunSuccess == Some(success)
      ensures !saved ==> configFile == old(configFile)
      ensures ranAt <= now < ranAt + 3_600_000_000 ==>
                config.nextRun == Some(ranAt + (if config.intervalHours >= 1 then config.intervalHours else 1) * 3_600_000_000)
                && (saved ==> configFile == config)
    {
      NextRunFollowsTheLast(config.(lastRun := Some(ranAt), lastRunSuccess := Some(success)), now, ranAt);
      config := config.(lastRun := Some(ranAt), lastRunSuccess := Some(success));
      var next := ComputeNextRun(config, now);
      if next.Ok? {
        config := config.(nextRun := Some(next.value));
        configFile := if saved then config else configFile;
      }
      Log(BackupDone(success, ranAt, now, saved));
    }

    /** One pass of the loop up to the decision whether to start a backup now. */
    method CheckSchedule(now: int, readable: bool) returns (run: bool)
      requires Valid()
      modifies this
      ensures Valid() && log == old(log) + [if readable then LoopCheck(now) else LoadFails]
      ensures run <==> readable && ShouldRunNow(configFile, now)
      ensures configFile == old(configFile) && (readable ==> config == configFile) && (!readable ==> config == Config(false, 24, 2, 7, None, None, None))
      ensures run && configFile.lastRun.Some? ==> now >= configFile.lastRun.value + Interval(configFile)
      ensures run && configFile.lastRun.Some? ==>
                now >= configFile.lastRun.value + configFile.intervalHours * 3_600_000_000 && now >= configFile.lastRun.value + 3_600_000_000
      ensures run <==> readable && configFile.enabled && configFile.nextRun.Some? && configFile.nextRun.value <= now
    {
      ScheduledRunsAreSpacedOut(initial, log);
      config := if readable then configFile else DEFAULT_CONFIG;
      run := ShouldRunNow(config, now);
      starts := if run then starts + [Start(now, config)] else starts;
      Log(if readable then LoopCheck(now) else LoadFails);
    }

    /**
     Pruning selects automatic backups older than all it does not select, as many as exceed keep_count,
     and deletes those but for the ones the file system holds on to, whose failure is passed over. With
     none of those exactly the newest keep_count automatic backups and all other directories remain.
     */
    method PruneOldBackups(listing: seq<string>, undeletable: set<string>) returns (ghost doomed: set<string>)
      requires Distinct(listing) && directories == (set d | d in listing)
      modifies this`directories
      ensures directories == old(directories) - (doomed - undeletable)
      ensures forall d <- doomed ::
                d in old(directories) && IsAutoBackup(d)
                && forall k <- old(directories) - doomed | IsAutoBackup(k) :: Before(d, k)
      ensures |doomed| == if config.keepCount <= 0 then 0 else
                Max(0, |set d <- old(directories) | IsAutoBackup(d)| - config.keepCount)
    {
      hide ToPrune, IsAutoBackup, Before, Filter;
      doomed := {};
      if config.keepCount <= 0 {
        return;
      }
      var names := ToPrune(listing, config.keepCount);
      PruneSelects(listing, directories, config.keepCount);
      RemoveDirectories(names, undeletable);
      doomed := set d | d in names;
    }

    /** shutil.rmtree(d, ignore_errors=True) for each name */
    method RemoveDirectories(doomed: seq<string>, undeletable: set<string>)
      modifies this`directories
      ensures directories == old(directories) - ((set d | d in doomed) - undeletable)
    {
      ghost var all := directories;
      for i := 0 to |doomed|
        invariant directories == all - ((set d | d in doomed[..i]) - undeletable)
      {
        assert doomed[..i + 1] == doomed[..i] + [doomed[i]];
        directories := if doomed[i] in undeletable then directories else directories - {doomed[i]};
      }
      assert doomed[..|doomed|] == doomed;
    }
  }

  lemma {:induction false} DistinctCount(xs: seq<string>)
    requires Distinct(xs)
    ensures |set x | x in xs| == |xs|
  {
    if xs != [] {
      var most := xs[..|xs| - 1];
      DistinctCount(most);
      assert (set x | x in xs) == (set x | x in most) + {xs[|xs| - 1]};
    }
  }

  /** An automatic backup is told by its name: it begins with "backup-" and ends with "-auto". */
  lemma AutoName(d: string)
    ensures IsAutoBackup(d) <==> "backup-" <= d && |d| >= 5 && d[|d| - 5..] == "-auto"
  {
  }

  /** What pruning selects, whatever the order of the listing. */
  lemma PruneSelects(dirs: seq<string>, all: set<string>, keep: nat)
    requires Distinct(dirs) && all == set d | d in dirs
    ensures var doomed := set d | d in ToPrune(dirs, keep);
            && (forall d <- doomed :: d in all && IsAutoBackup(d) && forall k <- all - doomed | IsAutoBackup(k) :: Before(d, k))
            && |doomed| == Max(0, |set d <- all | IsAutoBackup(d)| - keep)
  {
    hide ToPrune, Before, IsAutoBackup, Filter;
    PruneIsOldest(dirs, keep);
    AutoCount(dirs, all);
  }

  lemma AutoCount(dirs: seq<string>, all: set<string>)
    requires Distinct(dirs) && all == set d | d in dirs
    ensures |Filter(IsAutoBackup, dirs)| == |set d <- all | IsAutoBackup(d)|
  {
    hide IsAutoBackup, Filter;
    var auto := Filter(IsAutoBackup, dirs);
    FilterDistinct(IsAutoBackup, dirs);
    DistinctCount(auto);
    assert (set d | d in auto) == set d <- all | IsAutoBackup(d);
  }

  /** The pruned names come first in name order. */
  lemma PruneIsOldest(dirs: seq<string>, keep: nat)
    requires Distinct(dirs)
    ensures var auto, gone := Filter(IsAutoBackup, dirs), ToPrune(dirs, keep);
            && |gone| == Max(0, |auto| - keep) && |set d | d in gone| == |gone|
            && (forall d <- gone :: d in dirs && IsAutoBackup(d))
            && (forall d <- gone, k <- dirs | IsAutoBackup(k) && k !in gone :: Before(d, k))
  {
    hide StableSort, Before, IsAutoBackup, Ties, Insert, Filter;
    var auto := Filter(IsAutoBackup, dirs);
    var sorted, gone := StableSort(Before, auto), ToPrune(dirs, keep);
    BeforeIsTotalPreorder();
    SortIsStable(Before, auto);
    SortKeepsElements(Before, auto);
    FilterDistinct(IsAutoBackup, dirs);
    DistinctCount(gone);
    OldestFirst(sorted, |gone|);
    assert gone == sorted[..|gone|];
  }

  lemma OldestFirst(sorted: seq<string>, n: nat)
    requires Sorted(Before, sorted) && n <= |sorted|
    ensures forall d <- sorted[..n], k <- sorted | k !in sorted[..n] :: Before(d, k)
  {
    forall d, k | d in sorted[..n] && k in sorted && k !in sorted[..n] ensures Before(d, k) {
      assert sorted == sorted[..n] + sorted[n..];
      var i :| 0 <= i < n && sorted[i] == d;
      var j :| 0 <= j < |sorted[n..]| && sorted[n..][j] == k;
      assert sorted[n + j] == k;
    }
  }
}
