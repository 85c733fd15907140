/**
 The heartbeat worker (app_core/heartbeat_worker.py): many signals with intervals of their own, all
 driven by one loop with a fixed tick. Times are in microseconds.
 */
module Heartbeat {
  import opened Wrappers

  const SECOND: int := 1_000_000
  const MIN_INTERVAL_SECONDS: int := 60

  datatype Row = Row(serviceName: string, intervalSecs: Option<int>, enabled: bool, lastPing: Option<int>)

  /** max(interval or 60, 60), in microseconds */
  function Interval(r: Row): int {
    var secs := if r.intervalSecs.Some? && r.intervalSecs.value != 0 then r.intervalSecs.value else MIN_INTERVAL_SECONDS;
    Max(secs, MIN_INTERVAL_SECONDS) * SECOND
  }

  predicate IsDue(lastPing: Option<int>, interval: int, now: int) {
    lastPing.None? || now - lastPing.value >= interval
  }

  /** One visit of the loop to one row: when it looks, when the ping is over, whether that is recorded. */
  datatype Visit = Visit(active: bool, checkedAt: int, pingedAt: int, committed: bool)

  predicate Pings(r: Row, v: Visit) {
    r.enabled && v.active && IsDue(r.lastPing, Interval(r), v.checkedAt)
  }

  function Visited(r: Row, v: Visit): Row {
    if Pings(r, v) && v.committed then r.(lastPing := Some(v.pingedAt)) else r
  }

  /** The row after its first visits. */
  function After(r: Row, vs: seq<Visit>): Row {
    if vs == [] then r else Visited(After(r, vs[..|vs| - 1]), vs[|vs| - 1])
  }

  predicate PingsAt(r: Row, vs: seq<Visit>, k: nat)
    requires k < |vs|
  {
    Pings(After(r, vs[..k]), vs[k])
  }

  lemma {:induction false} SameInterval(r: Row, vs: seq<Visit>)
    ensures After(r, vs) == r.(lastPing := After(r, vs).lastPing)
  {
    if vs != [] {
      SameInterval(r, vs[..|vs| - 1]);
    }
  }

  lemma AfterNext(r: Row, vs: seq<Visit>, k: nat)
    requires k < |vs|
    ensures After(r, vs[..k + 1]) == Visited(After(r, vs[..k]), vs[k])
  {
    assert vs[..k + 1][..k] == vs[..k];
  }

  /** A recorded ping stands, or has been replaced by a later one. */
  lemma {:induction false} RecordedSince(r: Row, vs: seq<Visit>, j: nat, k: nat)
    requires (forall v <- vs :: v.checkedAt <= v.pingedAt) && j < k <= |vs|
    requires PingsAt(r, vs, j) && vs[j].committed
    ensures After(r, vs[..k]).lastPing.Some? && After(r, vs[..k]).lastPing.value >= vs[j].pingedAt
  {
    AfterNext(r, vs, k - 1);
    if j < k - 1 {
      RecordedSince(r, vs, j, k - 1);
    }
  }

  /** A ping comes at least the row's own interval after every recorded earlier one, whatever the clock does between them. */
  lemma PingsAreSpacedOut(r: Row, vs: seq<Visit>, j: nat, k: nat)
    requires (forall v <- vs :: v.checkedAt <= v.pingedAt) && j < k < |vs|
    requires PingsAt(r, vs, j) && vs[j].committed && PingsAt(r, vs, k)
    ensures vs[k].checkedAt >= vs[j].pingedAt + Interval(r)
  {
    RecordedSince(r, vs, j, k);
    SameInterval(r, vs[..k]);
  }

  /** When a commit fails the ping is repeated on the next tick, however long the interval. */
  lemma UnrecordedPingIsRepeated(r: Row, v: Visit, v': Visit)
    requires Pings(r, v) && !v.committed && v'.active && v'.checkedAt >= v.checkedAt
    ensures PingsAt(r, [v, v'], 0) && PingsAt(r, [v, v'], 1)
  {
    assert [v, v'][..0] == [] && [v, v'][..1] == [v] && [v][..0] == [];
    assert After(r, [v]) == r;
  }

  /** After a recorded ping at visit `p`, visits up to `k` that come too early leave the record alone. */
  lemma {:induction false} QuietUntilDue(r: Row, vs: seq<Visit>, p: nat, k: nat)
    requires p < k <= |vs|
    requires PingsAt(r, vs, p) && vs[p].committed
    requires forall i | p < i < k :: vs[i].checkedAt < vs[p].pingedAt + Interval(r)
    ensures After(r, vs[..k]) == r.(lastPing := Some(vs[p].pingedAt))
    ensures forall i: nat | p < i < k :: !PingsAt(r, vs, i)
  {
    AfterNext(r, vs, k - 1);
    if p < k - 1 {
      QuietUntilDue(r, vs, p, k - 1);
    } else {
      SameInterval(r, vs[..p]);
    }
  }

  /**
   As long as the service stays active, the ping after a recorded one comes as soon as it is due: no
   sooner than the interval, and, with visits at most `gap` apart, less than interval + gap later.
   */
  lemma NextPingIsPrompt(r: Row, vs: seq<Visit>, p: nat, last: nat, gap: int) returns (k: nat)
    requires p < last < |vs| && vs[p].checkedAt <= vs[p].pingedAt
    requires PingsAt(r, vs, p) && vs[p].committed
    requires forall i | p < i <= last :: vs[i].active
    requires forall i | p <= i < last :: vs[i + 1].checkedAt - vs[i].checkedAt <= gap
    requires vs[last].checkedAt >= vs[p].pingedAt + Interval(r)
    ensures p < k <= last && PingsAt(r, vs, k)
    ensures forall i: nat | p < i < k :: !PingsAt(r, vs, i)
    ensures vs[p].pingedAt + Interval(r) <= vs[k].checkedAt < vs[p].pingedAt + Interval(r) + gap
  {
    k := p + 1;
    while vs[k].checkedAt < vs[p].pingedAt + Interval(r)
      invariant p < k <= last
      invariant forall i | p < i < k :: vs[i].checkedAt < vs[p].pingedAt + Interval(r)
      decreases last - k
    {
      k := k + 1;
    }
    QuietUntilDue(r, vs, p, k);
    SameInterval(r, vs[..p]);
    assert r.enabled;
    assert vs[k].checkedAt <= vs[k - 1].checkedAt + gap;
  }

  /** A signal that has never been sent goes out at the first visit that finds its service active. */
  lemma FirstPingIsImmediate(r: Row, vs: seq<Visit>, k: nat)
    requires r.enabled && r.lastPing.None? && k < |vs| && vs[k].active
    requires forall i | 0 <= i < k :: !vs[i].active
    ensures PingsAt(r, vs, k) && After(r, vs[..k]) == r
  {
    if k > 0 {
      AllSilent(r, vs, k);
    } else {
      assert vs[..0] == [];
    }
  }

  lemma {:induction false} AllSilent(r: Row, vs: seq<Visit>, k: nat)
    requires k <= |vs| && forall i | 0 <= i < k :: !vs[i].active
    ensures After(r, vs[..k]) == r
  {
    if k > 0 {
      AfterNext(r, vs, k - 1);
      AllSilent(r, vs, k - 1);
    } else {
      assert vs[..0] == [];
    }
  }

  // ---------------------------------------------------------------------------
  // One loop for all rows
  // ---------------------------------------------------------------------------

  /**
   What the clock, the network and the database do while one row is visited. A ping that raises something
   else than a request error ends the whole pass; nothing is recorded for it.
   */
  datatype Timing = Timing(checkedAt: int, pingedAt: int, committed: bool, raises: bool)

  /**
   One tick: the service status, or None when the service rows are not looked at at all (reading the
   status fails, or the unconditional ping has raised), and the timing of each row's visit.
   */
  datatype Tick = Tick(status: Option<map<string, bool>>, timings: seq<Timing>)

  /** The row's service is found running at tick `t`. */
  predicate Running(r: Row, t: Tick) { t.status.Some? && r.serviceName in t.status.value && t.status.value[r.serviceName] }

  /** The visit of a row that the pass reaches. */
  function VisitOf(r: Row, t: Tick, i: nat): Visit
    requires i < |t.timings|
  {
    Visit(Running(r, t), t.timings[i].checkedAt, t.timings[i].pingedAt, t.timings[i].committed && !t.timings[i].raises)
  }

  predicate Raises(r: Row, t: Tick, i: nat)
    requires i < |t.timings|
  {
    Pings(r, VisitOf(r, t, i)) && t.timings[i].raises
  }

  /** The pass gets as far as row `i`: no earlier ping raises. */
  predicate Reached(rows: seq<Row>, t: Tick, i: nat)
    requires i <= |rows| == |t.timings|
  {
    forall j | 0 <= j < i :: !Raises(rows[j], t, j)
  }

  /** What row `i` gets from the tick; a row that is not reached fares as if its service were down. */
  function ActualVisit(rows: seq<Row>, t: Tick, i: nat): Visit
    requires i < |rows| == |t.timings|
  {
    VisitOf(rows[i], t, i).(active := Running(rows[i], t) && Reached(rows, t, i))
  }

  function Ticked(rows: seq<Row>, t: Tick): seq<Row>
    requires |t.timings| == |rows|
  {
    seq(|rows|, i requires 0 <= i < |rows| => Visited(rows[i], ActualVisit(rows, t, i)))
  }

  function RunTicks(rows: seq<Row>, ts: seq<Tick>): (rows': seq<Row>)
    requires forall t <- ts :: |t.timings| == |rows|
    ensures |rows'| == |rows|
  {
    if ts == [] then rows else Ticked(RunTicks(rows, ts[..|ts| - 1]), ts[|ts| - 1])
  }

  /** The visits that row `i` receives. */
  function VisitsOf(rows: seq<Row>, ts: seq<Tick>, i: nat): seq<Visit>
    requires i < |rows| && forall t <- ts :: |t.timings| == |rows|
  {
    if ts == [] then [] else
      VisitsOf(rows, ts[..|ts| - 1], i) + [ActualVisit(RunTicks(rows, ts[..|ts| - 1]), ts[|ts| - 1], i)]
  }

  lemma {:induction false} VisitAt(rows: seq<Row>, ts: seq<Tick>, i: nat, k: nat)
    requires i < |rows| && (forall t <- ts :: |t.timings| == |rows|) && k < |ts|
    ensures |VisitsOf(rows, ts, i)| == |ts|
    ensures VisitsOf(rows, ts, i)[k] == ActualVisit(RunTicks(rows, ts[..k]), ts[k], i)
    ensures VisitsOf(rows, ts, i)[..k] == VisitsOf(rows, ts[..k], i)
  {
    var most := ts[..|ts| - 1];
    if k < |most| {
      VisitAt(rows, most, i, k);
      assert most[..k] == ts[..k];
    } else {
      VisitCount(rows, most, i);
    }
  }

  lemma {:induction false} VisitCount(rows: seq<Row>, ts: seq<Tick>, i: nat)
    requires i < |rows| && forall t <- ts :: |t.timings| == |rows|
    ensures |VisitsOf(rows, ts, i)| == |ts|
  {
    if ts != [] {
      VisitCount(rows, ts[..|ts| - 1], i);
    }
  }

  /** Each row fares exactly as if it were alone with the visits it gets: other rows matter only by ending the pass. */
  lemma {:induction false} RowsAreIndependent(rows: seq<Row>, ts: seq<Tick>, i: nat)
    requires i < |rows| && forall t <- ts :: |t.timings| == |rows|
    ensures RunTicks(rows, ts)[i] == After(rows[i], VisitsOf(rows, ts, i))
  {
    if ts != [] {
      RowsAreIndependent(rows, ts[..|ts| - 1], i);
      var vs := VisitsOf(rows, ts, i);
      assert vs[..|vs| - 1] == VisitsOf(rows, ts[..|ts| - 1], i);
    }
  }

  /** A ping that raises ends the pass: its row and the later ones stay as they are, the earlier ones fare as if alone. */
  lemma RaisingPingEndsThePass(rows: seq<Row>, t: Tick, j: nat)
    requires |t.timings| == |rows| && j < |rows| && Reached(rows, t, j) && Raises(rows[j], t, j)
    ensures forall i | 0 <= i < |rows| ::
              Ticked(rows, t)[i] == if i < j then Visited(rows[i], VisitOf(rows[i], t, i)) else rows[i]
  {
    forall i | 0 <= i < |rows|
      ensures Ticked(rows, t)[i] == if i < j then Visited(rows[i], VisitOf(rows[i], t, i)) else rows[i]
    {
      if i > j {
        assert !Reached(rows, t, i);
      }
    }
  }

  /**
   One pass in terms of the rows: a row is pinged exactly if it is switched on, its service is running and
   its last ping is none or its own seconds back, sixty at least, unless a ping of an earlier such row
   raises; and it is changed exactly by recording that ping.
   */
  lemma PassRowByRow(rows: seq<Row>, t: Tick, i: nat)
    requires |t.timings| == |rows| && i < |rows|
    ensures var due := (j: int) =>
              0 <= j < |rows| && var r := rows[j];
              && r.enabled && t.status.Some? && r.serviceName in t.status.value && t.status.value[r.serviceName]
              && (r.lastPing.None?
                  || t.timings[j].checkedAt - r.lastPing.value
                     >= (if r.intervalSecs.Some? && r.intervalSecs.value > 60 then r.intervalSecs.value else 60) * 1_000_000);
            var pinged := due(i) && forall j | 0 <= j < i :: !(due(j) && t.timings[j].raises);
            && (Pings(rows[i], ActualVisit(rows, t, i)) <==> pinged)
            && Ticked(rows, t)[i] == if pinged && t.timings[i].committed && !t.timings[i].raises
                                     then rows[i].(lastPing := Some(t.timings[i].pingedAt)) else rows[i]
  {
  }

  /** At a tick where no earlier row's ping can raise, a row gets its visit whatever else the others do. */
  lemma UndisturbedVisit(rows: seq<Row>, ts: seq<Tick>, i: nat, k: nat)
    requires i < |rows| && k < |ts| && forall t <- ts :: |t.timings| == |rows|
    requires forall j | 0 <= j < i :: !ts[k].timings[j].raises
    ensures |VisitsOf(rows, ts, i)| == |ts| && VisitsOf(rows, ts, i)[k] == VisitOf(rows[i], ts[k], i)
  {
    VisitAt(rows, ts, i, k);
    VisitCount(rows, ts, i);
    RowsAreIndependent(rows, ts[..k], i);
    SameInterval(rows[i], VisitsOf(rows, ts[..k], i));
    hide RunTicks, VisitsOf, After, Pings;
    assert Reached(RunTicks(rows, ts[..k]), ts[k], i);
  }

  /** A row whose ping raises whenever it is due is never recorded, and starves every row behind it. */
  lemma {:induction false} RaisingRowStarvesLaterOnes(rows: seq<Row>, ts: seq<Tick>, j: nat)
    requires j < |rows| && forall t <- ts :: |t.timings| == |rows|
    requires rows[j].enabled
    requires forall t <- ts :: Running(rows[j], t) && t.timings[j].raises && IsDue(rows[j].lastPing, Interval(rows[j]), t.timings[j].checkedAt)
    ensures forall i | j <= i < |rows| :: RunTicks(rows, ts)[i] == rows[i]
  {
    if ts != [] {
      var most, last := ts[..|ts| - 1], ts[|ts| - 1];
      assert last in ts && forall t <- most :: t in ts;
      RaisingRowStarvesLaterOnes(rows, most, j);
      var now := RunTicks(rows, most);
      assert Raises(now[j], last, j);
      forall i | j <= i < |rows| ensures Ticked(now, last)[i] == now[i] {
        if i > j {
          assert !Reached(now, last, i);
        }
      }
    }
  }

  /** Tick `k` pings row `i` of the table as the earlier ticks have left it. */
  predicate LoopPings(rows: seq<Row>, ts: seq<Tick>, i: nat, k: nat)
    requires i < |rows| && k < |ts| && forall t <- ts :: |t.timings| == |rows|
  {
    var now := RunTicks(rows, ts[..k]);
    Pings(now[i], ActualVisit(now, ts[k], i))
  }

  lemma LoopPingsAsAlone(rows: seq<Row>, ts: seq<Tick>, i: nat, k: nat)
    requires i < |rows| && k < |ts| && forall t <- ts :: |t.timings| == |rows|
    ensures |VisitsOf(rows, ts, i)| == |ts|
    ensures LoopPings(rows, ts, i, k) == PingsAt(rows[i], VisitsOf(rows, ts, i), k)
    ensures var v := VisitsOf(rows, ts, i)[k];
            && v.checkedAt == ts[k].timings[i].checkedAt && v.pingedAt == ts[k].timings[i].pingedAt
            && v.committed == (ts[k].timings[i].committed && !ts[k].timings[i].raises)
            && v.active == Served(rows, ts, i, k)
  {
    RowsAreIndependent(rows, ts[..k], i);
    VisitAt(rows, ts, i, k);
    SameInterval(rows[i], VisitsOf(rows, ts[..k], i));
  }

  /**
   Over the whole loop, two pings of a row are at least its interval apart if the first was recorded: its
   own number of seconds, and never less than sixty.
   */
  lemma LoopPingsAreSpacedOut(rows: seq<Row>, ts: seq<Tick>, i: nat, j: nat, k: nat)
    requires i < |rows| && forall t <- ts :: |t.timings| == |rows| && t.timings[i].checkedAt <= t.timings[i].pingedAt
    requires j < k < |ts| && LoopPings(rows, ts, i, j) && LoopPings(rows, ts, i, k)
    requires ts[j].timings[i].committed && !ts[j].timings[i].raises
    ensures ts[k].timings[i].checkedAt >= ts[j].timings[i].pingedAt + Interval(rows[i])
    ensures rows[i].intervalSecs.Some? ==>
              ts[k].timings[i].checkedAt - ts[j].timings[i].pingedAt >= rows[i].intervalSecs.value * 1_000_000
    ensures ts[k].timings[i].checkedAt - ts[j].timings[i].pingedAt >= 60_000_000
  {
    LoopPingsAsAlone(rows, ts, i, j);
    LoopPingsAsAlone(rows, ts, i, k);
    var vs := VisitsOf(rows, ts, i);
    forall n | 0 <= n < |vs| ensures vs[n].checkedAt <= vs[n].pingedAt {
      LoopPingsAsAlone(rows, ts, i, n);
      assert ts[n] in ts;
    }
    PingsAreSpacedOut(rows[i], VisitsOf(rows, ts, i), j, k);
  }

  /** Tick `n` finds the service of row `i` running and its pass reaches the row. */
  predicate Served(rows: seq<Row>, ts: seq<Tick>, i: nat, n: nat)
    requires i < |rows| && n < |ts| && forall t <- ts :: |t.timings| == |rows|
  {
    Running(rows[i], ts[n]) && Reached(RunTicks(rows, ts[..n]), ts[n], i)
  }

  /** The time from one visit of a row to the next. */
  function GapAfter(ts: seq<Tick>, i: nat, n: nat): int
    requires n + 1 < |ts| && i < |ts[n].timings| && i < |ts[n + 1].timings|
  {
    ts[n + 1].timings[i].checkedAt - ts[n].timings[i].checkedAt
  }

  /**
   Over the whole loop: while the service of a row is running and no earlier row's ping ends the pass, the
   ping after a recorded one comes no sooner than its interval and less than interval + gap later. Nothing
   else that other rows do matters.
   */
  lemma LoopPingIsPrompt(rows: seq<Row>, ts: seq<Tick>, i: nat, p: nat, last: nat, gap: int) returns (k: nat)
    requires i < |rows| && forall t <- ts :: |t.timings| == |rows|
    requires p < last < |ts| && LoopPings(rows, ts, i, p) && ts[p].timings[i].committed && !ts[p].timings[i].raises
    requires ts[p].timings[i].checkedAt <= ts[p].timings[i].pingedAt
    requires forall n: nat | p < n <= last :: Served(rows, ts, i, n)
    requires forall n: nat | p <= n < last :: GapAfter(ts, i, n) <= gap
    requires ts[last].timings[i].checkedAt >= ts[p].timings[i].pingedAt + Interval(rows[i])
    ensures p < k <= last && LoopPings(rows, ts, i, k)
    ensures forall n: nat | p < n < k :: !LoopPings(rows, ts, i, n)
    ensures var due := ts[p].timings[i].pingedAt + Interval(rows[i]); due <= ts[k].timings[i].checkedAt < due + gap
    ensures var secs := if rows[i].intervalSecs.Some? && rows[i].intervalSecs.value > 60 then rows[i].intervalSecs.value else 60;
            ts[k].timings[i].checkedAt - ts[p].timings[i].pingedAt < secs * 1_000_000 + gap
  {
    var vs := VisitsOf(rows, ts, i);
    VisitCount(rows, ts, i);
    assert Interval(rows[i]) == (if rows[i].intervalSecs.Some? && rows[i].intervalSecs.value > 60 then rows[i].intervalSecs.value else 60)
                                * 1_000_000;
    hide VisitsOf, LoopPings, PingsAt, RunTicks, After, ActualVisit, VisitOf, Interval, Served;
    LoopPingsAsAlone(rows, ts, i, p);
    forall n: nat | p <= n <= last
      ensures vs[n].checkedAt == ts[n].timings[i].checkedAt && vs[n].pingedAt == ts[n].timings[i].pingedAt
      ensures n > p ==> vs[n].active
    {
      LoopPingsAsAlone(rows, ts, i, n);
    }
    forall n: nat | p <= n < last ensures vs[n + 1].checkedAt - vs[n].checkedAt <= gap {
      assert GapAfter(ts, i, n) <= gap;
    }
    k := NextPingIsPrompt(rows[i], vs, p, last, gap);
    LoopPingsAsAlone(rows, ts, i, k);
    forall n: nat | p < n < k ensures !LoopPings(rows, ts, i, n) {
      LoopPingsAsAlone(rows, ts, i, n);
    }
  }

  class HeartbeatWorker {
    var settings: Option<Row>   // the unconditional heartbeat
    var pingUrl: string
    var rows: seq<Row>          // one per monitored service

    constructor (settings: Option<Row>, pingUrl: string, rows: seq<Row>)
      ensures this.settings == settings && this.pingUrl == pingUrl && this.rows == rows
    {
      this.settings, this.pingUrl, this.rows := settings, pingUrl, rows;
    }

    /** The unconditional heartbeat is a row that counts as active whenever it has an address. */
    method PingOnce(t: Timing) returns (sent: bool, raised: bool)
      modifies this`settings
      ensures settings.Some? <==> old(settings).Some?
      ensures settings.Some? ==>
                var v := Visit(pingUrl != "", t.checkedAt, t.pingedAt, t.committed && !t.raises);
                settings.value == Visited(old(settings).value, v) && (sent <==> Pings(old(settings).value, v))
      ensures settings.None? ==> !sent
      ensures raised <==> sent && t.raises
    {
      sent, raised := false, false;
      if settings.None? || !settings.value.enabled || pingUrl == "" {
        return;
      }
      if !IsDue(settings.value.lastPing, Interval(settings.value), t.checkedAt) {
        return;
      }
      sent, raised := true, t.raises;
      if t.committed && !raised {
        settings := Some(settings.value.(lastPing := Some(t.pingedAt)));
      }
    }

    /** One pass over the service heartbeats; `raised` says that a ping ended it early. */
    method PingServiceHeartbeatsOnce(t: Tick) returns (sent: seq<nat>, raised: bool)
      requires |t.timings| == |rows|
      modifies this`rows
      ensures rows == Ticked(old(rows), t)
      ensures forall i: nat :: i in sent <==> i < |rows| && Pings(old(rows)[i], ActualVisit(old(rows), t, i))
      ensures raised <==> !Reached(old(rows), t, |rows|)
    {
      ghost var before := rows;
      sent, raised := [], false;
      if t.status.None? {
        assert rows == Ticked(rows, t);
        return;
      }
      var status, i := t.status.value, 0;
      while i < |rows|
        invariant 0 <= i <= |rows| == |before| && !raised && Reached(before, t, i)
        invariant forall j | 0 <= j < i :: rows[j] == Ticked(before, t)[j]
        invariant forall j | i <= j < |rows| :: rows[j] == before[j]
        invariant forall j: nat :: j in sent <==> j < i && Pings(before[j], ActualVisit(before, t, j))
      {
        var row := rows[i];
        if row.enabled && IsDue(row.lastPing, Interval(row), t.timings[i].checkedAt)
           && row.serviceName in status && status[row.serviceName] {
          sent := sent + [i];
          if t.timings[i].raises {
            raised := true;
            RaisingPingEndsThePass(before, t, i);
            assert forall j: nat | i < j < |before| :: !Reached(before, t, j);
            assert !Reached(before, t, |before|);
            return;
          }
          if t.timings[i].committed {
            rows := rows[i := row.(lastPing := Some(t.timings[i].pingedAt))];
          }
        }
        i := i + 1;
      }
    }

    /** One round of the loop: a raising unconditional ping leaves the service heartbeats out of that tick. */
    method Round(own: Timing, t: Tick)
      requires |t.timings| == |rows|
      modifies this
      ensures pingUrl == old(pingUrl)
      ensures var v := Visit(pingUrl != "", own.checkedAt, own.pingedAt, own.committed && !own.raises);
              rows == if old(settings).Some? && Pings(old(settings).value, v) && own.raises then old(rows)
                      else Ticked(old(rows), t)
    {
      var _, raised := PingOnce(own);
      if !raised {
        var _, _ := PingServiceHeartbeatsOnce(t);
      }
    }
  }
}
