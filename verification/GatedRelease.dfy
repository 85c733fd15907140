/**
 The gated-alert hold-off queue: the release sweep (app_core/gating_scheduler.py) and the operator's
 approve and cancel requests (webapp/admin/pending_alerts.py).

 Any number of sweepers and requests work on the same table. A sweeper first queries the due rows, then
 for each of them looks at the row again, flips it to released and commits, and only then hands it to
 the air chain. A request checks that the row is pending, commits its decision, and after an approval
 hands the row over as well. Either may die anywhere. Checking and committing are separate steps here,
 because nothing locks the row between them.
 */
module GatedRelease {
  import opened Wrappers

  datatype Source = Cap | Ota

  datatype Status = Pending | Approved | Cancelled | Released

  datatype Row = Row(source: Source, status: Status, holdUntil: int)

  datatype Sender = Sweeper | Operator

  datatype HandOff = HandOff(id: int, at: int, sender: Sender)

  /** A sweep in progress: rows still to visit, the row it has seen pending, the row it has committed. */
  datatype Sweep = Sweep(due: set<int>, looked: Option<int>, flipped: Option<int>)

  /** A web request in progress: it has found the row pending, or has approved it and must hand it over. */
  datatype Request = FoundPending(id: int) | MustAir(id: int)

  datatype World = World(
    rows: map<int, Row>,
    clock: int,
    sweeps: map<nat, Sweep>,
    requests: map<nat, Request>,
    resolved: seq<int>,         // every write of resolved_at, in order
    handedOff: seq<HandOff>)

  /** What ingest, web requests and time do. */
  datatype Action =
    | Hold(id: int, source: Source, holdUntil: int)
    | Tick(elapsed: nat)
    | Check(request: nat, id: int)
    | Approve(request: nat)
    | Cancel(request: nat)
    | AirApproved(request: nat)
    | Abandon(request: nat)     // the request died

  datatype Event =
    | Act(action: Action)
    | Query(sweeper: nat)
    | Look(sweeper: nat, id: int)
    | Flip(sweeper: nat)
    | Air(sweeper: nat)
    | Drop(sweeper: nat)        // releasing the row failed before the call to the air chain; the sweep goes on
    | StopSweep(sweeper: nat)   // the sweep is over, or the process died

  predicate Due(r: Row, now: int) { r.source.Ota? && r.status.Pending? && r.holdUntil <= now }

  function DueIds(rows: map<int, Row>, now: int): set<int> {
    set id | id in rows && Due(rows[id], now)
  }

  predicate PendingRow(w: World, id: int) { id in w.rows && w.rows[id].status.Pending? }

  function Resolve(w: World, id: int, status: Status): World
    requires id in w.rows
  {
    w.(rows := w.rows[id := w.rows[id].(status := status)], resolved := w.resolved + [id])
  }

  /** The request is about to commit a decision on a row. */
  predicate Deciding(w: World, r: nat) {
    r in w.requests && w.requests[r].FoundPending? && w.requests[r].id in w.rows
  }

  predicate MustHandOver(w: World, r: nat) { r in w.requests && w.requests[r].MustAir? }

  function Outside(w: World, a: Action): World {
    match a
    case Hold(id, source, holdUntil) =>
      if id in w.rows then w else w.(rows := w.rows[id := Row(source, Pending, holdUntil)])
    case Tick(elapsed) => w.(clock := w.clock + elapsed)
    case Check(r, id) =>
      if MustHandOver(w, r) then w
      else w.(requests := if PendingRow(w, id) then w.requests[r := FoundPending(id)] else w.requests - {r})
    case Approve(r) =>
      if !Deciding(w, r) then w else
        Resolve(w, w.requests[r].id, Approved).(requests := w.requests[r := MustAir(w.requests[r].id)])
    case Cancel(r) =>
      if !Deciding(w, r) then w else
        Resolve(w, w.requests[r].id, Cancelled).(requests := w.requests - {r})
    case AirApproved(r) =>
      if !MustHandOver(w, r) then w else
        w.(handedOff := w.handedOff + [HandOff(w.requests[r].id, w.clock, Operator)], requests := w.requests - {r})
    case Abandon(r) => w.(requests := w.requests - {r})
  }

  function Step(w: World, e: Event): World {
    match e
    case Act(a) => Outside(w, a)
    case Query(k) =>
      if k in w.sweeps then w else w.(sweeps := w.sweeps[k := Sweep(DueIds(w.rows, w.clock), None, None)])
    case Look(k, id) =>
      if k !in w.sweeps then w else
        var seen := if w.sweeps[k].flipped.None? && id in w.sweeps[k].due && PendingRow(w, id) then Some(id) else None;
        w.(sweeps := w.sweeps[k := w.sweeps[k].(due := w.sweeps[k].due - {id}, looked := seen)])
    case Flip(k) =>
      if k !in w.sweeps || w.sweeps[k].looked.None? || w.sweeps[k].looked.value !in w.rows then w else
        var id := w.sweeps[k].looked.value;
        Resolve(w, id, Released).(sweeps := w.sweeps[k := w.sweeps[k].(looked := None, flipped := Some(id))])
    case Air(k) =>
      if k !in w.sweeps || w.sweeps[k].flipped.None? then w else
        w.(handedOff := w.handedOff + [HandOff(w.sweeps[k].flipped.value, w.clock, Sweeper)],
           sweeps := w.sweeps[k := w.sweeps[k].(flipped := None)])
    case Drop(k) =>
      if k !in w.sweeps then w else w.(sweeps := w.sweeps[k := w.sweeps[k].(looked := None, flipped := None)])
    case StopSweep(k) => w.(sweeps := w.sweeps - {k})
  }

  function Run(start: int, es: seq<Event>): World {
    if es == [] then World(map[], start, map[], map[], [], []) else Step(Run(start, es[..|es| - 1]), es[|es| - 1])
  }

  /** The row whose status an event is about to write, whoever writes it. */
  function Committing(w: World, e: Event): Option<int> {
    match e
    case Flip(k) => if k in w.sweeps then w.sweeps[k].looked else None
    case Act(Approve(r)) => if Deciding(w, r) then Some(w.requests[r].id) else None
    case Act(Cancel(r)) => if Deciding(w, r) then Some(w.requests[r].id) else None
    case _ => None
  }

  /** If the event commits a decision on row `id`, it finds the row still pending, as it was seen. */
  predicate CommitsPending(w: World, e: Event, id: int) { Committing(w, e) == Some(id) ==> PendingRow(w, id) }

  /** Nobody else resolves row `id` between a look or check of it and the commit that follows from it. */
  predicate Unraced(start: int, es: seq<Event>, id: int) {
    es == [] || (Unraced(start, es[..|es| - 1], id) && CommitsPending(Run(start, es[..|es| - 1]), es[|es| - 1], id))
  }

  predicate AtMostOnce(xs: seq<int>, x: int) { forall i, j | 0 <= i < j < |xs| && xs[i] == x :: xs[j] != x }

  // ---------------------------------------------------------------------------
  // Every run
  // ---------------------------------------------------------------------------

  /** True of every run, raced or not. */
  ghost predicate Orderly(w: World) {
    && ResolvedExactly(w)
    && OrderlySweeps(w)
    && (forall r <- w.requests :: w.requests[r].id in w.rows)
    && (forall h <- w.handedOff :: h.id in w.rows && h.at <= w.clock)
    && (forall h <- w.handedOff | h.sender.Sweeper? :: Reached(w, h.id) && w.rows[h.id].holdUntil <= h.at)
  }

  /** A row has left pending exactly if it has been resolved. */
  ghost predicate ResolvedExactly(w: World) {
    && (forall id <- w.resolved :: id in w.rows && !w.rows[id].status.Pending?)
    && (forall id <- w.rows :: !w.rows[id].status.Pending? ==> id in w.resolved)
  }

  ghost predicate OrderlySweeps(w: World) {
    && (forall k <- w.sweeps, id <- w.sweeps[k].due :: id in w.rows && w.rows[id].source.Ota? && w.rows[id].holdUntil <= w.clock)
    && (forall k <- w.sweeps | w.sweeps[k].looked.Some? :: Reached(w, w.sweeps[k].looked.value))
    && (forall k <- w.sweeps | w.sweeps[k].flipped.Some? ::
          w.sweeps[k].looked.None? && Reached(w, w.sweeps[k].flipped.value)
          && !w.rows[w.sweeps[k].flipped.value].status.Pending?)
  }

  predicate Reached(w: World, id: int) {
    id in w.rows && w.rows[id].source.Ota? && w.rows[id].holdUntil <= w.clock
  }

  lemma {:induction false} AlwaysOrderly(start: int, es: seq<Event>)
    ensures Orderly(Run(start, es))
  {
    if es != [] {
      AlwaysOrderly(start, es[..|es| - 1]);
      OrderlyStep(Run(start, es[..|es| - 1]), es[|es| - 1]);
    }
  }

  lemma OrderlyStep(w: World, e: Event)
    requires Orderly(w)
    ensures Orderly(Step(w, e))
  {
    hide Orderly;
    match e
    case Act(a) => OrderlyOutside(w, a);
    case Query(k) => OrderlyQuery(w, k);
    case Look(k, id) => OrderlyLook(w, k, id);
    case Flip(k) => OrderlyFlip(w, k);
    case Air(k) => OrderlyHandOver(w, k);
    case Drop(k) => OrderlyDrop(w, k);
    case StopSweep(k) => OrderlyStop(w, k);
  }

  lemma OrderlyOutside(w: World, a: Action)
    requires Orderly(w)
    ensures Orderly(Outside(w, a))
  {
    hide Orderly;
    match a
    case Hold(id, source, holdUntil) => OrderlyHold(w, id, Row(source, Pending, holdUntil));
    case Tick(elapsed) => OrderlyTick(w, elapsed);
    case Check(r, id) => OrderlyCheck(w, r, id);
    case Approve(r) =>
      if Deciding(w, r) {
        OrderlyResolve(w, w.requests[r].id, Approved);
        OrderlyRequest(Resolve(w, w.requests[r].id, Approved), r, MustAir(w.requests[r].id));
      }
    case Cancel(r) =>
      if Deciding(w, r) {
        OrderlyResolve(w, w.requests[r].id, Cancelled);
        OrderlyEnd(Resolve(w, w.requests[r].id, Cancelled), r);
      }
    case AirApproved(r) => OrderlyAir(w, r);
    case Abandon(r) => OrderlyEnd(w, r);
  }

  lemma OrderlyHold(w: World, id: int, row: Row)
    requires Orderly(w) && row.status.Pending?
    ensures id !in w.rows ==> Orderly(w.(rows := w.rows[id := row]))
  {
  }

  lemma OrderlyTick(w: World, elapsed: nat)
    requires Orderly(w)
    ensures Orderly(w.(clock := w.clock + elapsed))
  {
  }

  lemma OrderlyCheck(w: World, r: nat, id: int)
    requires Orderly(w)
    ensures Orderly(Outside(w, Check(r, id)))
  {
  }

  lemma OrderlyRequest(w: World, r: nat, request: Request)
    requires Orderly(w) && request.id in w.rows
    ensures Orderly(w.(requests := w.requests[r := request]))
  {
  }

  lemma OrderlyEnd(w: World, r: nat)
    requires Orderly(w)
    ensures Orderly(w.(requests := w.requests - {r}))
  {
  }

  lemma OrderlyResolve(w: World, id: int, status: Status)
    requires Orderly(w) && id in w.rows && !status.Pending?
    ensures Orderly(Resolve(w, id, status))
  {
  }

  lemma OrderlyAir(w: World, r: nat)
    requires Orderly(w)
    ensures Orderly(Outside(w, AirApproved(r)))
  {
  }

  lemma OrderlyQuery(w: World, k: nat)
    requires Orderly(w)
    ensures Orderly(Step(w, Query(k)))
  {
  }

  lemma OrderlyLook(w: World, k: nat, id: int)
    requires Orderly(w)
    ensures Orderly(Step(w, Look(k, id)))
  {
  }

  lemma OrderlyFlip(w: World, k: nat)
    requires Orderly(w)
    ensures Orderly(Step(w, Flip(k)))
  {
  }

  lemma OrderlyHandOver(w: World, k: nat)
    requires Orderly(w)
    ensures Orderly(Step(w, Air(k)))
  {
  }

  lemma OrderlyDrop(w: World, k: nat)
    requires Orderly(w)
    ensures Orderly(Step(w, Drop(k)))
  {
  }

  lemma OrderlyStop(w: World, k: nat)
    requires Orderly(w)
    ensures Orderly(Step(w, StopSweep(k)))
  {
  }

  /** Even with races the sweeper is never early. */
  lemma NeverEarly(start: int, es: seq<Event>)
    ensures var w := Run(start, es);
            forall h <- w.handedOff | h.sender.Sweeper? :: Reached(w, h.id) && w.rows[h.id].holdUntil <= h.at
  {
    AlwaysOrderly(start, es);
  }

  // ---------------------------------------------------------------------------
  // Every run in which one row is not raced, whatever happens to the others
  // ---------------------------------------------------------------------------

  ghost predicate Exclusive(w: World, id: int) {
    && AtMostOnce(w.resolved, id)
    && FlippedOnce(w, id)
    && ApprovedOnce(w, id)
    && HandedOnce(w, id)
  }

  ghost predicate FlippedOnce(w: World, id: int) {
    && (forall k <- w.sweeps | w.sweeps[k].flipped == Some(id) :: Unaired(w, id, Released))
    && (forall k <- w.sweeps, j <- w.sweeps | w.sweeps[k].flipped == Some(id) == w.sweeps[j].flipped :: k == j)
  }

  ghost predicate ApprovedOnce(w: World, id: int) {
    && (forall r <- w.requests | w.requests[r] == MustAir(id) :: Unaired(w, id, Approved))
    && (forall r <- w.requests, q <- w.requests | w.requests[r] == MustAir(id) == w.requests[q] :: r == q)
  }

  ghost predicate HandedOnce(w: World, id: int) {
    && (forall i, j | 0 <= i < j < |w.handedOff| && w.handedOff[i].id == id :: w.handedOff[j].id != id)
    && (forall h <- w.handedOff | h.id == id :: id in w.rows && w.rows[id].status == if h.sender.Sweeper? then Released else Approved)
  }

  predicate Unaired(w: World, id: int, status: Status) {
    id in w.rows && w.rows[id].status == status && forall h <- w.handedOff :: h.id != id
  }

  lemma ResolvedOnceStep(w: World, e: Event, id: int)
    requires Orderly(w) && AtMostOnce(w.resolved, id)
    ensures AtMostOnce(Step(w, e).resolved, id) <==> CommitsPending(w, e, id)
  {
    ResolvesItsRow(w, e);
    hide Step;
    if !CommitsPending(w, e, id) {
      var first :| 0 <= first < |w.resolved| && w.resolved[first] == id;
      assert Step(w, e).resolved[first] == Step(w, e).resolved[|w.resolved|];
    }
  }

  /** The rows and their resolutions only change by the commit that an event makes. */
  lemma ResolvesItsRow(w: World, e: Event)
    requires Orderly(w)
    ensures Committing(w, e).Some? ==> Committing(w, e).value in w.rows
    ensures Step(w, e).resolved == w.resolved + if Committing(w, e).Some? then [Committing(w, e).value] else []
    ensures forall id <- w.rows :: id in Step(w, e).rows
    ensures forall id <- w.rows | Committing(w, e) != Some(id) :: Step(w, e).rows[id] == w.rows[id]
  {
  }

  lemma FlippedOnceStep(w: World, e: Event, id: int)
    requires Orderly(w) && Exclusive(w, id) && CommitsPending(w, e, id)
    ensures FlippedOnce(Step(w, e), id)
  {
    hide FlippedOnce, Orderly, Committing, CommitsPending;
    match e
    case Act(a) => FlippedOnceOutside(w, a, id);
    case Flip(k) => FlippedOnceFlip(w, k, id);
    case Air(k) => FlippedOnceAir(w, k, id);
    case _ => FlippedOnceElse(w, e, id);
  }

  lemma FlippedOnceOutside(w: World, a: Action, id: int)
    requires Orderly(w) && Exclusive(w, id) && CommitsPending(w, Act(a), id)
    ensures FlippedOnce(Outside(w, a), id)
  {
  }

  lemma FlippedOnceFlip(w: World, k: nat, id: int)
    requires Orderly(w) && Exclusive(w, id) && CommitsPending(w, Flip(k), id)
    ensures FlippedOnce(Step(w, Flip(k)), id)
  {
  }

  lemma FlippedOnceAir(w: World, k: nat, id: int)
    requires FlippedOnce(w, id)
    ensures FlippedOnce(Step(w, Air(k)), id)
  {
  }

  lemma FlippedOnceElse(w: World, e: Event, id: int)
    requires FlippedOnce(w, id) && !e.Act? && !e.Flip? && !e.Air?
    ensures FlippedOnce(Step(w, e), id)
  {
  }

  lemma ApprovedOnceStep(w: World, e: Event, id: int)
    requires Orderly(w) && Exclusive(w, id) && CommitsPending(w, e, id)
    ensures ApprovedOnce(Step(w, e), id)
  {
    if e.Act? {
      ApprovedOnceOutside(w, e.action, id);
    } else {
      ApprovedOnceSweep(w, e, id);
    }
  }

  lemma ApprovedOnceOutside(w: World, a: Action, id: int)
    requires Orderly(w) && Exclusive(w, id) && CommitsPending(w, Act(a), id)
    ensures ApprovedOnce(Outside(w, a), id)
  {
  }

  lemma ApprovedOnceSweep(w: World, e: Event, id: int)
    requires Orderly(w) && Exclusive(w, id) && CommitsPending(w, e, id) && !e.Act?
    ensures ApprovedOnce(Step(w, e), id)
  {
  }

  lemma HandedOnceStep(w: World, e: Event, id: int)
    requires Orderly(w) && Exclusive(w, id) && CommitsPending(w, e, id)
    ensures HandedOnce(Step(w, e), id)
  {
    if e.Act? {
      HandedOnceOutside(w, e.action, id);
    } else {
      HandedOnceSweep(w, e, id);
    }
  }

  lemma HandedOnceOutside(w: World, a: Action, id: int)
    requires Orderly(w) && Exclusive(w, id) && CommitsPending(w, Act(a), id)
    ensures HandedOnce(Outside(w, a), id)
  {
  }

  lemma HandedOnceSweep(w: World, e: Event, id: int)
    requires Orderly(w) && Exclusive(w, id) && CommitsPending(w, e, id) && !e.Act?
    ensures HandedOnce(Step(w, e), id)
  {
  }

  lemma {:induction false} AlwaysExclusive(start: int, es: seq<Event>, id: int)
    requires Unraced(start, es, id)
    ensures Exclusive(Run(start, es), id)
  {
    if es != [] {
      var w, e := Run(start, es[..|es| - 1]), es[|es| - 1];
      AlwaysExclusive(start, es[..|es| - 1], id);
      AlwaysOrderly(start, es[..|es| - 1]);
      hide Orderly, FlippedOnce, ApprovedOnce, HandedOnce, AtMostOnce, Step, CommitsPending;
      ResolvedOnceStep(w, e, id);
      FlippedOnceStep(w, e, id);
      ApprovedOnceStep(w, e, id);
      HandedOnceStep(w, e, id);
    }
  }

  /** A row is resolved at most once exactly if no commit on it is raced. */
  lemma {:induction false} ResolvedOnceIffUnraced(start: int, es: seq<Event>, id: int)
    ensures AtMostOnce(Run(start, es).resolved, id) <==> Unraced(start, es, id)
  {
    if es != [] {
      var w, e := Run(start, es[..|es| - 1]), es[|es| - 1];
      ResolvedOnceIffUnraced(start, es[..|es| - 1], id);
      AlwaysOrderly(start, es[..|es| - 1]);
      hide Orderly, Step, CommitsPending;
      if AtMostOnce(w.resolved, id) {
        ResolvedOnceStep(w, e, id);
      } else {
        ResolvesItsRow(w, e);
        var i, j :| 0 <= i < j < |w.resolved| && w.resolved[i] == id == w.resolved[j];
        assert Step(w, e).resolved[i] == id == Step(w, e).resolved[j];
      }
    }
  }

  /**
   Over every interleaving in which row `id` is not raced, whatever races others suffer, it is handed over
   at most once, whoever does it; the sweeper hands it over only if it is an off-air row that the sweeper
   has itself released, and not before its hold ends; and it is never handed over while pending or cancelled.
   */
  lemma HandedOverAtMostOnce(start: int, es: seq<Event>, id: int)
    requires Unraced(start, es, id)
    ensures var w := Run(start, es);
            && (forall i, j | 0 <= i < j < |w.handedOff| && w.handedOff[i].id == id :: w.handedOff[j].id != id)
            && (forall h <- w.handedOff | h.id == id ::
                  && id in w.rows && !w.rows[id].status.Cancelled? && !w.rows[id].status.Pending?
                  && (h.sender.Sweeper? ==>
                        w.rows[id].source.Ota? && w.rows[id].status.Released? && w.rows[id].holdUntil <= h.at))
  {
    AlwaysExclusive(start, es, id);
    AlwaysOrderly(start, es);
  }

  /** A row whose commits directly follow their look or check is never raced, whatever else happens in between. */
  lemma AtomicDecisionsAreUnraced(start: int, es: seq<Event>, id: int)
    requires forall i: nat | i < |es| && Committing(Run(start, es[..i]), es[i]) == Some(id) ::
               && i > 0
               && (es[i].Flip? ==> es[i - 1].Look? && es[i - 1].sweeper == es[i].sweeper)
               && (es[i].Act? && (es[i].action.Approve? || es[i].action.Cancel?) ==>
                     es[i - 1].Act? && es[i - 1].action.Check? && es[i - 1].action.request == es[i].action.request)
    ensures Unraced(start, es, id)
  {
    forall i: nat | i < |es| ensures DecidesAt(start, es, i, id) ==> i > 0 && LooksFor(es[i - 1], es[i]) {
      hide Run;
    }
    hide Run, DecidesAt, LooksFor;
    LooksPrecede(start, es, id);
  }

  lemma {:induction false} LooksPrecede(start: int, es: seq<Event>, id: int)
    requires forall i: nat | i < |es| :: DecidesAt(start, es, i, id) ==> i > 0 && LooksFor(es[i - 1], es[i])
    ensures Unraced(start, es, id)
  {
    if es != [] {
      var before, last := es[..|es| - 1], es[|es| - 1];
      forall i: nat | i < |before| ensures DecidesAt(start, before, i, id) ==> i > 0 && LooksFor(before[i - 1], before[i]) {
        assert before[..i] == es[..i] && DecidesAt(start, before, i, id) == DecidesAt(start, es, i, id);
      }
      LooksPrecede(start, before, id);
      if DecidesAt(start, es, |before|, id) {
        DecidesAtOnce(Run(start, before[..|before| - 1]), before[|before| - 1], last, id);
      }
    }
  }

  /** The i-th event commits a decision on row `id`. */
  predicate DecidesAt(start: int, es: seq<Event>, i: nat, id: int)
    requires i < |es|
  {
    Committing(Run(start, es[..i]), es[i]) == Some(id)
  }

  /** The look or check that the decision `e` follows from. */
  predicate LooksFor(look: Event, e: Event) {
    match e
    case Flip(k) => look.Look? && look.sweeper == k
    case Act(Approve(r)) => look.Act? && look.action.Check? && look.action.request == r
    case Act(Cancel(r)) => look.Act? && look.action.Check? && look.action.request == r
    case _ => false
  }

  lemma DecidesAtOnce(w: World, look: Event, e: Event, id: int)
    requires LooksFor(look, e)
    ensures CommitsPending(Step(w, look), e, id)
  {
  }

  /** Once an unraced row has left pending its status never changes again. */
  lemma {:induction false} ResolutionIsFinal(start: int, es: seq<Event>, more: seq<Event>, id: int)
    requires Unraced(start, es + more, id)
    requires id in Run(start, es).rows && !Run(start, es).rows[id].status.Pending?
    ensures id in Run(start, es + more).rows
    ensures Run(start, es + more).rows[id].status == Run(start, es).rows[id].status
  {
    hide Step, CommitsPending;
    if more == [] {
      assert es + more == es;
    } else {
      var most := more[..|more| - 1];
      assert (es + more)[..|es + more| - 1] == es + most;
      ResolutionIsFinal(start, es, most, id);
      StatusStays(Run(start, es + most), more[|more| - 1], id);
    }
  }

  lemma StatusStays(w: World, e: Event, id: int)
    requires CommitsPending(w, e, id) && id in w.rows && !w.rows[id].status.Pending?
    ensures id in Step(w, e).rows && Step(w, e).rows[id].status == w.rows[id].status
  {
  }

  // ---------------------------------------------------------------------------
  // Races
  // ---------------------------------------------------------------------------

  lemma RunSnoc(start: int, es: seq<Event>, e: Event)
    ensures Run(start, es + [e]) == Step(Run(start, es), e)
  {
    assert (es + [e])[..|es|] == es;
  }

  /** A sweeper and a request have both seen row 7, now `status`, pending. */
  function SeenByBoth(status: Status, resolved: seq<int>): World {
    World(map[7 := Row(Ota, status, 0)], 0, map[0 := Sweep({}, Some(7), None)], map[0 := FoundPending(7)], resolved, [])
  }

  const BOTH_LOOK: seq<Event> := [Act(Hold(7, Ota, 0)), Query(0), Look(0, 7), Act(Check(0, 7))]

  lemma BothSeePending()
    ensures Run(0, BOTH_LOOK) == SeenByBoth(Pending, [])
  {
    LookedPending();
    RunSnoc(0, ONE_LOOKS, Act(Check(0, 7)));
    assert ONE_LOOKS + [Act(Check(0, 7))] == BOTH_LOOK;
  }

  const ONE_LOOKS: seq<Event> := [Act(Hold(7, Ota, 0)), Query(0), Look(0, 7)]

  lemma LookedPending()
    ensures Run(0, ONE_LOOKS) == SeenByBoth(Pending, []).(requests := map[])
  {
    var e0, e1, e2 := Act(Hold(7, Ota, 0)), Query(0), Look(0, 7);
    HeldThenQueried();
    RunSnoc(0, [], e0);
    RunSnoc(0, [e0], e1);
    RunSnoc(0, [e0, e1], e2);
    hide Run, Step;
    assert [] + [e0] == [e0] && [e0] + [e1] == [e0, e1] && [e0, e1] + [e2] == ONE_LOOKS;
  }

  lemma HeldThenQueried()
    ensures Step(Step(Step(Run(0, []), Act(Hold(7, Ota, 0))), Query(0)), Look(0, 7)) == SeenByBoth(Pending, []).(requests := map[])
  {
    var held := map[7 := Row(Ota, Pending, 0)];
    assert DueIds(held, 0) == {7} && {7} - {7} == {};
    var w := World(held, 0, map[], map[], [], []);
    assert Step(Run(0, []), Act(Hold(7, Ota, 0))) == w;
    assert Step(w, Query(0)) == w.(sweeps := map[0 := Sweep({7}, None, None)]);
  }

  /** A cancel that commits between the sweeper's look and its flip is overwritten, and the alert is handed over. */
  lemma RacedCancelGoesToAir()
    ensures var es := BOTH_LOOK + [Act(Cancel(0))] + [Flip(0)] + [Air(0)];
            && !Unraced(0, es, 7)
            && Run(0, es).resolved == [7, 7] && Run(0, es).handedOff == [HandOff(7, 0, Sweeper)]
  {
    hide Step, Run, Orderly;
    BothSeePending();
    RacedCancelSteps();
    RunSnoc(0, BOTH_LOOK, Act(Cancel(0)));
    RunSnoc(0, BOTH_LOOK + [Act(Cancel(0))], Flip(0));
    RunSnoc(0, BOTH_LOOK + [Act(Cancel(0))] + [Flip(0)], Air(0));
    var es := BOTH_LOOK + [Act(Cancel(0))] + [Flip(0)] + [Air(0)];
    ResolvedOnceIffUnraced(0, es, 7);
    assert Run(0, es).resolved[0] == Run(0, es).resolved[1];
  }

  lemma RacedCancelSteps()
    ensures var w := Step(Step(Step(SeenByBoth(Pending, []), Act(Cancel(0))), Flip(0)), Air(0));
            w.resolved == [7, 7] && w.handedOff == [HandOff(7, 0, Sweeper)]
  {
  }

  /** An approval checked before the sweeper's flip and committed after it hands the alert over a second time. */
  lemma RacedApprovalAirsTwice()
    ensures var es := BOTH_LOOK + [Flip(0)] + [Air(0)] + [Act(Approve(0))] + [Act(AirApproved(0))];
            && !Unraced(0, es, 7)
            && Run(0, es).handedOff == [HandOff(7, 0, Sweeper), HandOff(7, 0, Operator)]
  {
    hide Step, Run, Orderly;
    BothSeePending();
    RacedApprovalSteps();
    RunSnoc(0, BOTH_LOOK, Flip(0));
    RunSnoc(0, BOTH_LOOK + [Flip(0)], Air(0));
    RunSnoc(0, BOTH_LOOK + [Flip(0)] + [Air(0)], Act(Approve(0)));
    RunSnoc(0, BOTH_LOOK + [Flip(0)] + [Air(0)] + [Act(Approve(0))], Act(AirApproved(0)));
    var es := BOTH_LOOK + [Flip(0)] + [Air(0)] + [Act(Approve(0))] + [Act(AirApproved(0))];
    assert Run(0, es).handedOff[0].id == Run(0, es).handedOff[1].id;
    if Unraced(0, es, 7) {
      HandedOverAtMostOnce(0, es, 7);
    }
  }

  lemma RacedApprovalSteps()
    ensures var w := Step(Step(Step(Step(SeenByBoth(Pending, []), Flip(0)), Air(0)), Act(Approve(0))), Act(AirApproved(0)));
            w.handedOff == [HandOff(7, 0, Sweeper), HandOff(7, 0, Operator)]
  {
  }

  /** What the sweeper has handed over is out of its reach. */
  ghost predicate SweeperOnce(w: World) {
    && (forall i, j | 0 <= i < j < |w.handedOff| && w.handedOff[i].sender.Sweeper? && w.handedOff[j].sender.Sweeper? ::
          w.handedOff[i].id != w.handedOff[j].id)
    && (forall h <- w.handedOff | h.sender.Sweeper? :: !PendingRow(w, h.id) && OutOfReach(w, h.id))
  }

  ghost predicate OutOfReach(w: World, id: int) {
    forall k <- w.sweeps :: w.sweeps[k].looked != Some(id) && w.sweeps[k].flipped != Some(id)
  }

  lemma SweeperOnceStep(w: World, e: Event)
    requires Orderly(w) && SweeperOnce(w)
    requires forall j <- w.sweeps, k <- w.sweeps :: j == k
    ensures SweeperOnce(Step(w, e))
  {
    hide Orderly;
    if e.Act? {
      SweeperOnceOutside(w, e.action);
    } else if e.Air? {
      SweeperOnceAir(w, e.sweeper);
    } else {
      SweeperOnceSweep(w, e);
    }
  }

  lemma SweeperOnceOutside(w: World, a: Action)
    requires Orderly(w) && SweeperOnce(w)
    ensures SweeperOnce(Outside(w, a))
  {
  }

  lemma SweeperOnceAir(w: World, k: nat)
    requires Orderly(w) && SweeperOnce(w)
    requires forall i <- w.sweeps, j <- w.sweeps :: i == j
    ensures SweeperOnce(Step(w, Air(k)))
  {
  }

  lemma SweeperOnceSweep(w: World, e: Event)
    requires Orderly(w) && SweeperOnce(w) && !e.Act? && !e.Air?
    ensures SweeperOnce(Step(w, e))
  {
  }

  lemma {:induction false} AlwaysSweeperOnce(start: int, es: seq<Event>)
    requires forall n: nat | n <= |es| ::
               forall j <- Run(start, es[..n]).sweeps, k <- Run(start, es[..n]).sweeps :: j == k
    ensures SweeperOnce(Run(start, es))
  {
    if es != [] {
      var before := es[..|es| - 1];
      forall n: nat | n <= |before|
        ensures forall j <- Run(start, before[..n]).sweeps, k <- Run(start, before[..n]).sweeps :: j == k
      {
        assert before[..n] == es[..n];
      }
      AlwaysSweeperOnce(start, before);
      AlwaysOrderly(start, es[..|es| - 1]);
      hide Orderly, SweeperOnce, Step;
      SweeperOnceStep(Run(start, es[..|es| - 1]), es[|es| - 1]);
    }
  }

  /**
   With at most one sweep at any time, as with the one scheduler instance that should run, the sweeper hands
   each row over at most once, in raced runs too.
   */
  lemma OneSweeperHandsOverAtMostOnce(start: int, es: seq<Event>)
    requires forall n: nat | n <= |es| ::
               forall j <- Run(start, es[..n]).sweeps, k <- Run(start, es[..n]).sweeps :: j == k
    ensures var sent := Run(start, es).handedOff;
            forall i, j | 0 <= i < j < |sent| && sent[i].sender.Sweeper? && sent[j].sender.Sweeper? :: sent[i].id != sent[j].id
  {
    AlwaysSweeperOnce(start, es);
  }

  // ---------------------------------------------------------------------------
  // Lost releases
  // ---------------------------------------------------------------------------

  /** Released, but neither handed over nor in a sweeper's hands. */
  ghost predicate Lost(w: World, id: int) { Unaired(w, id, Released) && !Held(w, id) }

  ghost predicate Held(w: World, id: int) { exists k <- w.sweeps :: w.sweeps[k].flipped == Some(id) }

  /** Sweeps other than `k` are as they were. */
  lemma HeldElsewhere(w: World, w': World, k: nat, id: int)
    requires forall j | j != k :: (j in w.sweeps <==> j in w'.sweeps) && (j in w.sweeps ==> w'.sweeps[j] == w.sweeps[j])
    ensures (k in w.sweeps && w.sweeps[k].flipped == Some(id)) == (k in w'.sweeps && w'.sweeps[k].flipped == Some(id))
            ==> (Held(w, id) <==> Held(w', id))
    ensures !(k in w'.sweeps && w'.sweeps[k].flipped == Some(id)) ==>
              (Held(w', id) <==> exists j <- w.sweeps :: j != k && w.sweeps[j].flipped == Some(id))
    ensures k in w.sweeps && w.sweeps[k].flipped == Some(id) ==> Held(w, id)
    ensures k in w'.sweeps && w'.sweeps[k].flipped == Some(id) ==> Held(w', id)
  {
    if Held(w, id) {
      var j :| j in w.sweeps && w.sweeps[j].flipped == Some(id);
      if j != k { assert j in w'.sweeps && w'.sweeps[j].flipped == Some(id); }
    }
    if Held(w', id) {
      var j :| j in w'.sweeps && w'.sweeps[j].flipped == Some(id);
      if j != k { assert j in w.sweeps && w.sweeps[j].flipped == Some(id); }
    }
    forall j | j in w.sweeps && j != k && w.sweeps[j].flipped == Some(id) ensures Held(w', id) {
      assert j in w'.sweeps && w'.sweeps[j].flipped == Some(id);
    }
  }

  /** A sweeper lets go of a row that it has committed and not handed over. */
  predicate Loses(w: World, e: Event, id: int) {
    (e.Drop? || e.StopSweep?) && e.sweeper in w.sweeps && w.sweeps[e.sweeper].flipped == Some(id)
  }

  predicate LosesAt(start: int, es: seq<Event>, i: nat, id: int)
    requires i < |es|
  {
    Loses(Run(start, es[..i]), es[i], id)
  }

  lemma LostStep(w: World, e: Event, id: int)
    requires Orderly(w) && Exclusive(w, id) && CommitsPending(w, e, id)
    ensures Lost(Step(w, e), id) <==> Lost(w, id) || Loses(w, e, id)
  {
    hide Orderly, Lost, FlippedOnce;
    match e
    case Act(a) => LostOutside(w, a, id);
    case Flip(k) => LostFlip(w, k, id);
    case Air(k) => LostAir(w, k, id);
    case Drop(k) => LostDrop(w, k, id);
    case StopSweep(k) => LostStop(w, k, id);
    case _ => LostElse(w, e, id);
  }

  lemma LostOutside(w: World, a: Action, id: int)
    requires Orderly(w) && Exclusive(w, id) && CommitsPending(w, Act(a), id)
    ensures Lost(Outside(w, a), id) <==> Lost(w, id)
  {
  }

  lemma LostFlip(w: World, k: nat, id: int)
    requires Orderly(w) && CommitsPending(w, Flip(k), id)
    ensures Lost(Step(w, Flip(k)), id) <==> Lost(w, id)
  {
    hide Held;
    HeldElsewhere(w, Step(w, Flip(k)), k, id);
  }

  lemma LostAir(w: World, k: nat, id: int)
    requires FlippedOnce(w, id)
    ensures Lost(Step(w, Air(k)), id) <==> Lost(w, id)
  {
    hide Held;
    HeldElsewhere(w, Step(w, Air(k)), k, id);
  }

  lemma LostDrop(w: World, k: nat, id: int)
    requires FlippedOnce(w, id)
    ensures Lost(Step(w, Drop(k)), id) <==> Lost(w, id) || Loses(w, Drop(k), id)
  {
    hide Held;
    HeldElsewhere(w, Step(w, Drop(k)), k, id);
  }

  lemma LostStop(w: World, k: nat, id: int)
    requires FlippedOnce(w, id)
    ensures Lost(Step(w, StopSweep(k)), id) <==> Lost(w, id) || Loses(w, StopSweep(k), id)
  {
    hide Held;
    HeldElsewhere(w, Step(w, StopSweep(k)), k, id);
  }

  lemma LostElse(w: World, e: Event, id: int)
    requires e.Query? || e.Look?
    ensures Lost(Step(w, e), id) <==> Lost(w, id)
  {
    hide Held;
    HeldElsewhere(w, Step(w, e), e.sweeper, id);
  }

  /**
   At most once, but not at least once: the release of an unraced row is lost exactly if a sweeper let go
   of it after its commit and before the hand-over, by dying or by failing.
   */
  lemma {:induction false} LostIffDropped(start: int, es: seq<Event>, id: int)
    requires Unraced(start, es, id)
    ensures Lost(Run(start, es), id) <==> exists i: nat | i < |es| :: LosesAt(start, es, i, id)
  {
    if es != [] {
      var before, last := es[..|es| - 1], es[|es| - 1];
      assert es == before + [last];
      RunSnoc(start, before, last);
      LostIffDropped(start, before, id);
      AlwaysExclusive(start, before, id);
      AlwaysOrderly(start, before);
      LostStep(Run(start, before), last, id);
      LosesSnoc(start, before, last, id);
    }
  }

  lemma LosesSnoc(start: int, es: seq<Event>, e: Event, id: int)
    ensures (exists i: nat | i < |es + [e]| :: LosesAt(start, es + [e], i, id))
       <==> (exists i: nat | i < |es| :: LosesAt(start, es, i, id)) || Loses(Run(start, es), e, id)
  {
    hide Run, Loses;
    var all := es + [e];
    assert all[..|es|] == es;
    assert LosesAt(start, all, |es|, id) == Loses(Run(start, es), e, id);
    forall i: nat | i < |es| ensures LosesAt(start, all, i, id) == LosesAt(start, es, i, id) {
      assert all[..i] == es[..i];
    }
  }

  /** What is lost stays lost: no later run of the sweep or of an operator ever airs it. */
  lemma LostReleaseIsNotRetried(start: int, es: seq<Event>, more: seq<Event>, id: int)
    requires Unraced(start, es + more, id) && Lost(Run(start, es), id)
    ensures Lost(Run(start, es + more), id)
  {
    UnracedPrefix(start, es, more, id);
    hide Lost, Loses, Run, Unraced;
    LostIffDropped(start, es, id);
    LostIffDropped(start, es + more, id);
    var i: nat :| i < |es| && LosesAt(start, es, i, id);
    assert (es + more)[..i] == es[..i] && (es + more)[i] == es[i];
    assert LosesAt(start, es + more, i, id);
  }

  lemma {:induction false} UnracedPrefix(start: int, es: seq<Event>, more: seq<Event>, id: int)
    requires Unraced(start, es + more, id)
    ensures Unraced(start, es, id)
  {
    if more == [] {
      assert es + more == es;
    } else {
      assert (es + more)[..|es + more| - 1] == es + more[..|more| - 1];
      UnracedPrefix(start, es, more[..|more| - 1], id);
    }
  }

  /** A process that dies after the commit loses the release. */
  lemma DyingLosesTheRelease()
    ensures var es := ONE_LOOKS + [Flip(0)] + [StopSweep(0)];
            Unraced(0, es, 7) && Lost(Run(0, es), 7)
  {
    hide Run, Orderly;
    LookedPending();
    RunSnoc(0, ONE_LOOKS, Flip(0));
    RunSnoc(0, ONE_LOOKS + [Flip(0)], StopSweep(0));
    var es := ONE_LOOKS + [Flip(0)] + [StopSweep(0)];
    assert Run(0, es).resolved == [7];
    ResolvedOnceIffUnraced(0, es, 7);
  }

  // ---------------------------------------------------------------------------
  // The queue itself
  // ---------------------------------------------------------------------------

  predicate HandedBySweep(w: World, id: int) {
    exists h <- w.handedOff :: h.id == id && h.sender.Sweeper?
  }

  /**
   How the visit to one row goes: reading the row again or committing the release raises; the release
   is committed but the call is not reached; the call, or recording its result, raises; or all is well.
   A failed statement leaves the database session unusable until it is rolled back, and the loop never
   rolls back, so nothing more is read or committed in that sweep.
   */
  datatype Release = NotCommitted | NotReached(sessionBroken: bool) | CallRaises(sessionBroken: bool) | Completes

  predicate Breaks(outcome: Release) {
    outcome.NotCommitted? || ((outcome.NotReached? || outcome.CallRaises?) && outcome.sessionBroken)
  }

  predicate ByOperator(w: World, id: int)
    requires id in w.rows
  {
    w.rows[id].status.Approved? || w.rows[id].status.Cancelled?
  }

  /** A due row that the sweep has read again, and whether it found it pending. */
  datatype Visit = Visit(id: int, pending: bool)

  function VisitedIds(visits: seq<Visit>): set<int> { set v | v in visits :: v.id }

  /** The visit left the session unusable: reading the row or committing failed, or the release broke it. */
  predicate Broke(v: Visit, outcome: int -> Release) {
    outcome(v.id).NotCommitted? || (v.pending && Breaks(outcome(v.id)))
  }

  /** Rows are visited once each, and only the last visit can have broken the session. */
  predicate OnlyLastBreaks(visits: seq<Visit>, outcome: int -> Release) {
    && (forall i, j | 0 <= i < j < |visits| :: visits[i].id != visits[j].id)
    && (forall i | 0 <= i < |visits| - 1 :: !Broke(visits[i], outcome))
  }

  predicate EndsBroken(visits: seq<Visit>, outcome: int -> Release) {
    visits != [] && Broke(visits[|visits| - 1], outcome)
  }

  /** The rows whose release completed, in the order of the visits. */
  function Completed(visits: seq<Visit>, outcome: int -> Release): seq<int> {
    if visits == [] then [] else
      var before, v := Completed(visits[..|visits| - 1], outcome), visits[|visits| - 1];
      if v.pending && outcome(v.id).Completes? then before + [v.id] else before
  }

  /** What has become of a visited row, unless the sweep is still at it. */
  predicate Settled(w: World, v: Visit, outcome: int -> Release, sweep: Sweep) {
    v.id in w.rows &&
    if !v.pending then ByOperator(w, v.id)
    else if outcome(v.id).NotCommitted? || sweep.looked == Some(v.id) then !w.rows[v.id].status.Released?
    else
      && !w.rows[v.id].status.Pending?
      && (outcome(v.id).NotReached? || sweep.flipped == Some(v.id) || HandedBySweep(w, v.id))
  }

  /** Sweep `k` began with the rows `due0`, has made `visits`, and stands at `sweep`. */
  ghost predicate Swept(w: World, k: nat, outcome: int -> Release, due0: set<int>, sweep: Sweep, visits: seq<Visit>) {
    && k in w.sweeps && w.sweeps[k] == sweep
    && sweep.due == due0 - VisitedIds(visits)
    && (forall v <- visits :: v.id in due0 && Settled(w, v, outcome, sweep))
    && (forall v <- visits :: sweep.looked == Some(v.id) || sweep.flipped == Some(v.id) ==> v.pending)
    && (forall id <- sweep.due :: id in w.rows && !w.rows[id].status.Released?)
    && (sweep.looked.Some? ==> sweep.looked.value in VisitedIds(visits))
    && (sweep.flipped.Some? ==> sweep.flipped.value in VisitedIds(visits))
  }

  lemma SweepStarts(w: World, k: nat, outcome: int -> Release)
    requires k !in w.sweeps
    ensures var sweep := Sweep(DueIds(w.rows, w.clock), None, None);
            Swept(w.(sweeps := w.sweeps[k := sweep]), k, outcome, sweep.due, sweep, [])
  {
  }

  lemma HandedBySweepGrows(w: World, w': World, id: int)
    requires HandedBySweep(w, id) && w.handedOff <= w'.handedOff
    ensures HandedBySweep(w', id)
  {
    var h :| h in w.handedOff && h.id == id && h.sender.Sweeper?;
    assert h in w'.handedOff;
  }

  lemma HandedGrow(w: World, e: Event)
    ensures w.handedOff <= Step(w, e).handedOff
  {
  }

  /** What others do leaves a sweep's business settled. */
  lemma SweptOutside(w: World, a: Action, k: nat, outcome: int -> Release, due0: set<int>, sweep: Sweep, visits: seq<Visit>)
    requires Swept(w, k, outcome, due0, sweep, visits)
    ensures Swept(Outside(w, a), k, outcome, due0, sweep, visits)
  {
    hide HandedBySweep, VisitedIds;
    var w' := Outside(w, a);
    OutsideRows(w, a);
    forall v <- visits ensures Settled(w', v, outcome, sweep) {
      if HandedBySweep(w, v.id) {
        HandedBySweepGrows(w, w', v.id);
      }
    }
  }

  /** Others only hold new rows and decide on existing ones. */
  lemma OutsideRows(w: World, a: Action)
    ensures var w' := Outside(w, a);
            && w'.sweeps == w.sweeps && w.handedOff <= w'.handedOff
            && forall id <- w.rows :: id in w'.rows && (w'.rows[id] == w.rows[id] || (ByOperator(w', id) && Decision(a)))
  {
  }

  predicate Decision(a: Action) { a.Approve? || a.Cancel? }

  /** A step of the sweep at the row that it is at. */
  lemma SweptStep(w: World, e: Event, k: nat, outcome: int -> Release, due0: set<int>, sweep: Sweep, sweep': Sweep, visits: seq<Visit>, id: int)
    requires Swept(w, k, outcome, due0, sweep, visits) && sweep'.due == sweep.due
    requires id in VisitedIds(visits) && forall v <- visits | v.id == id :: v.pending
    requires sweep.looked == Some(id) || sweep.flipped == Some(id)
    requires sweep.looked.None? || sweep.looked == Some(id)
    requires sweep.flipped.None? || sweep.flipped == Some(id)
    requires sweep'.looked.None? && (sweep'.flipped.None? || sweep'.flipped == Some(id))
    requires var w' := Step(w, e);
             && w'.sweeps == w.sweeps[k := sweep'] && w.handedOff <= w'.handedOff
             && (forall other <- w.rows :: other in w'.rows && (other != id ==> w'.rows[other] == w.rows[other]))
             && Settled(w', Visit(id, true), outcome, sweep')
    ensures Swept(Step(w, e), k, outcome, due0, sweep', visits)
  {
    hide HandedBySweep, VisitedIds, Step;
    var w' := Step(w, e);
    forall v <- visits ensures Settled(w', v, outcome, sweep') {
      if v.id == id {
        assert v == Visit(id, true);
      } else if HandedBySweep(w, v.id) {
        HandedBySweepGrows(w, w', v.id);
      }
    }
    assert forall other <- sweep.due :: other != id by {
      NotDueAgain(visits, due0, id);
    }
  }

  lemma NotDueAgain(visits: seq<Visit>, due0: set<int>, id: int)
    requires id in VisitedIds(visits)
    ensures id !in due0 - VisitedIds(visits)
  {
  }

  lemma SweptLook(w: World, k: nat, id: int, outcome: int -> Release, due0: set<int>, due: set<int>, visits: seq<Visit>)
    requires Swept(w, k, outcome, due0, Sweep(due, None, None), visits) && id in due
    ensures id in w.rows && id !in VisitedIds(visits)
    ensures VisitedIds(visits + [Visit(id, PendingRow(w, id))]) == VisitedIds(visits) + {id}
    ensures Swept(Step(w, Look(k, id)), k, outcome, due0,
                  Sweep(due - {id}, if PendingRow(w, id) then Some(id) else None, None), visits + [Visit(id, PendingRow(w, id))])
  {
    var v := Visit(id, PendingRow(w, id));
    var visits' := visits + [v];
    assert forall u :: u in visits' <==> u in visits || u == v;
    assert VisitedIds(visits') == VisitedIds(visits) + {id};
    assert v in visits';
    var w', sweep' := Step(w, Look(k, id)), Sweep(due - {id}, if v.pending then Some(id) else None, None);
    assert w'.sweeps[k] == sweep' && w'.rows == w.rows && w'.handedOff == w.handedOff;
    hide Step;
    forall u <- visits' ensures Settled(w', u, outcome, sweep') {
      if u in visits {
        assert u.id in VisitedIds(visits) && Settled(w, u, outcome, Sweep(due, None, None));
      }
    }
  }

  lemma SweptFlip(w: World, k: nat, id: int, outcome: int -> Release, due0: set<int>, due: set<int>, visits: seq<Visit>)
    requires Swept(w, k, outcome, due0, Sweep(due, Some(id), None), visits) && !outcome(id).NotCommitted?
    ensures id in w.rows
    ensures Swept(Step(w, Flip(k)), k, outcome, due0, Sweep(due, None, Some(id)), visits)
  {
    var v :| v in visits && v.id == id;
    SweptStep(w, Flip(k), k, outcome, due0, Sweep(due, Some(id), None), Sweep(due, None, Some(id)), visits, id);
  }

  lemma SweptAir(w: World, k: nat, id: int, outcome: int -> Release, due0: set<int>, due: set<int>, visits: seq<Visit>)
    requires Swept(w, k, outcome, due0, Sweep(due, None, Some(id)), visits) && !outcome(id).NotCommitted?
    ensures Swept(Step(w, Air(k)), k, outcome, due0, Sweep(due, None, None), visits)
  {
    var w' := Step(w, Air(k));
    var v :| v in visits && v.id == id;
    assert HandOff(id, w.clock, Sweeper) in w'.handedOff;
    assert HandedBySweep(w', id);
    SweptStep(w, Air(k), k, outcome, due0, Sweep(due, None, Some(id)), Sweep(due, None, None), visits, id);
  }

  /** The sweep lets go of the row: before its commit if that failed, after it if the call is not reached. */
  lemma SweptDrop(w: World, k: nat, id: int, outcome: int -> Release, due0: set<int>, sweep: Sweep, visits: seq<Visit>)
    requires Swept(w, k, outcome, due0, sweep, visits)
    requires if sweep.looked == Some(id) then sweep.flipped.None? && outcome(id).NotCommitted?
             else sweep.looked.None? && sweep.flipped == Some(id) && outcome(id).NotReached?
    ensures Swept(Step(w, Drop(k)), k, outcome, due0, Sweep(sweep.due, None, None), visits)
  {
    var v :| v in visits && v.id == id;
    SweptStep(w, Drop(k), k, outcome, due0, sweep, Sweep(sweep.due, None, None), visits, id);
  }

  /** What a sweep leaves: rows that were due are pending exactly if undecided and uncommitted or unreached. */
  lemma SweepEnds(w: World, k: nat, outcome: int -> Release, due0: set<int>, due: set<int>, visits: seq<Visit>)
    requires Swept(w, k, outcome, due0, Sweep(due, None, None), visits)
    ensures var w' := w.(sweeps := w.sweeps - {k});
            && due == due0 - VisitedIds(visits) && VisitedIds(visits) <= due0
            && (forall id <- due0 ::
                  id in w'.rows && (w'.rows[id].status.Pending? <==> !ByOperator(w', id) && (id in due || outcome(id).NotCommitted?)))
            && (forall v <- visits :: Settled(w', v, outcome, Sweep({}, None, None)))
  {
    var w' := w.(sweeps := w.sweeps - {k});
    forall v <- visits ensures Settled(w', v, outcome, Sweep({}, None, None)) {
      assert Settled(w, v, outcome, Sweep(due, None, None));
      assert HandedBySweep(w, v.id) == HandedBySweep(w', v.id);
    }
    forall id <- due0
      ensures id in w'.rows && (w'.rows[id].status.Pending? <==> !ByOperator(w', id) && (id in due || outcome(id).NotCommitted?))
    {
      if id in VisitedIds(visits) {
        var v :| v in visits && v.id == id;
        assert Settled(w, v, outcome, Sweep(due, None, None));
      }
    }
  }

  /**
   No operator has decided any row since the table was `rows0`: rows that a sweep has visited are not an
   operator's doing, the others are as they were, and new ones are pending.
   */
  predicate Kept(rows0: map<int, Row>, w: World, visited: set<int>) {
    && (forall id <- rows0 :: id in w.rows)
    && (forall id <- w.rows ::
          if id in visited then !ByOperator(w, id)
          else if id in rows0 then w.rows[id].status == rows0[id].status
          else w.rows[id].status.Pending?)
  }

  predicate NoDecisions(actions: seq<Action>) { forall a <- actions :: !a.Approve? && !a.Cancel? }

  /** Nobody decides anything while the sweep is under way. */
  ghost predicate Calm(others: nat -> seq<Action>) { forall n: nat :: NoDecisions(others(n)) }

  /** A step keeps this, if it is no operator's decision and writes only rows that have been visited. */
  lemma StaysKept(rows0: map<int, Row>, w: World, e: Event, visited: set<int>)
    requires Kept(rows0, w, visited)
    requires e.Act? ==> !e.action.Approve? && !e.action.Cancel?
    requires e.Flip? && e.sweeper in w.sweeps && w.sweeps[e.sweeper].looked.Some? ==> w.sweeps[e.sweeper].looked.value in visited
    ensures Kept(rows0, Step(w, e), visited)
  {
  }

  lemma VisitKeeps(rows0: map<int, Row>, w: World, visited: set<int>, id: int)
    requires Kept(rows0, w, visited) && id in rows0 && rows0[id].status.Pending?
    ensures Kept(rows0, w, visited + {id})
  {
  }

  lemma RequestedRow(start: int, es: seq<Event>, r: nat)
    requires r in Run(start, es).requests
    ensures Run(start, es).requests[r].id in Run(start, es).rows
  {
    AlwaysOrderly(start, es);
  }

  /** An action of request `r`. */
  predicate About(a: Action, r: nat) {
    (a.Check? || a.Approve? || a.Cancel? || a.AirApproved? || a.Abandon?) && a.request == r
  }

  function Acts(actions: seq<Action>): seq<Event> { seq(|actions|, i requires 0 <= i < |actions| => Act(actions[i])) }

  class GateQueue {
    var rows: map<int, Row>
    var clock: int
    var sweeps: map<nat, Sweep>
    var requests: map<nat, Request>
    var resolved: seq<int>
    var handedOff: seq<HandOff>
    ghost var start: int
    ghost var log: seq<Event>

    ghost function View(): World
      reads this
    {
      World(rows, clock, sweeps, requests, resolved, handedOff)
    }

    ghost predicate Valid()
      reads this
    {
      View() == Run(start, log)
    }

    constructor (now: int)
      ensures Valid() && log == [] && start == now
    {
      rows, clock, sweeps, requests, resolved, handedOff := map[], now, map[], map[], [], [];
      start, log := now, [];
    }

    ghost method Log(e: Event)
      requires View() == Step(Run(start, log), e)
      modifies this`log
      ensures Valid() && log == old(log) + [e]
    {
      log := log + [e];
      assert log[..|log| - 1] == old(log);
    }

    method Perform(a: Action)
      requires Valid()
      modifies this
      ensures Valid() && start == old(start) && log == old(log) + [Act(a)]
      ensures View() == Outside(old(View()), a)
      ensures a.Tick? ==> clock == old(clock) + a.elapsed
      ensures a.Hold? ==> rows == if a.id in old(rows) then old(rows) else old(rows)[a.id := Row(a.source, Pending, a.holdUntil)]
    {
      match a {
        case Hold(id, source, holdUntil) =>
          if id !in rows { rows := rows[id := Row(source, Pending, holdUntil)]; }
        case Tick(elapsed) => clock := clock + elapsed;
        case Check(r, id) =>
          if !(r in requests && requests[r].MustAir?) {
            requests := if id in rows && rows[id].status.Pending? then requests[r := FoundPending(id)] else requests - {r};
          }
        case Approve(r) =>
          if r in requests && requests[r].FoundPending? && requests[r].id in rows {
            var id := requests[r].id;
            rows, resolved := rows[id := rows[id].(status := Approved)], resolved + [id];
            requests := requests[r := MustAir(id)];
          }
        case Cancel(r) =>
          if r in requests && requests[r].FoundPending? && requests[r].id in rows {
            var id := requests[r].id;
            rows, resolved := rows[id := rows[id].(status := Cancelled)], resolved + [id];
            requests := requests - {r};
          }
        case AirApproved(r) =>
          if r in requests && requests[r].MustAir? {
            handedOff := handedOff + [HandOff(requests[r].id, clock, Operator)];
            requests := requests - {r};
          }
        case Abandon(r) => requests := requests - {r};
      }
      Log(Act(a));
    }

    /** Other requests, while request `r` has found row `id` pending. */
    method PerformOthers(actions: seq<Action>, ghost r: nat, ghost id: int)
      requires Valid() && r in requests && requests[r] == FoundPending(id)
      requires forall a <- actions :: !About(a, r)
      modifies this
      ensures Valid() && start == old(start) && log == old(log) + Acts(actions)
      ensures r in requests && requests[r] == FoundPending(id)
    {
      hide Run;
      for i := 0 to |actions|
        invariant Valid() && start == old(start) && log == old(log) + Acts(actions[..i])
        invariant r in requests && requests[r] == FoundPending(id)
      {
        assert !About(actions[i], r);
        assert Acts(actions[..i + 1]) == Acts(actions[..i]) + [Act(actions[i])];
        Perform(actions[i]);
      }
      assert actions[..|actions|] == actions;
    }

    /**
     One approve request; `between` is what others do between its check and its commit. It is refused
     exactly if the row is missing or not pending at the check. Otherwise the row is approved, even over
     another decision taken in between, and handed over unless the release fails.
     */
    method ApprovePendingAlert(r: nat, id: int, between: seq<Action>, aired: bool) returns (ok: bool)
      requires Valid() && r !in requests
      requires forall a <- between :: !About(a, r)
      modifies this
      ensures Valid() && start == old(start)
      ensures ok <==> PendingRow(old(View()), id)
      ensures log == old(log) + [Act(Check(r, id))]
                     + if ok then Acts(between) + [Act(Approve(r)), Act(if aired then AirApproved(r) else Abandon(r))] else []
      ensures ok ==> id in rows && rows[id].status.Approved? && (aired ==> exists h <- handedOff :: h.id == id && h.sender.Operator?)
    {
      hide Run, Acts, About;
      Perform(Check(r, id));
      ok := r in requests;
      if !ok { return; }
      PerformOthers(between, r, id);
      RequestedRow(start, log, r);
      Perform(Approve(r));
      Perform(if aired then AirApproved(r) else Abandon(r));
      assert aired ==> handedOff[|handedOff| - 1].id == id;
    }

    method CancelPendingAlert(r: nat, id: int, between: seq<Action>) returns (ok: bool)
      requires Valid() && r !in requests
      requires forall a <- between :: !About(a, r)
      modifies this
      ensures Valid() && start == old(start)
      ensures ok <==> PendingRow(old(View()), id)
      ensures log == old(log) + [Act(Check(r, id))] + if ok then Acts(between) + [Act(Cancel(r))] else []
      ensures ok ==> id in rows && rows[id].status.Cancelled?
    {
      hide Run, Acts, About;
      Perform(Check(r, id));
      ok := r in requests;
      if !ok { return; }
      PerformOthers(between, r, id);
      RequestedRow(start, log, r);
      Perform(Cancel(r));
    }

    /** What others do while sweep `k` is under way. */
    method DuringSweep(actions: seq<Action>, ghost k: nat, ghost outcome: int -> Release, ghost due0: set<int>, ghost sweep: Sweep,
                       ghost visits: seq<Visit>, ghost rows0: map<int, Row>)
      requires Valid() && Swept(View(), k, outcome, due0, sweep, visits)
      modifies this
      ensures Valid() && start == old(start) && log == old(log) + Acts(actions)
      ensures Swept(View(), k, outcome, due0, sweep, visits)
      ensures NoDecisions(actions) && Kept(rows0, old(View()), VisitedIds(visits)) ==> Kept(rows0, View(), VisitedIds(visits))
    {
      hide Swept, Run, Outside, Kept, VisitedIds;
      for i := 0 to |actions|
        invariant Valid() && start == old(start) && log == old(log) + Acts(actions[..i])
        invariant Swept(View(), k, outcome, due0, sweep, visits)
        invariant NoDecisions(actions) && Kept(rows0, old(View()), VisitedIds(visits)) ==> Kept(rows0, View(), VisitedIds(visits))
      {
        assert Acts(actions[..i + 1]) == Acts(actions[..i]) + [Act(actions[i])];
        SweptOutside(View(), actions[i], k, outcome, due0, sweep, visits);
        if NoDecisions(actions) && Kept(rows0, View(), VisitedIds(visits)) {
          StaysKept(rows0, View(), Act(actions[i]), VisitedIds(visits));
        }
        Perform(actions[i]);
      }
      assert actions[..|actions|] == actions;
    }

    /** Flip and commit, then hand over, if it gets that far; `late` is what others do between the two. */
    method ReleaseOtaGateRow(k: nat, id: int, late: seq<Action>, outcome: int -> Release,
                             ghost due0: set<int>, ghost visits: seq<Visit>, ghost rows0: map<int, Row>)
      requires Valid() && k in sweeps && sweeps[k].looked == Some(id)
      requires Swept(View(), k, outcome, due0, sweeps[k], visits) && sweeps[k].flipped.None?
      modifies this
      ensures Valid() && start == old(start)
      ensures log == old(log) + if outcome(id).NotCommitted? then [Drop(k)]
                                else [Flip(k)] + Acts(late) + [if outcome(id).NotReached? then Drop(k) else Air(k)]
      ensures Swept(View(), k, outcome, due0, Sweep(old(sweeps)[k].due, None, None), visits)
      ensures NoDecisions(late) && Kept(rows0, old(View()), VisitedIds(visits)) ==> Kept(rows0, View(), VisitedIds(visits))
    {
      hide Run, Swept, Kept, Acts, VisitedIds;
      LookedAtVisited(View(), k, outcome, due0, sweeps[k], visits);
      ghost var due := sweeps[k].due;
      if outcome(id).NotCommitted? {
        SweptDrop(View(), k, id, outcome, due0, sweeps[k], visits);
        KeptUnless(rows0, View(), Drop(k), VisitedIds(visits));
        sweeps := sweeps[k := sweeps[k].(looked := None, flipped := None)];
        Log(Drop(k));
        return;
      }
      SweptFlip(View(), k, id, outcome, due0, due, visits);
      KeptUnless(rows0, View(), Flip(k), VisitedIds(visits));
      rows, resolved := rows[id := rows[id].(status := Released)], resolved + [id];
      sweeps := sweeps[k := sweeps[k].(looked := None, flipped := Some(id))];
      Log(Flip(k));
      DuringSweep(late, k, outcome, due0, Sweep(due, None, Some(id)), visits, rows0);
      StandsAt(View(), k, outcome, due0, Sweep(due, None, Some(id)), visits);
      KeptUnless(rows0, View(), if outcome(id).NotReached? then Drop(k) else Air(k), VisitedIds(visits));
      if outcome(id).NotReached? {
        SweptDrop(View(), k, id, outcome, due0, sweeps[k], visits);
        sweeps := sweeps[k := sweeps[k].(looked := None, flipped := None)];
      } else {
        SweptAir(View(), k, id, outcome, due0, due, visits);
        handedOff := handedOff + [HandOff(id, clock, Sweeper)];
        sweeps := sweeps[k := sweeps[k].(flipped := None)];
      }
      Log(if outcome(id).NotReached? then Drop(k) else Air(k));
    }

    /**
     Re-fetch one due row and release it if it is pending; `meanwhile` is what others do between the two,
     `late` what they do between its commit and its hand-over. `broken` says that the session is unusable now.
     */
    method VisitRow(k: nat, id: int, meanwhile: seq<Action>, late: seq<Action>, outcome: int -> Release,
                    ghost due0: set<int>, ghost visits: seq<Visit>, ghost rows0: map<int, Row>)
      returns (pending: bool, broken: bool)
      requires Valid() && k in sweeps && id in sweeps[k].due && sweeps[k].looked.None? && sweeps[k].flipped.None?
      requires Swept(View(), k, outcome, due0, sweeps[k], visits)
      modifies this
      ensures Valid() && start == old(start)
      ensures pending <==> PendingRow(old(View()), id)
      ensures broken <==> Broke(Visit(id, pending), outcome)
      ensures log == old(log) + [Look(k, id)] + Acts(meanwhile)
                     + if !pending then []
                       else if outcome(id).NotCommitted? then [Drop(k)]
                       else [Flip(k)] + Acts(late) + [if outcome(id).NotReached? then Drop(k) else Air(k)]
      ensures Swept(View(), k, outcome, due0, Sweep(old(sweeps)[k].due - {id}, None, None), visits + [Visit(id, pending)])
      ensures NoDecisions(meanwhile) && NoDecisions(late) && Kept(rows0, old(View()), VisitedIds(visits))
              && id in rows0 && rows0[id].status.Pending? ==>
                Kept(rows0, View(), VisitedIds(visits + [Visit(id, pending)]))
    {
      hide Run, Swept, Kept, Acts, VisitedIds;
      SweptLook(View(), k, id, outcome, due0, sweeps[k].due, visits);
      if id in rows0 && rows0[id].status.Pending? && Kept(rows0, View(), VisitedIds(visits)) {
        VisitKeeps(rows0, View(), VisitedIds(visits), id);
      }
      KeptUnless(rows0, View(), Look(k, id), VisitedIds(visits) + {id});
      pending := rows[id].status.Pending?;
      broken := outcome(id).NotCommitted? || (pending && Breaks(outcome(id)));
      sweeps := sweeps[k := Sweep(sweeps[k].due - {id}, if pending then Some(id) else None, None)];
      ghost var sweep := sweeps[k];
      Log(Look(k, id));
      DuringSweep(meanwhile, k, outcome, due0, sweep, visits + [Visit(id, pending)], rows0);
      StandsAt(View(), k, outcome, due0, sweep, visits + [Visit(id, pending)]);
      if pending {
        ReleaseOtaGateRow(k, id, late, outcome, due0, visits + [Visit(id, pending)], rows0);
      }
    }

    /** The query and the loop over what it returned. */
    method SweepDueRows(k: nat, others: nat -> seq<Action>, outcome: int -> Release)
      returns (released: seq<int>, ghost left: set<int>, ghost visits: seq<Visit>)
      requires Valid() && k !in sweeps
      modifies this
      ensures Valid() && start == old(start) && k !in sweeps
      ensures left == DueIds(old(rows), old(clock)) - VisitedIds(visits) && VisitedIds(visits) <= DueIds(old(rows), old(clock))
      ensures OnlyLastBreaks(visits, outcome) && (left != {} ==> EndsBroken(visits, outcome))
      ensures released == Completed(visits, outcome)
      ensures forall id <- DueIds(old(rows), old(clock)) ::
                id in rows && (rows[id].status.Pending? <==> !ByOperator(View(), id) && (id in left || outcome(id).NotCommitted?))
      ensures forall v <- visits :: Settled(View(), v, outcome, Sweep({}, None, None))
      ensures Calm(others) ==> Kept(old(rows), View(), VisitedIds(visits))
    {
      hide Run, Swept, DueIds, Settled, Kept, VisitedIds, Broke, Acts, NoDecisions, Calm, OnlyLastBreaks, EndsBroken,
           Completed, ByOperator, Outside;
      SweepStarts(View(), k, outcome);
      StartsKept(View(), k);
      ghost var w0 := View();
      ghost var due0 := DueIds(rows, clock);
      var due := DueIds(rows, clock);
      sweeps := sweeps[k := Sweep(due, None, None)];
      Log(Query(k));
      released, visits := [], [];
      NothingVisited(outcome);
      if Calm(others) { CalmAt(others, 0); }
      DuringSweep(others(0), k, outcome, due0, Sweep(due, None, None), visits, w0.rows);
      var n, broken := 1, false;
      while due != {} && !broken
        invariant n >= 0 && Valid() && start == old(start) && released == Completed(visits, outcome)
        invariant Swept(View(), k, outcome, due0, Sweep(due, None, None), visits)
        invariant OnlyLastBreaks(visits, outcome) && (broken <==> EndsBroken(visits, outcome))
        invariant Calm(others) ==> Kept(w0.rows, View(), VisitedIds(visits))
        decreases due
      {
        Inhabited(due);
        var id :| id in due;
        StandsAt(View(), k, outcome, due0, Sweep(due, None, None), visits);
        NotYetVisited(View(), k, outcome, due0, due, visits, id);
        if Calm(others) { CalmAt(others, n); }
        var pending;
        DuePending(w0, View(), k, outcome, due, visits, id);
        pending, broken := VisitRow(k, id, others(n), others(n + 1), outcome, due0, visits, w0.rows);
        due := due - {id};
        OneMoreVisit(visits, Visit(id, pending), outcome);
        visits := visits + [Visit(id, pending)];
        released := if pending && outcome(id).Completes? then released + [id] else released;
        DuringSweep(others(n + 2), k, outcome, due0, Sweep(due, None, None), visits, w0.rows);
        n := n + 3;
      }
      left := due;
      SweepEnds(View(), k, outcome, due0, due, visits);
      KeptUnless(w0.rows, View(), StopSweep(k), VisitedIds(visits));
      StandsAt(View(), k, outcome, due0, Sweep(due, None, None), visits);
      sweeps := sweeps - {k};
      Log(StopSweep(k));
    }

    /**
     One sweep. `others` is what happens outside at every point where it can, `outcome` how the visit to
     each row goes. The sweep visits rows that were due, each once, until a visit breaks its session or
     none is left: only the last visit can have broken it, and if rows stay unreached, it did. A row that
     was due and that no operator has decided is pending afterwards exactly if its release was not committed
     or it was not reached. Every other visited row has been released, and handed over if the call was
     reached; exactly the releases that completed are counted.
     */
    method RunSweepNow(k: nat, others: nat -> seq<Action>, outcome: int -> Release)
      returns (released: seq<int>, ghost left: set<int>, ghost visits: seq<Visit>)
      requires Valid() && k !in sweeps
      modifies this
      ensures Valid() && start == old(start) && k !in sweeps
      ensures left == DueIds(old(rows), old(clock)) - VisitedIds(visits) && VisitedIds(visits) <= DueIds(old(rows), old(clock))
      ensures forall i | 0 <= i < |visits| - 1 ::
                var v := visits[i];
                !outcome(v.id).NotCommitted? && (v.pending ==> outcome(v.id).Completes? || !outcome(v.id).sessionBroken)
      ensures left != {} ==>
                && visits != []
                && var v := visits[|visits| - 1];
                   outcome(v.id).NotCommitted? || (v.pending && !outcome(v.id).Completes? && outcome(v.id).sessionBroken)
      ensures forall i, j | 0 <= i < j < |visits| :: visits[i].id != visits[j].id
      ensures released == Completed(visits, outcome)
      ensures forall id <- DueIds(old(rows), old(clock)) ::
                id in rows && (rows[id].status.Pending? <==> !ByOperator(View(), id) && (id in left || outcome(id).NotCommitted?))
      ensures forall v <- visits ::
                && v.id in rows && v.id !in left
                && (!v.pending ==> rows[v.id].status.Approved? || rows[v.id].status.Cancelled?)
                && (v.pending && outcome(v.id).NotCommitted? ==> !rows[v.id].status.Released?)
                && (v.pending && !outcome(v.id).NotCommitted? ==>
                      && !rows[v.id].status.Pending?
                      && (!outcome(v.id).NotReached? ==> exists h <- handedOff :: h.id == v.id && h.sender.Sweeper?))
      ensures forall id ::
                (id in old(rows) && old(rows)[id].source.Ota? && old(rows)[id].status.Pending? && old(rows)[id].holdUntil <= old(clock))
                <==> id in left || exists v <- visits :: v.id == id
      ensures (forall n: nat, a <- others(n) :: !a.Approve? && !a.Cancel?) ==>
                forall id <- rows | rows[id].status.Approved? || rows[id].status.Cancelled? ::
                  id in old(rows) && old(rows)[id].status == rows[id].status
      ensures (forall n: nat, a <- others(n) :: !a.Approve? && !a.Cancel?) && (forall id :: outcome(id).Completes?) ==>
                && (forall id <- rows ::
                      rows[id].status.Released? <==>
                        id in old(rows) && (old(rows)[id].status.Released?
                          || (old(rows)[id].source.Ota? && old(rows)[id].status.Pending? && old(rows)[id].holdUntil <= old(clock))))
                && (forall id <- old(rows)
                      | old(rows)[id].source.Ota? && old(rows)[id].status.Pending? && old(rows)[id].holdUntil <= old(clock) ::
                      exists h <- handedOff :: h.id == id && h.sender.Sweeper?)
    {
      hide Run, DueIds, VisitedIds, OnlyLastBreaks, EndsBroken, Completed, Settled, Kept, Calm;
      ghost var w0 := View();
      released, left, visits := SweepDueRows(k, others, outcome);
      DueRows(w0, left, visits);
      VisitsRaw(View(), outcome, left, visits);
      if forall n: nat, a <- others(n) :: !a.Approve? && !a.Cancel? {
        CalmMeans(others);
        NobodyDecides(w0.rows, View(), VisitedIds(visits));
        if forall id :: outcome(id).Completes? {
          CalmSweep(w0, View(), outcome, left, visits);
        }
      }
    }
  }

  lemma DuePending(w0: World, w: World, k: nat, outcome: int -> Release, due: set<int>, visits: seq<Visit>, id: int)
    requires Swept(w, k, outcome, DueIds(w0.rows, w0.clock), Sweep(due, None, None), visits) && id in due
    ensures id in w0.rows && w0.rows[id].status.Pending?
  {
  }

  lemma StandsAt(w: World, k: nat, outcome: int -> Release, due0: set<int>, sweep: Sweep, visits: seq<Visit>)
    requires Swept(w, k, outcome, due0, sweep, visits)
    ensures k in w.sweeps && w.sweeps[k] == sweep
  {
  }

  lemma NotYetVisited(w: World, k: nat, outcome: int -> Release, due0: set<int>, due: set<int>, visits: seq<Visit>, id: int)
    requires Swept(w, k, outcome, due0, Sweep(due, None, None), visits) && id in due
    ensures forall v <- visits :: v.id != id
  {
  }

  lemma NothingVisited(outcome: int -> Release)
    ensures VisitedIds([]) == {} && Completed([], outcome) == []
    ensures OnlyLastBreaks([], outcome) && !EndsBroken([], outcome)
  {
  }

  lemma OneMoreVisit(visits: seq<Visit>, v: Visit, outcome: int -> Release)
    requires OnlyLastBreaks(visits, outcome) && !EndsBroken(visits, outcome) && forall u <- visits :: u.id != v.id
    ensures OnlyLastBreaks(visits + [v], outcome) && (EndsBroken(visits + [v], outcome) <==> Broke(v, outcome))
    ensures Completed(visits + [v], outcome)
         == if v.pending && outcome(v.id).Completes? then Completed(visits, outcome) + [v.id] else Completed(visits, outcome)
  {
    hide Broke;
    assert (visits + [v])[..|visits|] == visits;
  }

  lemma CalmMeans(others: nat -> seq<Action>)
    requires forall n: nat, a <- others(n) :: !a.Approve? && !a.Cancel?
    ensures Calm(others)
  {
    forall n: nat ensures NoDecisions(others(n)) {
      forall a <- others(n) ensures !a.Approve? && !a.Cancel? {}
    }
  }

  /** What the visits say of the rows. */
  lemma VisitsRaw(w: World, outcome: int -> Release, left: set<int>, visits: seq<Visit>)
    requires OnlyLastBreaks(visits, outcome) && (left != {} ==> EndsBroken(visits, outcome)) && left !! VisitedIds(visits)
    requires forall v <- visits :: Settled(w, v, outcome, Sweep({}, None, None))
    ensures forall i, j | 0 <= i < j < |visits| :: visits[i].id != visits[j].id
    ensures forall i | 0 <= i < |visits| - 1 ::
              var v := visits[i];
              !outcome(v.id).NotCommitted? && (v.pending ==> outcome(v.id).Completes? || !outcome(v.id).sessionBroken)
    ensures left != {} ==>
              && visits != []
              && var v := visits[|visits| - 1];
                 outcome(v.id).NotCommitted? || (v.pending && !outcome(v.id).Completes? && outcome(v.id).sessionBroken)
    ensures forall v <- visits ::
              && v.id in w.rows && v.id !in left
              && (!v.pending ==> w.rows[v.id].status.Approved? || w.rows[v.id].status.Cancelled?)
              && (v.pending && outcome(v.id).NotCommitted? ==> !w.rows[v.id].status.Released?)
              && (v.pending && !outcome(v.id).NotCommitted? ==>
                    && !w.rows[v.id].status.Pending?
                    && (!outcome(v.id).NotReached? ==> exists h <- w.handedOff :: h.id == v.id && h.sender.Sweeper?))
  {
    assert forall v <- visits :: v.id in VisitedIds(visits);
    hide VisitedIds;
    forall i | 0 <= i < |visits| - 1 ensures !Broke(visits[i], outcome) {}
  }

  /** The rows counted are those found pending whose release completed, each once. */
  lemma {:induction false} CompletedIff(visits: seq<Visit>, outcome: int -> Release)
    requires forall i, j | 0 <= i < j < |visits| :: visits[i].id != visits[j].id
    ensures forall id :: id in Completed(visits, outcome) <==> exists v <- visits :: v.id == id && v.pending && outcome(id).Completes?
    ensures forall i, j | 0 <= i < j < |Completed(visits, outcome)| :: Completed(visits, outcome)[i] != Completed(visits, outcome)[j]
  {
    if visits != [] {
      var most, last := visits[..|visits| - 1], visits[|visits| - 1];
      CompletedIff(most, outcome);
      assert forall v :: v in visits <==> v in most || v == last;
      forall v | v in most ensures v.id != last.id {}
    }
  }

  lemma CalmAt(others: nat -> seq<Action>, n: nat)
    requires Calm(others)
    ensures NoDecisions(others(n)) && NoDecisions(others(n + 1)) && NoDecisions(others(n + 2))
  {
  }

  lemma KeptUnless(rows0: map<int, Row>, w: World, e: Event, visited: set<int>)
    requires !e.Act?
    requires e.Flip? && e.sweeper in w.sweeps && w.sweeps[e.sweeper].looked.Some? ==> w.sweeps[e.sweeper].looked.value in visited
    ensures Kept(rows0, w, visited) ==> Kept(rows0, Step(w, e), visited)
  {
    if Kept(rows0, w, visited) {
      StaysKept(rows0, w, e, visited);
    }
  }

  lemma LookedAtVisited(w: World, k: nat, outcome: int -> Release, due0: set<int>, sweep: Sweep, visits: seq<Visit>)
    requires Swept(w, k, outcome, due0, sweep, visits)
    ensures sweep.looked.Some? ==> sweep.looked.value in VisitedIds(visits)
  {
  }

  lemma StartsKept(w: World, k: nat)
    ensures Kept(w.rows, Step(w, Query(k)), VisitedIds([]))
  {
  }

  /** Which rows a sweep visits or leaves, in terms of the rows alone. */
  lemma DueRows(w: World, left: set<int>, visits: seq<Visit>)
    requires left == DueIds(w.rows, w.clock) - VisitedIds(visits) && VisitedIds(visits) <= DueIds(w.rows, w.clock)
    ensures forall id ::
              (id in w.rows && w.rows[id].source.Ota? && w.rows[id].status.Pending? && w.rows[id].holdUntil <= w.clock)
              <==> id in left || exists v <- visits :: v.id == id
  {
    var due, visited := DueIds(w.rows, w.clock), VisitedIds(visits);
    forall id ensures id in due <==> id in left || exists v <- visits :: v.id == id {
      assert id in visited <==> exists v <- visits :: v.id == id;
      hide DueIds, VisitedIds;
      assert id in due <==> id in left || id in visited;
    }
    forall id ensures id in due <==> id in w.rows && Due(w.rows[id], w.clock) {}
  }

  lemma CalmVisit(w0: World, w: World, outcome: int -> Release, visits: seq<Visit>, v: Visit)
    requires Kept(w0.rows, w, VisitedIds(visits)) && v in visits && outcome(v.id).Completes?
    requires Settled(w, v, outcome, Sweep({}, None, None))
    ensures v.id in w.rows && w.rows[v.id].status.Released? && HandedBySweep(w, v.id)
  {
    assert v.id in VisitedIds(visits);
    assert !ByOperator(w, v.id);
  }

  /** With nobody deciding and every release completing, exactly the rows that were due end released, by the sweep. */
  lemma CalmSweep(w0: World, w: World, outcome: int -> Release, left: set<int>, visits: seq<Visit>)
    requires left == DueIds(w0.rows, w0.clock) - VisitedIds(visits) && VisitedIds(visits) <= DueIds(w0.rows, w0.clock)
    requires left != {} ==> EndsBroken(visits, outcome)
    requires Kept(w0.rows, w, VisitedIds(visits)) && forall id :: outcome(id).Completes?
    requires forall v <- visits :: Settled(w, v, outcome, Sweep({}, None, None))
    ensures forall id <- w.rows ::
              w.rows[id].status.Released? <==>
                id in w0.rows && (w0.rows[id].status.Released?
                                  || (w0.rows[id].source.Ota? && w0.rows[id].status.Pending? && w0.rows[id].holdUntil <= w0.clock))
    ensures forall id <- w0.rows | w0.rows[id].source.Ota? && w0.rows[id].status.Pending? && w0.rows[id].holdUntil <= w0.clock ::
              id in w.rows && exists h <- w.handedOff :: h.id == id && h.sender.Sweeper?
  {
    var due := DueIds(w0.rows, w0.clock);
    CalmVisitsAll(w0, outcome, left, visits);
    forall id | id in due ensures id in w.rows && w.rows[id].status.Released? && HandedBySweep(w, id) {
      var v :| v in visits && v.id == id;
      hide Settled, HandedBySweep, Kept, DueIds, VisitedIds;
      CalmVisit(w0, w, outcome, visits, v);
    }
    KeptOthers(w0, w, due);
    hide Settled, Kept, EndsBroken, VisitedIds;
  }

  lemma CalmVisitsAll(w0: World, outcome: int -> Release, left: set<int>, visits: seq<Visit>)
    requires left == DueIds(w0.rows, w0.clock) - VisitedIds(visits) && VisitedIds(visits) <= DueIds(w0.rows, w0.clock)
    requires left != {} ==> EndsBroken(visits, outcome)
    requires forall id :: outcome(id).Completes?
    ensures VisitedIds(visits) == DueIds(w0.rows, w0.clock)
  {
    hide DueIds, VisitedIds;
    assert left == {};
    forall id | id in DueIds(w0.rows, w0.clock) ensures id in VisitedIds(visits) {
      assert id !in left;
    }
  }

  lemma NobodyDecides(rows0: map<int, Row>, w: World, visited: set<int>)
    requires Kept(rows0, w, visited)
    ensures forall id <- w.rows | w.rows[id].status.Approved? || w.rows[id].status.Cancelled? ::
              id in rows0 && rows0[id].status == w.rows[id].status
  {
    forall id <- w.rows | w.rows[id].status.Approved? || w.rows[id].status.Cancelled? ensures id !in visited {
      assert ByOperator(w, id);
    }
  }

  lemma KeptOthers(w0: World, w: World, visited: set<int>)
    requires Kept(w0.rows, w, visited)
    ensures forall id <- w.rows | id !in visited :: w.rows[id].status.Released? <==> id in w0.rows && w0.rows[id].status.Released?
  {
  }

  /** One failed commit costs the rest of the sweep: with two rows due, only one is visited, and both stay pending. */
  method FailedCommitEndsTheSweep() returns (queue: GateQueue, ghost left: set<int>)
    ensures fresh(queue) && queue.Valid()
    ensures left == {1} || left == {2}
    ensures PendingRow(queue.View(), 1) && PendingRow(queue.View(), 2)
  {
    queue := new GateQueue(0);
    queue.Perform(Hold(1, Ota, 0));
    queue.Perform(Hold(2, Ota, 0));
    ghost var visits;
    var released;
    assert DueIds(queue.rows, queue.clock) == {1, 2};
    released, left, visits := queue.RunSweepNow(0, n => [], id => NotCommitted);
    hide GateQueue.Valid;
    FirstVisit(visits);
    OneOfTwo(visits, left);
    assert forall id <- queue.rows :: !ByOperator(queue.View(), id);
  }

  lemma FirstVisit(visits: seq<Visit>)
    ensures |visits| > 1 ==> visits[0] in visits
  {
  }

  lemma OneOfTwo(visits: seq<Visit>, left: set<int>)
    requires |visits| <= 1 && (left != {} ==> visits != [])
    requires left == {1, 2} - VisitedIds(visits) && VisitedIds(visits) <= {1, 2}
    ensures left == {1} || left == {2}
  {
    if visits == [] {
      assert VisitedIds(visits) == {};
    } else {
      assert VisitedIds(visits) == {visits[0].id};
    }
  }
}
