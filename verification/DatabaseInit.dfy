/**
 Double-checked initialisation of the database (app.py). Any number of threads call
 initialize_database; each event below is one step of one thread, so a run is any interleaving.
 */
module DatabaseInit {
  import opened Wrappers

  type Thread = nat

  /** Where a thread is in its current call. */
  datatype Place = Outside | Waiting | Locked | InBody | Succeeded

  datatype Outcome = Success | Refusal | Exception

  datatype Reply = ReturnedTrue | ReturnedFalse | Raised

  datatype World = World(
    initialized: bool,
    failure: bool,                  // _db_initialization_error is set
    lock: Option<Thread>,
    places: map<Thread, Place>,     // threads not listed are outside
    replies: seq<(Thread, Reply)>,
    bodies: nat,                    // initialisation bodies started
    successes: nat)                 // success branches run

  datatype Event =
    | Call(thread: Thread)                        // first check, without the lock
    | Acquire(thread: Thread)
    | Recheck(thread: Thread)                     // second check, with the lock
    | Finish(thread: Thread, outcome: Outcome)    // the body ends; success sets the flag
    | Return(thread: Thread)                      // after the success branch

  function PlaceOf(w: World, t: Thread): Place { if t in w.places then w.places[t] else Outside }

  function Leave(w: World, t: Thread, reply: Reply): World {
    w.(lock := None, places := w.places[t := Outside], replies := w.replies + [(t, reply)])
  }

  /** A step that the thread is not ready for does nothing. */
  function Step(w: World, e: Event): World {
    var t := e.thread;
    match e
    case Call(_) =>
      if !PlaceOf(w, t).Outside? then w
      else if w.initialized then w.(replies := w.replies + [(t, ReturnedTrue)])
      else w.(places := w.places[t := Waiting])
    case Acquire(_) =>
      if !PlaceOf(w, t).Waiting? || w.lock.Some? then w
      else w.(lock := Some(t), places := w.places[t := Locked])
    case Recheck(_) =>
      if !PlaceOf(w, t).Locked? then w
      else if w.initialized then Leave(w, t, ReturnedTrue)
      else w.(places := w.places[t := InBody], bodies := w.bodies + 1)
    case Finish(_, outcome) =>
      if !PlaceOf(w, t).InBody? then w
      else if outcome.Success? then
        w.(initialized := true, failure := false, successes := w.successes + 1, places := w.places[t := Succeeded])
      else Leave(w, t, if outcome.Refusal? then ReturnedFalse else Raised).(failure := true)
    case Return(_) =>
      if !PlaceOf(w, t).Succeeded? then w else Leave(w, t, ReturnedTrue)
  }

  const START := World(false, false, None, map[], [], 0, 0)

  function Run(es: seq<Event>): World {
    if es == [] then START else Step(Run(es[..|es| - 1]), es[|es| - 1])
  }

  function Failures(replies: seq<(Thread, Reply)>): nat {
    if replies == [] then 0 else
      Failures(replies[..|replies| - 1]) + if replies[|replies| - 1].1.ReturnedTrue? then 0 else 1
  }

  predicate InLock(p: Place) { p.Locked? || p.InBody? || p.Succeeded? }

  ghost predicate Consistent(w: World) {
    && (forall t: Thread :: InLock(PlaceOf(w, t)) <==> w.lock == Some(t))
    && (forall t: Thread :: PlaceOf(w, t).InBody? ==> !w.initialized)
    && (forall t: Thread :: PlaceOf(w, t).Succeeded? ==> w.initialized)
    && w.successes == (if w.initialized then 1 else 0)
    && (w.initialized ==> !w.failure)
    && ((exists r <- w.replies :: r.1.ReturnedTrue?) ==> w.initialized)
    && w.bodies == w.successes + Failures(w.replies)
                   + if w.lock.Some? && PlaceOf(w, w.lock.value).InBody? then 1 else 0
  }

  lemma FailuresSnoc(replies: seq<(Thread, Reply)>, r: (Thread, Reply))
    ensures Failures(replies + [r]) == Failures(replies) + if r.1.ReturnedTrue? then 0 else 1
  {
    assert (replies + [r])[..|replies|] == replies;
  }

  lemma {:induction false} AlwaysConsistent(es: seq<Event>)
    ensures Consistent(Run(es))
  {
    if es != [] {
      AlwaysConsistent(es[..|es| - 1]);
      ConsistentStep(Run(es[..|es| - 1]), es[|es| - 1]);
    }
  }

  lemma ConsistentStep(w: World, e: Event)
    requires Consistent(w)
    ensures Consistent(Step(w, e))
  {
    var w' := Step(w, e);
    if |w'.replies| > |w.replies| {
      FailuresSnoc(w.replies, w'.replies[|w.replies|]);
    }
  }

  /**
   Whatever the interleaving: at most one thread is in the body at a time, the success branch has run
   at most once, True has been returned only after it ran, and every body either succeeded, failed with
   its caller told so, or is the one still running.
   */
  lemma InitialisedAtMostOnce(es: seq<Event>)
    ensures var w := Run(es);
            && (forall t: Thread, u: Thread | PlaceOf(w, t).InBody? && PlaceOf(w, u).InBody? :: t == u)
            && w.successes <= 1
            && ((exists r <- w.replies :: r.1.ReturnedTrue?) ==> w.successes == 1)
            && (w.bodies - w.successes - Failures(w.replies) == 1 <==> exists t: Thread :: PlaceOf(w, t).InBody?)
            && 0 <= w.bodies - w.successes - Failures(w.replies) <= 1
  {
    AlwaysConsistent(es);
  }

  /** Once initialised, no body is ever entered again, no caller is turned away, and a new call returns True at once, whoever holds the lock. */
  lemma {:induction false} NoBodyAfterSuccess(es: seq<Event>, more: seq<Event>)
    requires Run(es).initialized
    ensures Run(es + more).initialized && Run(es + more).bodies == Run(es).bodies
    ensures Failures(Run(es + more).replies) == Failures(Run(es).replies)
    ensures forall t: Thread | PlaceOf(Run(es + more), t).Outside? ::
              Step(Run(es + more), Call(t)).replies == Run(es + more).replies + [(t, ReturnedTrue)]
  {
    if more == [] {
      assert es + more == es;
    } else {
      var most := more[..|more| - 1];
      assert (es + more)[..|es + more| - 1] == es + most;
      NoBodyAfterSuccess(es, most);
      AlwaysConsistent(es + most);
      StaysInitialised(Run(es + most), more[|more| - 1]);
    }
  }

  lemma StaysInitialised(w: World, e: Event)
    requires Consistent(w) && w.initialized
    ensures var w' := Step(w, e);
            w'.initialized && w'.bodies == w.bodies && Failures(w'.replies) == Failures(w.replies)
  {
    var w' := Step(w, e);
    if |w'.replies| > |w.replies| {
      FailuresSnoc(w.replies, w'.replies[|w.replies|]);
    }
  }

  /** A failed or raising attempt leaves the flag clear and the lock free, and any other thread's call then retries. */
  lemma FailureIsRetried(es: seq<Event>, t: Thread, outcome: Outcome, u: Thread)
    requires PlaceOf(Run(es), t).InBody? && !outcome.Success?
    requires PlaceOf(Run(es + [Finish(t, outcome)]), u) in {Outside, Waiting}
    ensures var w := Run(es + [Finish(t, outcome)]);
            && !w.initialized && w.failure && w.lock.None?
            && w.replies == Run(es).replies + [(t, if outcome.Refusal? then ReturnedFalse else Raised)]
    ensures var w := Step(Step(Step(Run(es + [Finish(t, outcome)]), Call(u)), Acquire(u)), Recheck(u));
            PlaceOf(w, u).InBody? && w.bodies == Run(es).bodies + 1
  {
    assert (es + [Finish(t, outcome)])[..|es|] == es;
    AlwaysConsistent(es);
  }

  /** The lock's holder always has a step to take, and taking its steps frees the lock: no deadlock. */
  lemma HolderCanFinish(es: seq<Event>, t: Thread, outcome: Outcome)
    requires Run(es).lock == Some(t)
    ensures Step(Step(Step(Run(es), Recheck(t)), Finish(t, outcome)), Return(t)).lock.None?
  {
    AlwaysConsistent(es);
  }

  // ---------------------------------------------------------------------------
  // The body and one thread's call
  // ---------------------------------------------------------------------------

  /** How one of the preparation steps ends; some steps are optional and only log a refusal. */
  datatype Preparation = Done | Refused(optional: bool) | OperationalError | OtherError

  /** The first step that cannot be passed over decides. */
  function BodyOutcome(steps: seq<Preparation>): Outcome {
    if steps == [] then Success
    else match steps[0]
      case Refused(optional) => if optional then BodyOutcome(steps[1..]) else Refusal
      case OperationalError => Refusal
      case OtherError => Exception
      case Done => BodyOutcome(steps[1..])
  }

  /** The body succeeds exactly if every step is done or an optional refusal. */
  lemma {:induction false} BodySucceedsIff(steps: seq<Preparation>)
    ensures BodyOutcome(steps).Success? <==> forall s <- steps :: s.Done? || (s.Refused? && s.optional)
  {
    if steps != [] {
      BodySucceedsIff(steps[1..]);
      assert steps == [steps[0]] + steps[1..];
    }
  }

  class Application {
    var initialized: bool
    var failure: bool
    var lockHeld: bool

    constructor ()
      ensures !initialized && !failure && !lockHeld
    {
      initialized, failure, lockHeld := false, false, false;
    }

    method RunBody(steps: seq<Preparation>) returns (outcome: Outcome, ran: nat)
      ensures outcome == BodyOutcome(steps)
      ensures ran <= |steps| && (outcome.Success? <==> ran == |steps|)
      ensures forall i | 0 <= i < ran :: steps[i].Done? || (steps[i].Refused? && steps[i].optional)
      ensures ran < |steps| ==>
                && !steps[ran].Done? && !(steps[ran].Refused? && steps[ran].optional)
                && (outcome.Exception? <==> steps[ran].OtherError?)
                && (outcome.Refusal? <==> steps[ran].OperationalError? || steps[ran].Refused?)
    {
      ran := 0;
      while ran < |steps|
        invariant ran <= |steps|
        invariant BodyOutcome(steps) == BodyOutcome(steps[ran..])
        invariant forall i | 0 <= i < ran :: steps[i].Done? || (steps[i].Refused? && steps[i].optional)
      {
        match steps[ran] {
          case OperationalError => return Refusal, ran;
          case OtherError => return Exception, ran;
          case Refused(optional) => if !optional { return Refusal, ran; }
          case Done =>
        }
        ran := ran + 1;
      }
      outcome := Success;
    }

    /** One call with no other thread in the way: the reply and the flag are those of the interleaved model. */
    method InitializeDatabase(steps: seq<Preparation>, ghost w: World, ghost t: Thread) returns (reply: Reply)
      requires !lockHeld && Consistent(w) && w.lock.None? && PlaceOf(w, t).Outside?
      requires w.initialized == initialized && w.failure == failure
      modifies this
      ensures !lockHeld
      ensures old(initialized) ==> reply.ReturnedTrue? && initialized && failure == old(failure)
      ensures !old(initialized) ==> (initialized <==> BodyOutcome(steps).Success?) && (failure <==> !initialized)
      ensures reply.ReturnedTrue? <==> initialized
      ensures !old(initialized) && (forall s <- steps :: s.Done? || (s.Refused? && s.optional)) ==> initialized
      ensures !old(initialized) ==> forall i | 0 <= i < |steps| && !steps[i].Done? && !(steps[i].Refused? && steps[i].optional)
                                                && forall j | 0 <= j < i :: steps[j].Done? || (steps[j].Refused? && steps[j].optional) ::
                reply == (if steps[i].OtherError? then Raised else ReturnedFalse) && !initialized && failure
      ensures var w' := Step(Step(Step(Step(Step(w, Call(t)), Acquire(t)), Recheck(t)), Finish(t, BodyOutcome(steps))), Return(t));
              && w'.replies == w.replies + [(t, reply)]
              && w'.initialized == initialized && w'.failure == failure && w'.lock.None?
    {
      if initialized {
        return ReturnedTrue;
      }
      lockHeld := true;
      var outcome, _ := RunBody(steps);
      match outcome {
        case Success => initialized, failure, reply := true, false, ReturnedTrue;
        case Refusal => failure, reply := true, ReturnedFalse;
        case Exception => failure, reply := true, Raised;
      }
      lockHeld := false;
    }
  }
}
