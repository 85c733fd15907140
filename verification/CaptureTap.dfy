/**
 The IQ capture tap (sdr_hardware_service.py).

 The publisher thread and the command handler share a registry of captures under one lock, so every
 interleaving is a sequence of the events below. A capture is an object that both sides hold on to;
 it is named by a handle, its position in `captures`.
 */
module CaptureTap {
  import opened Wrappers

  const RADIO_CAPTURE_MAX_SAMPLES: pos := 30_000_000
  const DEFAULT_RATE: pos := 250_000

  type pos = x: int | 0 < x witness 1

  datatype Sample = Sample(i: real, q: real)

  datatype Capture = Capture(
    receiver: string, target: pos,
    chunks: seq<seq<Sample>>, collected: nat,
    done: bool, eventSet: bool, error: Option<string>)

  datatype Tap = Tap(active: map<string, nat>, captures: seq<Capture>)

  datatype Event =
    | Register(receiver: string, target: pos)         // handler: install a capture, superseding any other
    | Deliver(receiver: string, samples: seq<Sample>) // publisher: a chunk was read from the receiver
    | Fault(receiver: string, message: string)        // publisher: copying the chunk raised an exception
    | Detach(handle: nat)                             // handler: the wait is over
    | Abort(receiver: string)                         // handler: an exception escaped the command

  // ---------------------------------------------------------------------------
  // What one event does
  // ---------------------------------------------------------------------------

  predicate Wired(s: Tap) {
    forall r <- s.active :: s.active[r] < |s.captures| && s.captures[s.active[r]].receiver == r
  }

  /** The capture that a chunk of receiver `r` goes to. */
  predicate Listening(s: Tap, r: string) {
    r in s.active && s.active[r] < |s.captures| && !s.captures[s.active[r]].done
  }

  function Taken(c: Capture, samples: seq<Sample>): Capture {
    var remaining := c.target - c.collected;
    if remaining <= 0 then c else
      var take := Min(|samples|, remaining);
      var c' := c.(chunks := c.chunks + [samples[..take]], collected := c.collected + take);
      if c'.collected >= c.target then c'.(done := true, eventSet := true) else c'
  }

  function Put(s: Tap, h: nat, c: Capture): Tap
    requires h < |s.captures|
  {
    s.(captures := s.captures[h := c])
  }

  function Superseded(s: Tap, r: string): Tap {
    if r in s.active && s.active[r] < |s.captures|
    then Put(s, s.active[r], s.captures[s.active[r]].(done := true, eventSet := true))
    else s
  }

  function Step(s: Tap, e: Event): Tap {
    match e
    case Register(r, target) =>
      var s' := Superseded(s, r);
      Tap(s'.active[r := |s'.captures|], s'.captures + [Capture(r, target, [], 0, false, false, None)])
    case Deliver(r, samples) =>
      if Listening(s, r) then Put(s, s.active[r], Taken(s.captures[s.active[r]], samples)) else s
    case Fault(r, message) =>
      if Listening(s, r) && s.captures[s.active[r]].collected < s.captures[s.active[r]].target
      then Put(s, s.active[r], s.captures[s.active[r]].(error := Some(message), done := true, eventSet := true))
      else s
    case Detach(h) =>
      if h >= |s.captures| then s else
        var c := s.captures[h];
        var rest := if c.receiver in s.active && s.active[c.receiver] == h then s.active - {c.receiver} else s.active;
        Tap(rest, s.captures[h := c.(done := true)])
    case Abort(r) => s.(active := s.active - {r})
  }

  /** The registry after a whole interleaving. */
  function Run(es: seq<Event>): Tap {
    if es == [] then Tap(map[], []) else Step(Run(es[..|es| - 1]), es[|es| - 1])
  }

  // ---------------------------------------------------------------------------
  // What a client of one capture is promised, in terms of the events alone
  // ---------------------------------------------------------------------------

  /** The h-th registration, in order. */
  function Registrations(es: seq<Event>): seq<(string, pos)> {
    if es == [] then [] else
      var before := Registrations(es[..|es| - 1]);
      match es[|es| - 1]
      case Register(r, target) => before + [(r, target)]
      case _ => before
  }

  /** Capture `h` has been registered, for receiver `r`. */
  predicate RegisteredFor(es: seq<Event>, h: nat, r: string) {
    h < |Registrations(es)| && Registrations(es)[h].0 == r
  }

  /** All samples handed to the tap for the receiver of `h` since `h` was registered. */
  function Handed(es: seq<Event>, h: nat): seq<Sample> {
    if es == [] then [] else
      var before := es[..|es| - 1];
      match es[|es| - 1]
      case Deliver(r, samples) => if RegisteredFor(before, h, r) then Handed(before, h) + samples else Handed(before, h)
      case _ => Handed(before, h)
  }

  /** The handler of `h` has let go of it. */
  predicate Released(es: seq<Event>, h: nat) {
    es != [] &&
    var before, last := es[..|es| - 1], es[|es| - 1];
    || Released(before, h)
    || (last == Detach(h) && h < |Registrations(before)|)
    || (last.Abort? && RegisteredFor(before, h, last.receiver))
  }

  /**
   A second registration for the same receiver, or a fault while copying, arrives while the handler is
   still waiting and fewer samples than asked for have been handed over.
   */
  predicate Interrupted(es: seq<Event>, h: nat) {
    es != [] &&
    var before, last := es[..|es| - 1], es[|es| - 1];
    || Interrupted(before, h)
    || ((last.Register? || last.Fault?)
        && RegisteredFor(before, h, last.receiver)
        && !Released(before, h)
        && |Handed(before, h)| < Registrations(before)[h].1)
  }

  function Flatten(chunks: seq<seq<Sample>>): seq<Sample> {
    if chunks == [] then [] else Flatten(chunks[..|chunks| - 1]) + chunks[|chunks| - 1]
  }

  /** Everything that holds of capture `h` in every reachable state. */
  ghost predicate Faithful(es: seq<Event>, h: nat)
    requires h < |Registrations(es)| && h < |Run(es).captures|
  {
    var s, c, handed := Run(es), Run(es).captures[h], Handed(es, h);
    && (c.receiver, c.target) == Registrations(es)[h]
    && c.collected <= |handed| && c.collected <= c.target
    && Flatten(c.chunks) == handed[..c.collected]
    && (c.eventSet ==> c.done)
    && (Interrupted(es, h) ==> c.done && c.eventSet && c.collected < c.target)
    && (!Interrupted(es, h) ==> (c.eventSet ==> c.collected == c.target) && c.error.None?)
    && (!Interrupted(es, h) && !Released(es, h) ==>
          && c.collected == Min(c.target, |handed|)
          && (c.done <==> |handed| >= c.target)
          && (c.done <==> c.eventSet)
          && (!c.done ==> c.receiver in s.active && s.active[c.receiver] == h))
    && (Released(es, h) ==> c.receiver !in s.active || s.active[c.receiver] != h)
  }

  ghost predicate AllFaithful(es: seq<Event>) {
    && |Registrations(es)| == |Run(es).captures|
    && Wired(Run(es))
    && forall h: nat | h < |Registrations(es)| :: Faithful(es, h)
  }

  lemma FlattenSnoc(chunks: seq<seq<Sample>>, chunk: seq<Sample>)
    ensures Flatten(chunks + [chunk]) == Flatten(chunks) + chunk
  {
    assert (chunks + [chunk])[..|chunks|] == chunks;
  }

  lemma {:induction false} EveryCaptureFaithful(es: seq<Event>)
    ensures AllFaithful(es)
  {
    if es != [] {
      var before, last := es[..|es| - 1], es[|es| - 1];
      EveryCaptureFaithful(before);
      forall h: nat | h < |Registrations(es)| ensures h < |Run(es).captures| && Faithful(es, h) {
        if h == |Registrations(before)| {
          NewCaptureFaithful(es);
        } else {
          StepFaithful(es, h);
        }
      }
    }
  }

  /** Nothing has been handed to a capture that is only now being registered. */
  lemma {:induction false} NothingHandedYet(es: seq<Event>, h: nat)
    requires h >= |Registrations(es)|
    ensures Handed(es, h) == [] && !Released(es, h) && !Interrupted(es, h)
  {
    if es != [] {
      NothingHandedYet(es[..|es| - 1], h);
    }
  }

  lemma NewCaptureFaithful(es: seq<Event>)
    requires es != [] && es[|es| - 1].Register?
    requires AllFaithful(es[..|es| - 1])
    ensures var h := |Registrations(es)| - 1; h < |Run(es).captures| && Faithful(es, h)
  {
    NothingHandedYet(es[..|es| - 1], |Registrations(es)| - 1);
  }

  /** An event that arrives later keeps what holds of a capture already registered. */
  lemma StepFaithful(es: seq<Event>, h: nat)
    requires es != [] && AllFaithful(es[..|es| - 1])
    requires h < |Registrations(es[..|es| - 1])|
    ensures h < |Run(es).captures| && Faithful(es, h)
  {
    match es[|es| - 1]
    case Register(_, _) => RegisterFaithful(es, h);
    case Deliver(_, _) => DeliverFaithful(es, h);
    case Fault(_, _) => FaultFaithful(es, h);
    case Detach(_) => DetachFaithful(es, h);
    case Abort(_) => AbortFaithful(es, h);
  }

  lemma RegisterFaithful(es: seq<Event>, h: nat)
    requires es != [] && es[|es| - 1].Register? && AllFaithful(es[..|es| - 1])
    requires h < |Registrations(es[..|es| - 1])|
    ensures h < |Run(es).captures| && Faithful(es, h)
  {
    assert Faithful(es[..|es| - 1], h);
  }

  lemma DeliverFaithful(es: seq<Event>, h: nat)
    requires es != [] && es[|es| - 1].Deliver? && AllFaithful(es[..|es| - 1])
    requires h < |Registrations(es[..|es| - 1])|
    ensures h < |Run(es).captures| && Faithful(es, h)
  {
    assert Faithful(es[..|es| - 1], h);
    var s, last := Run(es[..|es| - 1]), es[|es| - 1];
    var c, handed := s.captures[h], Handed(es[..|es| - 1], h);
    assert (handed + last.samples)[..c.collected] == handed[..c.collected];
    if Listening(s, last.receiver) && s.active[last.receiver] == h {
      TakenInOrder(c, handed, last.samples);
    }
  }

  /** A capture that has taken all it was handed takes as much of the next chunk as it still needs. */
  lemma TakenInOrder(c: Capture, handed: seq<Sample>, samples: seq<Sample>)
    requires c.collected == |handed| < c.target && Flatten(c.chunks) == handed
    ensures var c', handed' := Taken(c, samples), handed + samples;
            && c'.collected == Min(c.target, |handed'|)
            && Flatten(c'.chunks) == handed'[..c'.collected]
  {
    hide Flatten;
    var take := Min(|samples|, c.target - c.collected);
    var c' := Taken(c, samples);
    FlattenSnoc(c.chunks, samples[..take]);
    assert c'.chunks == c.chunks + [samples[..take]] && c'.collected == |handed| + take;
    hide Taken;
    PrefixConcat(handed, samples, take);
  }

  lemma PrefixConcat(xs: seq<Sample>, ys: seq<Sample>, n: nat)
    requires n <= |ys|
    ensures (xs + ys)[..|xs| + n] == xs + ys[..n]
  {
  }

  lemma FaultFaithful(es: seq<Event>, h: nat)
    requires es != [] && es[|es| - 1].Fault? && AllFaithful(es[..|es| - 1])
    requires h < |Registrations(es[..|es| - 1])|
    ensures h < |Run(es).captures| && Faithful(es, h)
  {
    assert Faithful(es[..|es| - 1], h);
  }

  lemma DetachFaithful(es: seq<Event>, h: nat)
    requires es != [] && es[|es| - 1].Detach? && AllFaithful(es[..|es| - 1])
    requires h < |Registrations(es[..|es| - 1])|
    ensures h < |Run(es).captures| && Faithful(es, h)
  {
    assert Faithful(es[..|es| - 1], h);
  }

  lemma AbortFaithful(es: seq<Event>, h: nat)
    requires es != [] && es[|es| - 1].Abort? && AllFaithful(es[..|es| - 1])
    requires h < |Registrations(es[..|es| - 1])|
    ensures h < |Run(es).captures| && Faithful(es, h)
  {
    assert Faithful(es[..|es| - 1], h);
  }

  // ---------------------------------------------------------------------------
  // Consequences for every reachable state
  // ---------------------------------------------------------------------------

  /** The capture that receiver `r` is filling holds exactly what was handed to it, and is not full yet. */
  lemma ActiveCaptureIsExact(es: seq<Event>, r: string)
    requires Listening(Run(es), r)
    ensures var h := Run(es).active[r];
            var c := Run(es).captures[h];
            && c.receiver == r
            && Flatten(c.chunks) == Handed(es, h)
            && c.collected == |Handed(es, h)| < c.target
  {
    EveryCaptureFaithful(es);
    var h := Run(es).active[r];
    assert Faithful(es, h);
    assert Handed(es, h)[..|Handed(es, h)|] == Handed(es, h);
  }

  /** No capture ever overshoots, reorders, repeats or skips samples, whatever happens to it. */
  lemma EveryCaptureIsAPrefix(es: seq<Event>, h: nat)
    requires h < |Registrations(es)|
    ensures h < |Run(es).captures|
    ensures var c := Run(es).captures[h];
            && c.collected <= Registrations(es)[h].1 && c.collected <= |Handed(es, h)|
            && Flatten(c.chunks) == Handed(es, h)[..c.collected]
            && c.collected <= c.target && (c.eventSet ==> c.done) && (!Interrupted(es, h) ==> c.error.None?)
  {
    EveryCaptureFaithful(es);
    assert Faithful(es, h);
  }

  /**
   When the wait of `h` ends with its event set, the capture is the first `target` samples exactly if
   no second registration or fault got in first; and while the handler waits the event is set exactly
   when enough samples have come or one of those two has.
   */
  lemma CompleteIffUninterrupted(es: seq<Event>, h: nat)
    requires h < |Registrations(es)|
    ensures h < |Run(es).captures|
    ensures var c := Run(es).captures[h];
            c.eventSet ==>
              (!Interrupted(es, h) <==>
               |Handed(es, h)| >= c.target && Flatten(c.chunks) == Handed(es, h)[..c.target])
    ensures var c := Run(es).captures[h];
            !Released(es, h) ==> (c.eventSet <==> Interrupted(es, h) || |Handed(es, h)| >= c.target)
  {
    EveryCaptureFaithful(es);
    assert Faithful(es, h);
    var c := Run(es).captures[h];
    assert |Flatten(c.chunks)| == c.collected;
  }

  /** A superseded capture reports its event set with nothing collected. */
  lemma SupersedingLosesTheCapture()
    ensures var es := [Register("rx", 5), Register("rx", 5)];
            var c := Run(es).captures[0];
            c.eventSet && c.error.None? && c.collected == 0 && Interrupted(es, 0)
  {
    var r := Register("rx", 5);
    assert [r, r][..1] == [r] && [r][..0] == [];
    assert Registrations([r]) == [("rx", 5)];
    assert Run([r]).captures == [Capture("rx", 5, [], 0, false, false, None)];
    assert RegisteredFor([r], 0, "rx") && Handed([r], 0) == [] && !Released([r], 0);
  }

  /**
   main() runs one command at a time: each capture is released before the next is registered. Then, with no
   fault on the receiver, a set event always means a full capture.
   */
  lemma SingleCommandLoopCompletes(es: seq<Event>, h: nat)
    requires forall i, k: nat | 0 <= i < |es| && es[i].Register? && k < |Registrations(es[..i])| :: Released(es[..i], k)
    requires h < |Registrations(es)|
    requires forall e <- es :: !(e.Fault? && e.receiver == Registrations(es)[h].0)
    ensures h < |Run(es).captures|
    ensures var c := Run(es).captures[h];
            c.eventSet ==> |Handed(es, h)| >= c.target && Flatten(c.chunks) == Handed(es, h)[..c.target]
  {
    NeverInterrupted(es, h, Registrations(es)[h].0);
    CompleteIffUninterrupted(es, h);
  }

  lemma {:induction false} NeverInterrupted(es: seq<Event>, h: nat, r: string)
    requires forall i, k: nat | 0 <= i < |es| && es[i].Register? && k < |Registrations(es[..i])| :: Released(es[..i], k)
    requires h < |Registrations(es)| && Registrations(es)[h].0 == r
    requires forall e <- es :: !(e.Fault? && e.receiver == r)
    ensures !Interrupted(es, h)
  {
    var before, last := es[..|es| - 1], es[|es| - 1];
    assert last in es && forall e <- before :: e in es;
    if h < |Registrations(before)| {
      assert forall i | 0 <= i < |before| :: before[..i] == es[..i];
      NeverInterrupted(before, h, r);
    } else {
      NothingHandedYet(before, h);
    }
  }

  /** Once a capture is done or no longer registered, nothing adds to it again. */
  lemma {:induction false} DoneIsFrozen(es: seq<Event>, more: seq<Event>, h: nat)
    requires h < |Run(es).captures|
    requires var s, c := Run(es), Run(es).captures[h];
             c.done || c.receiver !in s.active || s.active[c.receiver] != h
    ensures h < |Run(es + more).captures|
    ensures var s', c, c' := Run(es + more), Run(es).captures[h], Run(es + more).captures[h];
            && (c'.receiver, c'.target, c'.chunks, c'.collected, c'.error)
            == (c.receiver, c.target, c.chunks, c.collected, c.error)
            && (c.eventSet ==> c'.eventSet)
            && (c'.done || c'.receiver !in s'.active || s'.active[c'.receiver] != h)
  {
    if more == [] {
      assert es + more == es;
    } else {
      var most := more[..|more| - 1];
      DoneIsFrozen(es, most, h);
      EveryCaptureFaithful(es + most);
      assert (es + more)[..|es + more| - 1] == es + most;
      hide Registrations, Faithful, Step;
      FrozenStep(Run(es + most), more[|more| - 1], h);
    }
  }

  lemma FrozenStep(s: Tap, e: Event, h: nat)
    requires h < |s.captures| && Wired(s)
    requires var c := s.captures[h]; c.done || c.receiver !in s.active || s.active[c.receiver] != h
    ensures var s' := Step(s, e);
            && h < |s'.captures|
            && var c, c' := s.captures[h], s'.captures[h];
               && (c'.receiver, c'.target, c'.chunks, c'.collected, c'.error)
               == (c.receiver, c.target, c.chunks, c.collected, c.error)
               && (c.eventSet ==> c'.eventSet)
               && (c'.done || c'.receiver !in s'.active || s'.active[c'.receiver] != h)
  {
  }

  /** The receiver an event is about. */
  function Subject(s: Tap, e: Event): Option<string> {
    match e
    case Detach(h) => if h < |s.captures| then Some(s.captures[h].receiver) else None
    case _ => Some(e.receiver)
  }

  /** An event about one receiver leaves every other receiver's registration and captures alone. */
  lemma ReceiversAreIsolated(es: seq<Event>, e: Event, r: string)
    requires Subject(Run(es), e) != Some(r)
    ensures var s, s' := Run(es), Run(es + [e]);
            && (r in s.active <==> r in s'.active)
            && (r in s.active ==> s'.active[r] == s.active[r])
            && |s.captures| <= |s'.captures|
            && forall h | 0 <= h < |s.captures| && s.captures[h].receiver == r :: s'.captures[h] == s.captures[h]
  {
    assert (es + [e])[..|es|] == es;
    EveryCaptureFaithful(es);
  }

  // ---------------------------------------------------------------------------
  // The registry itself
  // ---------------------------------------------------------------------------

  function EffectiveRate(effectiveSampleRate: nat, sampleRate: nat): pos {
    if effectiveSampleRate != 0 then effectiveSampleRate
    else if sampleRate != 0 then sampleRate
    else DEFAULT_RATE
  }

  /** How many samples a capture command asks the tap for. */
  function TargetSamples(requested: int, rate: pos): pos {
    Min(if requested <= 0 then rate else requested, RADIO_CAPTURE_MAX_SAMPLES)
  }

  datatype CaptureResult =
    | Failed(error: string)
    | NoSamples
    | Captured(samples: seq<Sample>, complete: bool)

  /** All samples delivered for receiver `r`. */
  function Delivered(es: seq<Event>, r: string): seq<Sample> {
    if es == [] then [] else
      var before := Delivered(es[..|es| - 1], r);
      match es[|es| - 1]
      case Deliver(r', samples) => if r' == r then before + samples else before
      case _ => before
  }

  /** Nothing delivered for the receiver is left out, repeated or moved, and nothing else is in it. */
  lemma {:induction false} DeliveredInOrder(es: seq<Event>, more: seq<Event>, e: Event, r: string)
    ensures Delivered(es + more, r) == Delivered(es, r) + Delivered(more, r)
    ensures Delivered([e], r) == if e.Deliver? && e.receiver == r then e.samples else []
  {
    assert [e][..0] == [];
    if more == [] {
      assert es + more == es;
    } else {
      DeliveredInOrder(es, more[..|more| - 1], e, r);
      assert (es + more)[..|es + more| - 1] == es + more[..|more| - 1];
    }
  }

  lemma HandedNext(es: seq<Event>, e: Event, h: nat, r: string)
    requires RegisteredFor(es, h, r)
    ensures RegisteredFor(es + [e], h, r) && Registrations(es + [e])[h] == Registrations(es)[h]
    ensures Handed(es + [e], h) == Handed(es, h) + Delivered([e], r)
  {
    assert (es + [e])[..|es|] == es && [e][..0] == [];
  }

  /** A capture is handed what is delivered for its receiver after its registration, whatever else happens. */
  lemma {:induction false} HandedSinceRegistration(es: seq<Event>, r: string, target: pos, more: seq<Event>)
    ensures var h, now := |Registrations(es)|, es + [Register(r, target)] + more;
            && RegisteredFor(now, h, r) && Registrations(now)[h].1 == target
            && Handed(now, h) == Delivered(more, r)
  {
    var start := es + [Register(r, target)];
    if more == [] {
      WaitBegins(es, r, target);
      assert start + more == start;
    } else {
      var most, last := more[..|more| - 1], more[|more| - 1];
      hide Registrations, Handed, Delivered;
      HandedSinceRegistration(es, r, target, most);
      assert start + more == (start + most) + [last] && more == most + [last];
      HandedNext(start + most, last, |Registrations(es)|, r);
      DeliveredSnoc(most, last, r);
    }
  }

  predicate ByPublisher(e: Event) { e.Deliver? || e.Fault? }

  /** A publisher step that is no fault on the receiver of `h` only adds to what `h` has been handed. */
  lemma PublisherStep(es: seq<Event>, e: Event, h: nat, r: string)
    requires RegisteredFor(es, h, r) && ByPublisher(e) && !(e.Fault? && e.receiver == r)
    ensures Registrations(es + [e]) == Registrations(es)
    ensures Handed(es + [e], h) == Handed(es, h) + Delivered([e], r)
    ensures Released(es + [e], h) == Released(es, h) && Interrupted(es + [e], h) == Interrupted(es, h)
  {
    assert (es + [e])[..|es|] == es && [e][..0] == [];
  }

  lemma DeliveredSnoc(es: seq<Event>, e: Event, r: string)
    ensures Delivered(es + [e], r) == Delivered(es, r) + Delivered([e], r)
  {
    assert (es + [e])[..|es|] == es && [e][..0] == [];
  }

  /** The start of a capture: registered, and nothing handed to it yet. */
  lemma WaitBegins(es: seq<Event>, r: string, target: pos)
    ensures var h, now := |Registrations(es)|, es + [Register(r, target)];
            && Registrations(now) == Registrations(es) + [(r, target)]
            && Handed(now, h) == [] && !Released(now, h) && !Interrupted(now, h)
  {
    assert (es + [Register(r, target)])[..|es|] == es;
    NothingHandedYet(es, |Registrations(es)|);
  }

  /** While the handler waits, what it is handed is what the publisher delivers, and nothing interrupts it. */
  lemma {:induction false} WhileWaiting(es: seq<Event>, r: string, target: pos, during: seq<Event>)
    requires forall e <- during :: e.Deliver? || (e.Fault? && e.receiver != r)
    ensures var h, now := |Registrations(es)|, es + [Register(r, target)] + during;
            && Registrations(now) == Registrations(es) + [(r, target)]
            && Handed(now, h) == Delivered(during, r)
            && !Released(now, h) && !Interrupted(now, h)
  {
    hide Registrations, Handed, Released, Interrupted;
    var h, start := |Registrations(es)|, es + [Register(r, target)];
    WaitBegins(es, r, target);
    if during == [] {
      assert start + during == start;
    } else {
      hide Delivered;
      var most, last := during[..|during| - 1], during[|during| - 1];
      assert last in during && forall e <- most :: e in during;
      WhileWaiting(es, r, target, most);
      assert (start + most) + [last] == start + during && most + [last] == during;
      PublisherStep(start + most, last, h, r);
      DeliveredSnoc(most, last, r);
    }
  }

  class CaptureRegistry {
    var active: map<string, nat>
    var captures: seq<Capture>
    ghost var log: seq<Event>

    ghost predicate Valid()
      reads this
    {
      Tap(active, captures) == Run(log)
    }

    constructor ()
      ensures Valid() && log == []
    {
      active, captures, log := map[], [], [];
    }

    ghost method Log(e: Event)
      requires Tap(active, captures) == Step(Run(log), e)
      modifies this`log
      ensures Valid() && log == old(log) + [e]
    {
      log := log + [e];
      assert log[..|log| - 1] == old(log);
    }

    /** Called by the publisher for every chunk; `fault` is the exception that copying the chunk raises, if any. */
    method CaptureTapAppend(identifier: string, samples: seq<Sample>, fault: Option<string>)
      requires Valid()
      modifies this
      ensures Valid()
      ensures log == old(log) + [if fault.Some? then Fault(identifier, fault.value) else Deliver(identifier, samples)]
    {
      EveryCaptureFaithful(log);
      if identifier in active && !captures[active[identifier]].done {
        var entry := captures[active[identifier]];
        var remaining := entry.target - entry.collected;
        if remaining > 0 {
          if fault.Some? {
            entry := entry.(error := fault, done := true, eventSet := true);
          } else {
            var take := if |samples| <= remaining then |samples| else remaining;
            entry := entry.(chunks := entry.chunks + [samples[..take]], collected := entry.collected + take);
            if entry.collected >= entry.target {
              entry := entry.(done := true, eventSet := true);
            }
          }
          captures := captures[active[identifier] := entry];
        }
      }
      Log(if fault.Some? then Fault(identifier, fault.value) else Deliver(identifier, samples));
    }

    method RegisterCapture(identifier: string, target: pos) returns (handle: nat)
      requires Valid()
      modifies this
      ensures Valid() && log == old(log) + [Register(identifier, target)]
      ensures handle == |Registrations(old(log))|
      ensures identifier in active && active[identifier] == handle == |old(captures)| && |captures| == handle + 1
      ensures captures[handle] == Capture(identifier, target, [], 0, false, false, None)
      ensures identifier in old(active) ==> old(active)[identifier] < handle && captures[old(active)[identifier]].done
                                            && captures[old(active)[identifier]].eventSet
    {
      EveryCaptureFaithful(log);
      if identifier in active {
        var prior := active[identifier];
        captures := captures[prior := captures[prior].(done := true, eventSet := true)];
      }
      handle := |captures|;
      captures := captures + [Capture(identifier, target, [], 0, false, false, None)];
      active := active[identifier := handle];
      Log(Register(identifier, target));
    }

    method DetachCapture(handle: nat)
      requires Valid() && handle < |captures|
      modifies this
      ensures Valid() && log == old(log) + [Detach(handle)]
      ensures captures == old(captures)[handle := old(captures)[handle].(done := true)]
      ensures forall r :: r in active <==> r in old(active) && !(r == captures[handle].receiver && old(active)[r] == handle)
      ensures forall r <- active :: active[r] == old(active)[r]
    {
      var identifier := captures[handle].receiver;
      if identifier in active && active[identifier] == handle {
        active := active - {identifier};
      }
      captures := captures[handle := captures[handle].(done := true)];
      Log(Detach(handle));
    }

    /** What the publisher does while the command handler waits or is on its way to the lock. */
    method Publish(events: seq<Event>)
      requires Valid() && forall e <- events :: ByPublisher(e)
      modifies this
      ensures Valid() && log == old(log) + events
    {
      for i := 0 to |events|
        invariant Valid() && log == old(log) + events[..i]
      {
        assert events[..i + 1] == events[..i] + [events[i]] && ByPublisher(events[i]);
        if events[i].Fault? {
          CaptureTapAppend(events[i].receiver, [], Some(events[i].message));
        } else {
          CaptureTapAppend(events[i].receiver, events[i].samples, None);
        }
      }
      assert events[..|events|] == events;
    }

    /**
     One capture_iq command. The publisher does `during` between the registration and the return of the
     wait, and `late` between that and the detach, for any receivers. The command returns what was taken
     in by both, or the text of the fault that cut it off, and calls it complete exactly if by the return
     of the wait enough had come or a fault had. Without a fault on this receiver that is exactly the
     leading samples delivered for it: complete implies full, and a full capture is called incomplete
     exactly if its last samples came late.
     */
    method CaptureIq(identifier: string, requested: int, effectiveSampleRate: nat, sampleRate: nat, during: seq<Event>, late: seq<Event>)
      returns (r: CaptureResult)
      requires Valid()
      requires forall e <- during + late :: e.Deliver? || e.Fault?
      modifies this
      ensures Valid()
      ensures log == old(log) + [Register(identifier, TargetSamples(requested, EffectiveRate(effectiveSampleRate, sampleRate)))]
                     + (during + late) + [Detach(|Registrations(old(log))|)]
      ensures identifier !in active
      ensures var target := TargetSamples(requested, EffectiveRate(effectiveSampleRate, sampleRate));
              var all, inTime := TakenIn(during + late, identifier, target), TakenIn(during, identifier, target);
              r == if all.error.Some? && all.error.value != "" then Failed(all.error.value)
                   else if all.samples == [] then NoSamples
                   else Captured(all.samples, inTime.error.Some? || |inTime.samples| == target)
      // Without a fault: the count requested, or one second at the first rate that is known, but never too much
      ensures (forall e <- during + late :: e.Fault? ==> e.receiver != identifier) ==>
                var wanted := if requested > 0 then requested
                              else if effectiveSampleRate > 0 then effectiveSampleRate
                              else if sampleRate > 0 then sampleRate
                              else 250_000;
                var target := if wanted <= 30_000_000 then wanted else 30_000_000;
                var got, inTime := Delivered(during + late, identifier), Delivered(during, identifier);
                && r == (if got == [] then NoSamples
                         else Captured(if |got| <= target then got else got[..target], |inTime| >= target))
                && (r.Captured? && r.complete ==> |r.samples| == target)
                && (r.Captured? && |r.samples| == target && !r.complete <==> |inTime| < target <= |got|)
      ensures r.Captured? ==> 0 < |r.samples| <= 30_000_000
    {
      hide Run, Delivered, Registrations, TakenIn, TargetSamples, EffectiveRate;
      TargetIs(requested, effectiveSampleRate, sampleRate);
      assert forall e <- during :: e in during + late && ByPublisher(e);
      assert forall e <- late :: e in during + late && ByPublisher(e);
      var target := TargetSamples(requested, EffectiveRate(effectiveSampleRate, sampleRate));
      ghost var start := log;
      var handle := RegisterCapture(identifier, target);
      Publish(during);
      EndOfWait(start, identifier, target, during);
      var completed := captures[handle].eventSet;
      Publish(late);
      assert log == start + [Register(identifier, target)] + (during + late);
      EndOfWait(start, identifier, target, during + late);
      var entry := captures[handle];
      WholeOrLess(Delivered(during + late, identifier), target);
      DetachedOnly(log, handle, identifier);
      DetachCapture(handle);
      if forall e <- during + late :: e.Fault? ==> e.receiver != identifier {
        NoFaultBefore(during, late, identifier);
        TakenInWithoutFault(during, identifier, target);
        TakenInWithoutFault(during + late, identifier, target);
      }
      if entry.error.Some? && entry.error.value != "" {
        r := Failed(entry.error.value);
      } else if entry.collected == 0 {
        r := NoSamples;
      } else {
        r := Captured(Flatten(entry.chunks), completed);
      }
    }
  }

  /** The count requested, or one second at the first rate that is known, but never too much. */
  lemma TargetIs(requested: int, effectiveSampleRate: nat, sampleRate: nat)
    ensures var wanted := if requested > 0 then requested
                          else if effectiveSampleRate > 0 then effectiveSampleRate
                          else if sampleRate > 0 then sampleRate
                          else 250_000;
            TargetSamples(requested, EffectiveRate(effectiveSampleRate, sampleRate)) == if wanted <= 30_000_000 then wanted else 30_000_000
  {
  }

  lemma WholeOrLess(got: seq<Sample>, target: pos)
    ensures got[..Min(target, |got|)] == if |got| <= target then got else got[..target]
  {
  }

  /** What a capture of `target` samples has of receiver `r`, and the fault that has cut it off, if any. */
  datatype Intake = Intake(samples: seq<Sample>, error: Option<string>)

  /** One event more is taken in. */
  function TakeOne(before: Intake, e: Event, r: string, target: pos): (after: Intake)
    requires |before.samples| <= target
    ensures |after.samples| <= target
  {
    if before.error.Some? || |before.samples| == target then before
    else match e
      case Deliver(r', samples) =>
        if r' != r then before
        else Intake((before.samples + samples)[..Min(target, |before.samples + samples|)], None)
      case Fault(r', message) => if r' != r then before else Intake(before.samples, Some(message))
      case _ => before
  }

  function TakenIn(es: seq<Event>, r: string, target: pos): (taken: Intake)
    ensures |taken.samples| <= target
  {
    if es == [] then Intake([], None) else TakeOne(TakenIn(es[..|es| - 1], r, target), es[|es| - 1], r, target)
  }

  /** Without a fault it is the leading samples delivered. */
  lemma {:induction false} TakenInWithoutFault(es: seq<Event>, r: string, target: pos)
    requires forall e <- es :: e.Fault? ==> e.receiver != r
    ensures TakenIn(es, r, target) == Intake(Delivered(es, r)[..Min(target, |Delivered(es, r)|)], None)
  {
    if es != [] {
      var most, last := es[..|es| - 1], es[|es| - 1];
      assert last in es && forall e <- most :: e in es;
      TakenInWithoutFault(most, r, target);
      var got := Delivered(most, r);
      if last.Deliver? && last.receiver == r {
        assert |got| >= target ==> (got + last.samples)[..target] == got[..target];
        assert |got| < target ==> got[..Min(target, |got|)] == got;
      }
    }
  }

  /** The first fault cuts a capture off exactly if it is not full yet, and later events then change nothing. */
  lemma {:induction false} FirstFaultCutsOff(es: seq<Event>, f: nat, r: string, target: pos)
    requires f < |es| && (forall e <- es[..f] :: e.Fault? ==> e.receiver != r) && es[f].Fault? && es[f].receiver == r
    ensures var got := Delivered(es[..f], r);
            TakenIn(es, r, target) == if |got| < target then Intake(got, Some(es[f].message)) else Intake(got[..target], None)
  {
    var most := es[..|es| - 1];
    if f < |most| {
      assert most[..f] == es[..f];
      FirstFaultCutsOff(most, f, r, target);
    } else {
      TakenInWithoutFault(most, r, target);
      assert es[..f] == most;
      var got := Delivered(most, r);
      assert |got| < target ==> got[..|got|] == got;
    }
  }

  /** A fault without a text is not reported: a capture that it has cut short is called complete. */
  lemma SilentFaultIsCalledComplete(sample: Sample)
    ensures var during := [Deliver("rx", [sample]), Fault("rx", "")];
            TakenIn(during, "rx", 2) == Intake([sample], Some(""))
  {
    var during := [Deliver("rx", [sample]), Fault("rx", "")];
    assert during[..1] == [Deliver("rx", [sample])] && during[..1][..0] == [];
    assert Delivered(during[..1], "rx") == [sample];
    FirstFaultCutsOff(during, 1, "rx", 2);
  }

  lemma {:induction false} NoFaultBefore(during: seq<Event>, late: seq<Event>, r: string)
    ensures (forall e <- during + late :: e.Fault? ==> e.receiver != r) ==> forall e <- during :: e.Fault? ==> e.receiver != r
    ensures Delivered(during, r) <= Delivered(during + late, r)
  {
    assert forall e <- during :: e in during + late;
    if late == [] {
      assert during + late == during;
    } else {
      assert (during + late)[..|during + late| - 1] == during + late[..|late| - 1];
      NoFaultBefore(during, late[..|late| - 1], r);
    }
  }

  /** A chunk that comes between the return of the wait and the detach fills the capture, but the command calls it incomplete. */
  lemma LateChunkIsCalledIncomplete(sample: Sample)
    ensures var waited, all := [Register("rx", 1)], [Register("rx", 1), Deliver("rx", [sample]), Detach(0)];
            && |Run(waited).captures| == |Run(all).captures| == 1
            && !Run(waited).captures[0].eventSet
            && Run(all).captures[0].collected == Run(all).captures[0].target == 1
  {
    var e0, e1, e2 := Register("rx", 1), Deliver("rx", [sample]), Detach(0);
    assert [e0, e1, e2][..2] == [e0, e1] && [e0, e1][..1] == [e0] && [e0][..0] == [];
    assert Run([e0]) == Tap(map["rx" := 0], [Capture("rx", 1, [], 0, false, false, None)]);
  }

  /** The state of the new capture after some waiting. */
  lemma {:induction false} EndOfWait(es: seq<Event>, r: string, target: pos, during: seq<Event>)
    requires forall e <- during :: ByPublisher(e)
    ensures var h, now, taken := |Registrations(es)|, es + [Register(r, target)] + during, TakenIn(during, r, target);
            && h < |Run(now).captures|
            && r in Run(now).active && Run(now).active[r] == h
            && Holds(Run(now).captures[h], r, target, taken)
  {
    var start := es + [Register(r, target)];
    if during == [] {
      assert start + during == start && start[..|es|] == es;
      EveryCaptureFaithful(es);
    } else {
      var most, last := during[..|during| - 1], during[|during| - 1];
      assert ByPublisher(last) && forall e <- most :: e in during;
      EndOfWait(es, r, target, most);
      assert start + during == start + most + [last];
      AfterOne(start + most, last);
      hide Run, Registrations, Holds, Step, TakeOne;
      HoldsNext(Run(start + most), last, |Registrations(es)|, r, target, TakenIn(most, r, target));
    }
  }

  lemma AfterOne(es: seq<Event>, e: Event)
    ensures Run(es + [e]) == Step(Run(es), e) && Wired(Run(es))
  {
    EveryCaptureFaithful(es);
    hide Registrations, Faithful;
    assert (es + [e])[..|es|] == es;
  }

  /** The entry of a capture is what has been taken in. */
  predicate Holds(c: Capture, r: string, target: pos, taken: Intake) {
    && c.receiver == r && c.target == target
    && c.collected == |taken.samples| <= target && Flatten(c.chunks) == taken.samples && c.error == taken.error
    && (c.done <==> c.eventSet) && (c.eventSet <==> taken.error.Some? || |taken.samples| == target)
  }

  lemma HoldsNext(s: Tap, e: Event, h: nat, r: string, target: pos, before: Intake)
    requires ByPublisher(e) && Wired(s) && h < |s.captures| && r in s.active && s.active[r] == h
    requires |before.samples| <= target && Holds(s.captures[h], r, target, before)
    ensures var s' := Step(s, e);
            && h < |s'.captures| && r in s'.active && s'.active[r] == h
            && Holds(s'.captures[h], r, target, TakeOne(before, e, r, target))
  {
    var c := s.captures[h];
    if e.Deliver? && e.receiver == r && !c.done {
      TakenInOrder(c, before.samples, e.samples);
    }
  }

  lemma DetachedOnly(es: seq<Event>, h: nat, r: string)
    requires h < |Run(es).captures| && r in Run(es).active && Run(es).active[r] == h
    ensures r !in Run(es + [Detach(h)]).active
  {
    EveryCaptureFaithful(es);
    assert (es + [Detach(h)])[..|es|] == es;
  }
}
