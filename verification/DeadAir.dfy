/**
 The dead-air episode protocol (eas_monitoring_service.py, app_core/audio/dead_air_alarm.py and
 services/gpio/alert_indicators.py).

 The audio service publishes its alarm state to Redis, an operator acknowledges the alarm there, and
 the GPIO service reads both keys to decide whether the buzzer may stay quiet. The acknowledgement
 holds the token of the episode it was made against, so that one left behind cannot mute a later
 outage.
 */
module DeadAir {
  import opened Wrappers

  /** Identity of an episode token. */
  type Token = nat

  datatype Payload = Payload(active: bool, episode: Option<Token>)

  /** The audio service's own variable, the two Redis keys, and the episodes that callers are about to acknowledge. */
  datatype World = World(episode: Option<Token>, payload: Option<Payload>, ack: Option<Token>, reading: map<nat, Token>)

  datatype Event =
    /** A publish tick. `token` is the one it would mint; writing or deleting a key may fail. */
    | Publish(active: bool, token: Token, stored: bool, ackDeleted: bool)
    /** An acknowledgement reads the alarm state first and writes its own key afterwards. */
    | ReadAlarm(caller: nat, requested: Option<Token>)
    | StoreAck(caller: nat)
    | ClearAck
    | PayloadExpires
    | AckExpires
    | Restart

  predicate AckAccepted(w: World, requested: Option<Token>) {
    && w.payload.Some? && w.payload.value.active
    && w.payload.value.episode.Some?
    && (requested.Some? ==> requested == w.payload.value.episode)
  }

  function NextEpisode(episode: Option<Token>, active: bool, token: Token): Option<Token> {
    if !active then None else if episode.Some? then episode else Some(token)
  }

  function Step(w: World, e: Event): World {
    match e
    case Publish(active, token, stored, ackDeleted) =>
      var episode := NextEpisode(w.episode, active, token);
      if !stored then w.(episode := episode)
      else World(episode, Some(Payload(active, episode)), if !active && ackDeleted then None else w.ack, w.reading)
    case ReadAlarm(c, requested) =>
      w.(reading := if AckAccepted(w, requested) then w.reading[c := w.payload.value.episode.value] else w.reading - {c})
    case StoreAck(c) =>
      if c in w.reading then w.(ack := Some(w.reading[c]), reading := w.reading - {c}) else w
    case ClearAck => w.(ack := None)
    case PayloadExpires => w.(payload := None)
    case AckExpires => w.(ack := None)
    case Restart => w.(episode := None)
  }

  function Run(es: seq<Event>): World {
    if es == [] then World(None, None, None, map[]) else Step(Run(es[..|es| - 1]), es[|es| - 1])
  }

  /** The GPIO service's test for silencing the buzzer, on the two keys as it has read them. */
  predicate SilencedBy(payload: Option<Payload>, ack: Option<Token>) {
    payload.Some? && ack.Some? && payload.value.episode.Some? && ack == payload.value.episode
  }

  /** From event `i` to event `j` the alarm never clears and the service never restarts. */
  predicate OneOutage(es: seq<Event>, i: nat, j: nat)
    requires i <= j < |es|
  {
    && (forall k | i <= k <= j && es[k].Publish? :: es[k].active)
    && (forall k | i < k <= j :: !es[k].Restart?)
  }

  function EpisodeAfter(es: seq<Event>, i: nat): Option<Token>
    requires i < |es|
  {
    Run(es[..i + 1]).episode
  }

  /** A current episode was minted by one tick, and the outage has been continuous since then. */
  lemma {:induction false} Minted(es: seq<Event>, i: nat) returns (m: nat)
    requires i < |es| && EpisodeAfter(es, i).Some?
    ensures m <= i && es[m].Publish? && es[m].active && EpisodeAfter(es, i) == Some(es[m].token)
    ensures OneOutage(es, m, i)
  {
    assert es[..i + 1][..i] == es[..i];
    if i > 0 && Run(es[..i]).episode.Some? {
      assert EpisodeAfter(es, i - 1) == Run(es[..i]).episode;
      m := Minted(es, i - 1);
    } else {
      assert Run(es[..i]).episode.None?;
      assert Run(es[..i + 1]) == Step(Run(es[..i]), es[i]);
      m := i;
    }
  }

  lemma {:induction false} EpisodeHeld(es: seq<Event>, i: nat, j: nat)
    requires i <= j < |es| && es[i].Publish? && OneOutage(es, i, j)
    ensures EpisodeAfter(es, i).Some? && EpisodeAfter(es, j) == EpisodeAfter(es, i)
  {
    assert es[..j + 1][..j] == es[..j];
    if i < j {
      EpisodeHeld(es, i, j - 1);
    }
  }

  /**
   If every tick has a token of its own to mint, two ticks carry the same episode exactly if the outage is
   continuous from one to the other.
   */
  lemma SameEpisodeIffOneOutage(es: seq<Event>, i: nat, j: nat)
    requires forall m, n | 0 <= m < n < |es| && es[m].Publish? && es[n].Publish? :: es[m].token != es[n].token
    requires i <= j < |es| && es[i].Publish? && es[j].Publish?
    ensures (EpisodeAfter(es, i).Some? && EpisodeAfter(es, i) == EpisodeAfter(es, j)) <==> OneOutage(es, i, j)
  {
    if OneOutage(es, i, j) {
      EpisodeHeld(es, i, j);
    } else if EpisodeAfter(es, i).Some? && EpisodeAfter(es, j).Some? {
      var m := Minted(es, i);
      var m' := Minted(es, j);
      assert m' > i;
    }
  }

  // ---------------------------------------------------------------------------
  // Acknowledgements
  // ---------------------------------------------------------------------------

  /** The last tick that reached Redis. */
  function LastStored(es: seq<Event>): Option<nat> {
    if es == [] then None
    else if es[|es| - 1].Publish? && es[|es| - 1].stored then Some(|es| - 1)
    else LastStored(es[..|es| - 1])
  }

  /** The read behind what caller `c` is about to acknowledge. */
  function ReadOf(es: seq<Event>, c: nat): Option<nat> {
    if es == [] then None else
      var before, last := es[..|es| - 1], es[|es| - 1];
      if last.ReadAlarm? && last.caller == c && AckAccepted(Run(before), last.requested) then Some(|es| - 1)
      else ReadOf(before, c)
  }

  /** The read behind the acknowledgement that was stored last. */
  function LastAck(es: seq<Event>): Option<nat> {
    if es == [] then None else
      var before, last := es[..|es| - 1], es[|es| - 1];
      if last.StoreAck? && last.caller in Run(before).reading then ReadOf(before, last.caller) else LastAck(before)
  }

  /** Where the contents of the two keys come from. */
  lemma {:induction false} Provenance(es: seq<Event>)
    ensures var w, q := Run(es), LastStored(es);
            && (q.Some? ==> q.value < |es| && es[q.value].Publish?)
            && (w.payload.Some? ==> q.Some? && w.payload == Some(Payload(es[q.value].active, EpisodeAfter(es, q.value))))
            && (w.payload.Some? ==> (w.payload.value.active <==> w.payload.value.episode.Some?))
  {
    if es != [] {
      var before := es[..|es| - 1];
      Provenance(before);
      var q := LastStored(before);
      if q.Some? {
        assert before[..q.value + 1] == es[..q.value + 1];
      }
      assert es[..|es|] == es;
    }
  }

  /** The acknowledging read at `a` saw the state of episode `token`. */
  predicate ReadSaw(es: seq<Event>, a: nat, token: Token) {
    && a < |es| && es[a].ReadAlarm?
    && var p := LastStored(es[..a]);
       p.Some? && p.value < a && es[p.value].Publish? && EpisodeAfter(es, p.value) == Some(token)
  }

  lemma ReadSawGrows(es: seq<Event>, a: nat, token: Token)
    requires es != [] && ReadSaw(es[..|es| - 1], a, token)
    ensures ReadSaw(es, a, token)
  {
    var before := es[..|es| - 1];
    var p := LastStored(before[..a]).value;
    assert before[..a] == es[..a] && before[..p + 1] == es[..p + 1];
  }

  lemma {:induction false} ReadProvenance(es: seq<Event>, c: nat)
    requires c in Run(es).reading
    ensures ReadOf(es, c).Some? && ReadSaw(es, ReadOf(es, c).value, Run(es).reading[c])
  {
    var before, last := es[..|es| - 1], es[|es| - 1];
    if last.ReadAlarm? && last.caller == c && AckAccepted(Run(before), last.requested) {
      Provenance(before);
      var p := LastStored(before).value;
      assert before[..p + 1] == es[..p + 1];
    } else {
      ReadProvenance(before, c);
      ReadSawGrows(es, ReadOf(before, c).value, Run(before).reading[c]);
    }
  }

  lemma {:induction false} AckProvenance(es: seq<Event>)
    requires Run(es).ack.Some?
    ensures LastAck(es).Some? && ReadSaw(es, LastAck(es).value, Run(es).ack.value)
  {
    var before, last := es[..|es| - 1], es[|es| - 1];
    if last.StoreAck? && last.caller in Run(before).reading {
      ReadProvenance(before, last.caller);
      ReadSawGrows(es, ReadOf(before, last.caller).value, Run(before).reading[last.caller]);
    } else {
      AckProvenance(before);
      ReadSawGrows(es, LastAck(before).value, Run(before).ack.value);
    }
  }

  /**
   Whenever the buzzer is silenced, on an alarm state read after the first `i` events and an
   acknowledgement read after all of `es`, the acknowledging caller had seen a state of the very outage
   that is shown: the alarm does not clear anywhere between the two. This does not depend on any key
   being deleted, and holds although callers and buzzer each read and write one key at a time.
   */
  lemma SilencedOnlyByItsOwnOutage(es: seq<Event>, i: nat)
    requires forall m, n | 0 <= m < n < |es| && es[m].Publish? && es[n].Publish? :: es[m].token != es[n].token
    requires i <= |es| && SilencedBy(Run(es[..i]).payload, Run(es).ack)
    ensures LastAck(es).Some? && LastStored(es[..i]).Some?
    ensures var a, shown := LastAck(es).value, LastStored(es[..i]).value;
            && a < |es| && shown < |es| && es[a].ReadAlarm?
            && LastStored(es[..a]).Some?
            && var seen := LastStored(es[..a]).value;
            && seen < |es| && OneOutage(es, Min(seen, shown), Max(seen, shown))
  {
    hide Run, LastStored, LastAck;
    Provenance(es[..i]);
    AckProvenance(es);
    var shown, seen := LastStored(es[..i]).value, LastStored(es[..LastAck(es).value]).value;
    assert es[..i][..shown + 1] == es[..shown + 1];
    assert EpisodeAfter(es, shown) == EpisodeAfter(es, seen);
    SameEpisodeIffOneOutage(es, Min(seen, shown), Max(seen, shown));
  }

  /** Even when deleting the key fails, an acknowledgement kept from one outage does not match the next. */
  lemma LeftoverAckIsHarmless(first: Token, second: Token)
    requires first != second
    ensures var es := [Publish(true, first, true, true), ReadAlarm(0, None), StoreAck(0),
                       Publish(false, 0, true, false), Publish(true, second, true, true)];
            && SilencedBy(Run(es[..3]).payload, Run(es[..3]).ack) && Run(es).ack == Some(first)
            && Run(es).payload == Some(Payload(true, Some(second))) && !SilencedBy(Run(es).payload, Run(es).ack)
  {
    var a, b, c, d, e := Publish(true, first, true, true), ReadAlarm(0, None), StoreAck(0),
                         Publish(false, 0, true, false), Publish(true, second, true, true);
    var es := [a, b, c, d, e];
    assert es[..4] == [a, b, c, d] && es[..3] == [a, b, c] && [a, b, c, d][..3] == [a, b, c];
    assert [a, b, c][..2] == [a, b] && [a, b][..1] == [a] && [a][..0] == [];
    assert Run([a]) == World(Some(first), Some(Payload(true, Some(first))), None, map[]);
    assert Run([a, b]) == World(Some(first), Some(Payload(true, Some(first))), None, map[0 := first]);
    assert Run([a, b, c]) == World(Some(first), Some(Payload(true, Some(first))), Some(first), map[]);
    assert Run([a, b, c, d]) == World(None, Some(Payload(false, None)), Some(first), map[]);
  }

  // ---------------------------------------------------------------------------
  // The three parties
  // ---------------------------------------------------------------------------

  datatype Monitor = Monitor(enabled: bool, silent: bool, reason: string)

  /** What the payload lists: the enabled sources that are silent. */
  function SilentSources(sources: seq<(string, Monitor)>): map<string, string> {
    if sources == [] then map[] else
      var before, (name, m) := SilentSources(sources[..|sources| - 1]), sources[|sources| - 1];
      if m.enabled && m.silent then before[name := m.reason] else before
  }

  /** The alarm is active exactly if some enabled source is silent. */
  lemma {:induction false} ActiveIffSomeSilent(sources: seq<(string, Monitor)>)
    ensures SilentSources(sources) != map[] <==> exists s <- sources :: s.1.enabled && s.1.silent
    ensures forall name :: name in SilentSources(sources) <==>
              exists s <- sources :: s.0 == name && s.1.enabled && s.1.silent
    ensures forall name <- SilentSources(sources) ::
              exists s <- sources :: s.0 == name && s.1.enabled && s.1.silent && s.1.reason == SilentSources(sources)[name]
  {
    if sources != [] {
      var before, last := sources[..|sources| - 1], sources[|sources| - 1];
      ActiveIffSomeSilent(before);
      assert forall s :: s in sources <==> s in before || s == last;
      if last.1.enabled && last.1.silent {
        assert last.0 in SilentSources(sources);
      }
    }
  }

  datatype AckReply =
    | Accepted(episode: Token)
    | Cleared
    | NoActiveAlarm
    | NoEpisode
    | AlarmAlreadyCleared

  class DeadAirChannel {
    var episode: Option<Token>
    var payload: Option<Payload>
    var ack: Option<Token>
    var reading: map<nat, Token>
    ghost var log: seq<Event>

    ghost function View(): World
      reads this
    {
      World(episode, payload, ack, reading)
    }

    ghost predicate Valid()
      reads this
    {
      View() == Run(log)
    }

    constructor ()
      ensures Valid() && log == []
    {
      episode, payload, ack, reading, log := None, None, None, map[], [];
    }

    ghost method Log(e: Event)
      requires View() == Step(Run(log), e)
      modifies this`log
      ensures Valid() && log == old(log) + [e]
    {
      log := log + [e];
      assert log[..|log| - 1] == old(log);
    }

    /** One publish tick, once it is known whether any enabled source is silent. */
    method Tick(active: bool, token: Token, stored: bool, ackDeleted: bool)
      requires Valid()
      modifies this
      ensures Valid() && log == old(log) + [Publish(active, token, stored, ackDeleted)]
      ensures episode == if !active then None else if old(episode).Some? then old(episode) else Some(token)
      ensures payload == (if stored then Some(Payload(active, episode)) else old(payload)) && reading == old(reading)
      ensures ack == if stored && !active && ackDeleted then None else old(ack)
    {
      if active {
        if episode.None? {
          episode := Some(token);
        }
      } else {
        episode := None;
      }
      if stored {
        payload := Some(Payload(active, episode));
        if !active && ackDeleted {
          ack := None;
        }
      }
      Log(Publish(active, token, stored, ackDeleted));
    }

    method PublishDeadAirState(sources: seq<(string, Monitor)>, token: Token, stored: bool, ackDeleted: bool)
      returns (silent: map<string, string>)
      requires Valid()
      modifies this
      ensures Valid() && silent == SilentSources(sources)
      ensures forall name :: name in silent <==> exists s <- sources :: s.0 == name && s.1.enabled && s.1.silent
      ensures log == old(log) + [Publish(exists s <- sources :: s.1.enabled && s.1.silent, token, stored, ackDeleted)]
      ensures var active := exists s <- sources :: s.1.enabled && s.1.silent;
              && episode == (if !active then None else if old(episode).Some? then old(episode) else Some(token))
              && payload == (if stored then Some(Payload(active, episode)) else old(payload))
              && ack == if stored && !active && ackDeleted then None else old(ack)
    {
      silent := map[];
      for i := 0 to |sources|
        invariant silent == SilentSources(sources[..i])
      {
        assert sources[..i + 1][..i] == sources[..i];
        var (name, m) := sources[i];
        if m.enabled && m.silent {
          silent := silent[name := m.reason];
        }
      }
      assert sources[..|sources|] == sources;
      ActiveIffSomeSilent(sources);
      Tick(silent != map[], token, stored, ackDeleted);
    }

    /** The first half of an acknowledgement: what the caller is told, and the episode it will store. */
    method CheckAlarm(caller: nat, requested: Option<Token>) returns (reply: AckReply)
      requires Valid()
      modifies this
      ensures Valid() && log == old(log) + [ReadAlarm(caller, requested)]
      ensures reply == AckReplyTo(old(payload), requested) && !reply.NoEpisode? && !reply.Cleared?
      ensures payload == old(payload) && ack == old(ack)
      ensures if reply.Accepted? then caller in reading && reading[caller] == reply.episode else caller !in reading
    {
      Provenance(log);
      if payload.None? || !payload.value.active {
        reply := NoActiveAlarm;
      } else if payload.value.episode.None? {
        reply := NoEpisode;
      } else if requested.Some? && requested != payload.value.episode {
        reply := AlarmAlreadyCleared;
      } else {
        reply := Accepted(payload.value.episode.value);
      }
      reading := if reply.Accepted? then reading[caller := reply.episode] else reading - {caller};
      Log(ReadAlarm(caller, requested));
    }

    method WriteAck(caller: nat)
      requires Valid()
      modifies this
      ensures Valid() && log == old(log) + [StoreAck(caller)]
      ensures ack == if caller in old(reading) then Some(old(reading)[caller]) else old(ack)
    {
      if caller in reading {
        ack, reading := Some(reading[caller]), reading - {caller};
      }
      Log(StoreAck(caller));
    }

    method ClearAcknowledgement()
      requires Valid()
      modifies this
      ensures Valid() && log == old(log) + [ClearAck] && ack == None
    {
      ack := None;
      Log(ClearAck);
    }

    /** What the other parties do meanwhile. */
    method Others(events: seq<Event>, ghost caller: nat)
      requires Valid()
      modifies this
      ensures Valid() && log == old(log) + events
      ensures (forall e <- events :: !By(e, caller)) ==>
                && (caller in reading <==> caller in old(reading))
                && (caller in reading ==> reading[caller] == old(reading)[caller])
    {
      hide Run;
      for i := 0 to |events|
        invariant Valid() && log == old(log) + events[..i]
        invariant (forall e <- events :: !By(e, caller)) ==>
                    && (caller in reading <==> caller in old(reading))
                    && (caller in reading ==> reading[caller] == old(reading)[caller])
      {
        assert events[..i + 1] == events[..i] + [events[i]];
        ghost var before := View();
        match events[i] {
          case Publish(active, token, stored, ackDeleted) => Tick(active, token, stored, ackDeleted);
          case ReadAlarm(c, requested) => var _ := CheckAlarm(c, requested);
          case StoreAck(c) => WriteAck(c);
          case ClearAck => ClearAcknowledgement();
          case PayloadExpires =>
            payload := None;
            Log(PayloadExpires);
          case AckExpires =>
            ack := None;
            Log(AckExpires);
          case Restart =>
            episode := None;
            Log(Restart);
        }
        if !By(events[i], caller) {
          OthersReadings(before, events[i], caller);
        }
        OneEvent(log[..|log| - 1], events[i]);
      }
      assert events[..|events|] == events;
    }

    /**
     One acknowledgement; `between` is what the others do after it has read the alarm state and before
     it writes its key. The reply depends on the state read alone; an accepted one stores the episode
     that was read, even if that has ended in between, and any other reply writes nothing.
     */
    method AcknowledgeDeadAir(caller: nat, acknowledged: bool, requested: Option<Token>, between: seq<Event>) returns (reply: AckReply)
      requires Valid() && forall e <- between :: e.ReadAlarm? || e.StoreAck? ==> e.caller != caller
      modifies this
      ensures Valid()
      ensures log == old(log) + if !acknowledged then [ClearAck]
                                else if reply.Accepted? then [ReadAlarm(caller, requested)] + between + [StoreAck(caller)]
                                else [ReadAlarm(caller, requested)]
      ensures reply == if acknowledged then AckReplyTo(old(payload), requested) else Cleared
      ensures !reply.NoEpisode?
      ensures ack == match reply case Accepted(episode) => Some(episode) case Cleared => None case _ => old(ack)
    {
      if !acknowledged {
        ClearAcknowledgement();
        return Cleared;
      }
      hide Run;
      reply := CheckAlarm(caller, requested);
      if reply.Accepted? {
        Others(between, caller);
        WriteAck(caller);
      }
    }

    /** The buzzer's poll; `between` is what happens after it has read the alarm state and before it reads the acknowledgement. */
    method ReadDeadAirState(between: seq<Event>) returns (active: bool, acknowledged: bool)
      requires Valid()
      modifies this
      ensures Valid() && log == old(log) + between
      ensures active <==> old(payload).Some? && old(payload).value.active
      ensures acknowledged <==> SilencedBy(Run(log[..|old(log)|]).payload, Run(log).ack)
      ensures acknowledged <==> old(payload).Some? && old(payload).value.episode.Some? && ack == old(payload).value.episode
      ensures acknowledged ==> active
    {
      Provenance(log);
      hide Run;
      var state := payload;
      Others(between, 0);
      assert log[..|old(log)|] == old(log);
      active := state.Some? && state.value.active;
      acknowledged := state.Some? && ack.Some? && state.value.episode.Some? && ack == state.value.episode;
    }
  }

  /** An acknowledgement step of `caller`. */
  predicate By(e: Event, caller: nat) { (e.ReadAlarm? || e.StoreAck?) && e.caller == caller }

  lemma OthersReadings(w: World, e: Event, caller: nat)
    requires !By(e, caller)
    ensures var w' := Step(w, e);
            (caller in w.reading <==> caller in w'.reading) && (caller in w.reading ==> w'.reading[caller] == w.reading[caller])
  {
  }

  lemma OneEvent(es: seq<Event>, e: Event)
    ensures Run(es + [e]) == Step(Run(es), e)
  {
    assert (es + [e])[..|es|] == es;
  }

  /** The reply to an acknowledgement that has read `payload`, case by case. */
  function AckReplyTo(payload: Option<Payload>, requested: Option<Token>): (reply: AckReply)
    ensures reply.NoActiveAlarm? <==> payload.None? || !payload.value.active
    ensures reply.AlarmAlreadyCleared? <==>
              payload.Some? && payload.value.active && payload.value.episode.Some?
              && requested.Some? && payload.value.episode != requested
    ensures reply.Accepted? ==> payload.Some? && payload.value.episode == Some(reply.episode)
  {
    if payload.None? || !payload.value.active then NoActiveAlarm
    else if payload.value.episode.None? then NoEpisode
    else if requested.Some? && requested != payload.value.episode then AlarmAlreadyCleared
    else Accepted(payload.value.episode.value)
  }
}
