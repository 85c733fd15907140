/**
 The timeline of one alert (app_core/alert_trail.py): events from seven kinds of row, merged, sorted
 and tallied, and the chain of products that share the alert's VTEC identity.
 */
module AlertTrail {
  import opened Wrappers
  import opened Sorting

  datatype Category = Ingest | Decode | Forward | Broadcast | Gpio | Audio | System | Manual

  const CATEGORIES := [Ingest, Decode, Forward, Broadcast, Gpio, Audio, System, Manual]

  /** A row of the timeline; `rowId` is the database row it reports on. */
  datatype Event = Event(timestamp: int, category: Category, rowId: int)

  datatype CapAlert = CapAlert(id: int, createdAt: Option<int>, updatedAt: Option<int>, easForwarded: Option<bool>)

  datatype Received = Received(id: int, receivedAt: Option<int>, forwardedAt: Option<int>)

  datatype EasMessage = EasMessage(id: int, createdAt: Option<int>, sourceAlerts: seq<Received>)

  datatype Activation = Activation(id: int, triggeredAt: Option<int>, sentAt: Option<int>, createdAt: Option<int>)

  datatype GpioLog = GpioLog(id: int, activatedAt: Option<int>, deactivatedAt: Option<int>)

  datatype AudioAlert = AudioAlert(id: int, createdAt: Option<int>)

  datatype SystemLog = SystemLog(id: int, timestamp: Option<int>)

  datatype Rows = Rows(
    cap: Option<CapAlert>,
    messages: seq<EasMessage>,
    manual: seq<Activation>,
    gpio: seq<GpioLog>,
    audio: seq<AudioAlert>,
    logs: seq<SystemLog>)

  function Or(a: Option<int>, b: Option<int>): Option<int> { if a.Some? then a else b }

  /** No event without a usable time. */
  function MakeEvent(timestamp: Option<int>, category: Category, rowId: int): seq<Event> {
    if timestamp.Some? then [Event(timestamp.value, category, rowId)] else []
  }

  predicate UpdatedLater(c: CapAlert) {
    c.updatedAt.Some? && c.createdAt.Some? && c.updatedAt.value > c.createdAt.value
  }

  function CapEvents(c: CapAlert): seq<Event> {
    MakeEvent(c.createdAt, Ingest, c.id)
    + (if UpdatedLater(c) then MakeEvent(c.updatedAt, Ingest, c.id) else [])
    + (if c.easForwarded.Some? then MakeEvent(Or(c.updatedAt, c.createdAt), Forward, c.id) else [])
  }

  function ReceivedEvents(r: Received): seq<Event> {
    MakeEvent(r.receivedAt, Decode, r.id) + MakeEvent(r.forwardedAt, Forward, r.id)
  }

  function MessageEvents(m: EasMessage): seq<Event> { MakeEvent(m.createdAt, Broadcast, m.id) }

  function ManualEvents(a: Activation): seq<Event> {
    MakeEvent(Or(a.triggeredAt, Or(a.sentAt, a.createdAt)), Manual, a.id)
  }

  function GpioEvents(g: GpioLog): seq<Event> {
    MakeEvent(g.activatedAt, Gpio, g.id)
    + if g.deactivatedAt != g.activatedAt then MakeEvent(g.deactivatedAt, Gpio, g.id) else []
  }

  function AudioEvents(a: AudioAlert): seq<Event> { MakeEvent(a.createdAt, Audio, a.id) }

  function LogEvents(l: SystemLog): seq<Event> { MakeEvent(l.timestamp, System, l.id) }

  /** The events of a list of rows, row by row. */
  function EventsOf<T>(f: T -> seq<Event>, rows: seq<T>): seq<Event> {
    if rows == [] then [] else EventsOf(f, rows[..|rows| - 1]) + f(rows[|rows| - 1])
  }

  /** The decodes behind the messages, each once, where it first appears. */
  function ReceivedOf(messages: seq<EasMessage>): seq<Received> {
    if messages == [] then [] else
      AppendNew(ReceivedOf(messages[..|messages| - 1]), messages[|messages| - 1].sourceAlerts)
  }

  function AppendNew(seen: seq<Received>, more: seq<Received>): seq<Received> {
    if more == [] then seen else
      var before, last := AppendNew(seen, more[..|more| - 1]), more[|more| - 1];
      if exists r <- before :: r.id == last.id then before else before + [last]
  }

  /** Everything collected, before sorting. */
  function Collected(rows: Rows): seq<Event> {
    (if rows.cap.Some? then CapEvents(rows.cap.value) else [])
    + EventsOf(ReceivedEvents, ReceivedOf(rows.messages))
    + EventsOf(MessageEvents, rows.messages)
    + EventsOf(ManualEvents, rows.manual)
    + EventsOf(GpioEvents, rows.gpio)
    + EventsOf(AudioEvents, rows.audio)
    + EventsOf(LogEvents, rows.logs)
  }

  predicate Earlier(a: Event, b: Event) { a.timestamp <= b.timestamp }

  function Timeline(rows: Rows): seq<Event> { StableSort(Earlier, Collected(rows)) }

  function InCategory(c: Category): Event -> bool { (e: Event) => e.category == c }

  function Count(c: Category, es: seq<Event>): nat { |Filter(InCategory(c), es)| }

  /** The timeline is the one and only stable arrangement of the collected events by time. */
  lemma TimelineIsStableOrder(rows: Rows)
    ensures IsStableSortOf(Earlier, Timeline(rows), Collected(rows))
    ensures |Timeline(rows)| == |Collected(rows)|
    ensures forall es | IsStableSortOf(Earlier, es, Collected(rows)) :: es == Timeline(rows)
  {
    SortIsStable(Earlier, Collected(rows));
    SortKeepsElements(Earlier, Collected(rows));
    forall es | IsStableSortOf(Earlier, es, Collected(rows)) ensures es == Timeline(rows) {
      StableSortIsUnique(Earlier, es, Timeline(rows));
    }
  }

  /** Times never fall along the timeline, and events of one time keep the order in which they were collected. */
  lemma TimelineInTimeOrder(rows: Rows, t: int)
    ensures forall i, j | 0 <= i < j < |Timeline(rows)| :: Timeline(rows)[i].timestamp <= Timeline(rows)[j].timestamp
    ensures Filter((e: Event) => e.timestamp == t, Timeline(rows)) == Filter((e: Event) => e.timestamp == t, Collected(rows))
  {
    TimelineIsStableOrder(rows);
    SortedByTime(Timeline(rows));
    TiesAt(t, Timeline(rows));
    TiesAt(t, Collected(rows));
    hide Timeline, Collected;
  }

  lemma SortedByTime(es: seq<Event>)
    requires Sorted(Earlier, es)
    ensures forall i, j | 0 <= i < j < |es| :: es[i].timestamp <= es[j].timestamp
  {
    forall i, j | 0 <= i < j < |es| ensures es[i].timestamp <= es[j].timestamp {
      assert Earlier(es[i], es[j]);
    }
  }

  lemma TiesAt(t: int, es: seq<Event>)
    ensures Filter((e: Event) => e.timestamp == t, es) == Filter(Ties(Earlier, Event(t, Ingest, 0)), es)
  {
    var at, ties := (e: Event) => e.timestamp == t, Ties(Earlier, Event(t, Ingest, 0));
    forall e: Event ensures at(e) == ties(e) {
      assert ties(e) == (Earlier(Event(t, Ingest, 0), e) && Earlier(e, Event(t, Ingest, 0)));
    }
    FilterSame(at, ties, es);
  }

  /** The database row that an event reports on, and the column its time comes from. */
  predicate Reports(rows: Rows, e: Event) {
    match e.category
    case Ingest =>
      rows.cap.Some? && var c := rows.cap.value;
      && e.rowId == c.id
      && (c.createdAt == Some(e.timestamp)
          || (c.updatedAt == Some(e.timestamp) && c.createdAt.Some? && e.timestamp > c.createdAt.value))
    case Forward =>
      || (rows.cap.Some? && var c := rows.cap.value;
          && e.rowId == c.id && c.easForwarded.Some?
          && (c.updatedAt == Some(e.timestamp) || (c.updatedAt.None? && c.createdAt == Some(e.timestamp))))
      || (exists r <- ReceivedOf(rows.messages) :: r.id == e.rowId && r.forwardedAt == Some(e.timestamp))
    case Decode => exists r <- ReceivedOf(rows.messages) :: r.id == e.rowId && r.receivedAt == Some(e.timestamp)
    case Broadcast => exists m <- rows.messages :: m.id == e.rowId && m.createdAt == Some(e.timestamp)
    case Manual =>
      exists a <- rows.manual ::
        && a.id == e.rowId
        && (a.triggeredAt == Some(e.timestamp)
            || (a.triggeredAt.None? && (a.sentAt == Some(e.timestamp) || (a.sentAt.None? && a.createdAt == Some(e.timestamp)))))
    case Gpio =>
      exists g <- rows.gpio :: g.id == e.rowId && (g.activatedAt == Some(e.timestamp) || g.deactivatedAt == Some(e.timestamp))
    case Audio => exists a <- rows.audio :: a.id == e.rowId && a.createdAt == Some(e.timestamp)
    case System => exists l <- rows.logs :: l.id == e.rowId && l.timestamp == Some(e.timestamp)
  }

  lemma {:induction false} InEventsOf<T>(f: T -> seq<Event>, rows: seq<T>, e: Event)
    ensures e in EventsOf(f, rows) <==> exists x <- rows :: e in f(x)
  {
    if rows != [] {
      InEventsOf(f, rows[..|rows| - 1], e);
      assert forall x :: x in rows <==> x in rows[..|rows| - 1] || x == rows[|rows| - 1];
    }
  }

  /** An event has been collected exactly if one of the parts has it. */
  lemma CollectedParts(rows: Rows, e: Event)
    ensures e in Collected(rows) <==>
            || (rows.cap.Some? && e in CapEvents(rows.cap.value))
            || e in EventsOf(ReceivedEvents, ReceivedOf(rows.messages))
            || e in EventsOf(MessageEvents, rows.messages)
            || e in EventsOf(ManualEvents, rows.manual)
            || e in EventsOf(GpioEvents, rows.gpio)
            || e in EventsOf(AudioEvents, rows.audio)
            || e in EventsOf(LogEvents, rows.logs)
  {
    hide EventsOf, CapEvents, ReceivedOf;
  }

  lemma ReportsCap(c: CapAlert, e: Event)
    ensures e in CapEvents(c) <==>
            e.rowId == c.id &&
            if e.category.Ingest? then Some(e.timestamp) == c.createdAt || (Some(e.timestamp) == c.updatedAt && UpdatedLater(c))
            else e.category.Forward? && c.easForwarded.Some? && Some(e.timestamp) == Or(c.updatedAt, c.createdAt)
  {
  }

  lemma ReportsDecode(rs: seq<Received>, e: Event)
    ensures e in EventsOf(ReceivedEvents, rs) <==>
            || (e.category.Decode? && exists r <- rs :: r.id == e.rowId && r.receivedAt == Some(e.timestamp))
            || (e.category.Forward? && exists r <- rs :: r.id == e.rowId && r.forwardedAt == Some(e.timestamp))
  {
    InEventsOf(ReceivedEvents, rs, e);
    assert forall r: Received :: e in ReceivedEvents(r) <==>
      e.rowId == r.id && ((e.category.Decode? && r.receivedAt == Some(e.timestamp))
                          || (e.category.Forward? && r.forwardedAt == Some(e.timestamp)));
  }

  lemma ReportsBroadcast(ms: seq<EasMessage>, e: Event)
    ensures e in EventsOf(MessageEvents, ms) <==>
            e.category.Broadcast? && exists m <- ms :: m.id == e.rowId && m.createdAt == Some(e.timestamp)
  {
    InEventsOf(MessageEvents, ms, e);
    assert forall m: EasMessage :: e in MessageEvents(m) <==>
      e.category.Broadcast? && m.id == e.rowId && m.createdAt == Some(e.timestamp);
  }

  lemma ReportsManual(activations: seq<Activation>, e: Event)
    ensures e in EventsOf(ManualEvents, activations) <==>
            e.category.Manual? && exists a <- activations ::
              a.id == e.rowId && Some(e.timestamp) == Or(a.triggeredAt, Or(a.sentAt, a.createdAt))
  {
    InEventsOf(ManualEvents, activations, e);
    assert forall a: Activation :: e in ManualEvents(a) <==>
      e.category.Manual? && a.id == e.rowId && Some(e.timestamp) == Or(a.triggeredAt, Or(a.sentAt, a.createdAt));
  }

  lemma ReportsGpio(gs: seq<GpioLog>, e: Event)
    ensures e in EventsOf(GpioEvents, gs) <==>
            e.category.Gpio? && exists g <- gs ::
              g.id == e.rowId && (g.activatedAt == Some(e.timestamp) || g.deactivatedAt == Some(e.timestamp))
  {
    InEventsOf(GpioEvents, gs, e);
    assert forall g: GpioLog :: e in GpioEvents(g) <==>
      e.category.Gpio? && g.id == e.rowId && (g.activatedAt == Some(e.timestamp) || g.deactivatedAt == Some(e.timestamp));
  }

  lemma ReportsAudio(alerts: seq<AudioAlert>, e: Event)
    ensures e in EventsOf(AudioEvents, alerts) <==>
            e.category.Audio? && exists a <- alerts :: a.id == e.rowId && a.createdAt == Some(e.timestamp)
  {
    InEventsOf(AudioEvents, alerts, e);
    assert forall a: AudioAlert :: e in AudioEvents(a) <==>
      e.category.Audio? && a.id == e.rowId && a.createdAt == Some(e.timestamp);
  }

  lemma ReportsLogs(logs: seq<SystemLog>, e: Event)
    ensures e in EventsOf(LogEvents, logs) <==>
            e.category.System? && exists l <- logs :: l.id == e.rowId && l.timestamp == Some(e.timestamp)
  {
    InEventsOf(LogEvents, logs, e);
    assert forall l: SystemLog :: e in LogEvents(l) <==>
      e.category.System? && l.id == e.rowId && l.timestamp == Some(e.timestamp);
  }

  /** The timeline reports exactly what the rows record: nothing is missing and nothing is made up. */
  lemma TimelineReportsRows(rows: Rows, e: Event)
    ensures e in Timeline(rows) <==> Reports(rows, e)
  {
    hide EventsOf, StableSort, ReceivedOf, CapEvents, Collected;
    SortKeepsElements(Earlier, Collected(rows));
    CollectedParts(rows, e);
    if rows.cap.Some? {
      ReportsCap(rows.cap.value, e);
    }
    ReportsDecode(ReceivedOf(rows.messages), e);
    ReportsBroadcast(rows.messages, e);
    ReportsManual(rows.manual, e);
    forall a <- rows.manual
      ensures Some(e.timestamp) == Or(a.triggeredAt, Or(a.sentAt, a.createdAt)) <==>
                || a.triggeredAt == Some(e.timestamp)
                || (a.triggeredAt.None? && (a.sentAt == Some(e.timestamp) || (a.sentAt.None? && a.createdAt == Some(e.timestamp))))
    {
    }
    ReportsGpio(rows.gpio, e);
    ReportsAudio(rows.audio, e);
    ReportsLogs(rows.logs, e);
  }

  /** The stage at which events of a category are collected; relays are collected beside what they relay. */
  function Stage(c: Category): nat {
    match c
    case Ingest => 0
    case Decode => 1
    case Broadcast => 2
    case Manual => 3
    case Gpio => 4
    case Audio => 5
    case System => 6
    case Forward => 0
  }

  ghost predicate Staged(es: seq<Event>, stage: nat) {
    && (forall i, j | 0 <= i < j < |es| && !es[i].category.Forward? && !es[j].category.Forward? ::
          Stage(es[i].category) <= Stage(es[j].category))
    && (forall e <- es | !e.category.Forward? :: Stage(e.category) <= stage)
  }

  lemma NextStage(es: seq<Event>, more: seq<Event>, stage: nat, next: nat)
    requires Staged(es, stage) && stage <= next && forall e <- more | !e.category.Forward? :: Stage(e.category) == next
    ensures Staged(es + more, next)
  {
    forall i, j | 0 <= i < j < |es + more| && !(es + more)[i].category.Forward? && !(es + more)[j].category.Forward?
      ensures Stage((es + more)[i].category) <= Stage((es + more)[j].category)
    {
      assert (es + more)[i] in if i < |es| then es else more;
      assert (es + more)[j] in if j < |es| then es else more;
    }
  }

  lemma CollectedStaged(rows: Rows)
    ensures Staged(Collected(rows), 6)
  {
    hide EventsOf, ReceivedOf, CapEvents;
    var s0 := if rows.cap.Some? then CapEvents(rows.cap.value) else [];
    forall e <- s0 ensures e.category.Ingest? || e.category.Forward? { ReportsCap(rows.cap.value, e); }
    var received := ReceivedOf(rows.messages);
    forall e <- EventsOf(ReceivedEvents, received) ensures e.category.Decode? || e.category.Forward? { ReportsDecode(received, e); }
    forall e <- EventsOf(MessageEvents, rows.messages) ensures e.category.Broadcast? { ReportsBroadcast(rows.messages, e); }
    forall e <- EventsOf(ManualEvents, rows.manual) ensures e.category.Manual? { ReportsManual(rows.manual, e); }
    forall e <- EventsOf(GpioEvents, rows.gpio) ensures e.category.Gpio? { ReportsGpio(rows.gpio, e); }
    forall e <- EventsOf(AudioEvents, rows.audio) ensures e.category.Audio? { ReportsAudio(rows.audio, e); }
    forall e <- EventsOf(LogEvents, rows.logs) ensures e.category.System? { ReportsLogs(rows.logs, e); }
    hide Staged;
    AtFirst(s0);
    var s1 := s0 + EventsOf(ReceivedEvents, received);
    NextStage(s0, EventsOf(ReceivedEvents, received), 0, 1);
    var s2 := s1 + EventsOf(MessageEvents, rows.messages);
    NextStage(s1, EventsOf(MessageEvents, rows.messages), 1, 2);
    var s3 := s2 + EventsOf(ManualEvents, rows.manual);
    NextStage(s2, EventsOf(ManualEvents, rows.manual), 2, 3);
    var s4 := s3 + EventsOf(GpioEvents, rows.gpio);
    NextStage(s3, EventsOf(GpioEvents, rows.gpio), 3, 4);
    var s5 := s4 + EventsOf(AudioEvents, rows.audio);
    NextStage(s4, EventsOf(AudioEvents, rows.audio), 4, 5);
    NextStage(s5, EventsOf(LogEvents, rows.logs), 5, 6);
    assert Collected(rows) == s5 + EventsOf(LogEvents, rows.logs);
  }

  lemma AtFirst(es: seq<Event>)
    requires forall e <- es :: e.category.Ingest? || e.category.Forward?
    ensures Staged(es, 0)
  {
  }

  lemma NotBefore(es: seq<Event>, i: nat, j: nat, earlier: Category, later: Category)
    requires Staged(es, 6) && i < j < |es| && !earlier.Forward? && !later.Forward? && Stage(earlier) < Stage(later)
    ensures !(es[i].category == later && es[j].category == earlier)
  {
  }

  /** Events are collected in the order alert, decodes, broadcasts, manual activations, switchings, audio, log. */
  lemma CollectedInStages(rows: Rows, i: nat, j: nat)
    requires i < j < |Collected(rows)|
    ensures var order := [Ingest, Decode, Broadcast, Manual, Gpio, Audio, System];
            forall a, b | 0 <= a < b < |order| :: !(Collected(rows)[i].category == order[b] && Collected(rows)[j].category == order[a])
  {
    hide Collected, Staged;
    CollectedStaged(rows);
    var order := [Ingest, Decode, Broadcast, Manual, Gpio, Audio, System];
    forall a, b | 0 <= a < b < |order|
      ensures !(Collected(rows)[i].category == order[b] && Collected(rows)[j].category == order[a])
    {
      InOrder(a, b);
      NotBefore(Collected(rows), i, j, order[a], order[b]);
    }
  }

  lemma InOrder(a: nat, b: nat)
    requires a < b < 7
    ensures var order := [Ingest, Decode, Broadcast, Manual, Gpio, Audio, System];
            !order[a].Forward? && !order[b].Forward? && Stage(order[a]) < Stage(order[b])
  {
  }

  /** The ids of the decodes behind the messages. */
  predicate HasSource(messages: seq<EasMessage>, id: int) {
    exists m <- messages :: Lists(m.sourceAlerts, id)
  }

  predicate Lists(rs: seq<Received>, id: int) { exists r <- rs :: r.id == id }

  ghost predicate OneEach(received: seq<Received>) {
    forall i, j | 0 <= i < j < |received| :: received[i].id != received[j].id
  }

  lemma {:induction false} AppendNewKeepsOneEach(seen: seq<Received>, more: seq<Received>)
    requires OneEach(seen)
    ensures OneEach(AppendNew(seen, more)) && seen <= AppendNew(seen, more)
    ensures forall id :: Lists(AppendNew(seen, more), id) <==> Lists(seen, id) || Lists(more, id)
  {
    if more != [] {
      var most, last := more[..|more| - 1], more[|more| - 1];
      AppendNewKeepsOneEach(seen, most);
      ListsSnoc(most, last);
      ListsSnoc(AppendNew(seen, most), last);
      assert more == most + [last];
    }
  }

  lemma ListsSnoc(rs: seq<Received>, r: Received)
    ensures forall id :: Lists(rs + [r], id) <==> Lists(rs, id) || r.id == id
  {
    assert forall x :: x in rs + [r] <==> x in rs || x == r;
    assert r in rs + [r];
  }

  lemma {:induction false} AppendsOnlyGiven(seen: seq<Received>, more: seq<Received>, r: Received)
    ensures r in AppendNew(seen, more) ==> r in seen || r in more
  {
    if more != [] {
      AppendsOnlyGiven(seen, more[..|more| - 1], r);
    }
  }

  /** What is listed is a row of one of the messages. */
  lemma {:induction false} DecodesAreRows(messages: seq<EasMessage>, r: Received)
    requires r in ReceivedOf(messages)
    ensures exists m <- messages :: r in m.sourceAlerts
  {
    var most, last := messages[..|messages| - 1], messages[|messages| - 1];
    AppendsOnlyGiven(ReceivedOf(most), last.sourceAlerts, r);
    if r in ReceivedOf(most) {
      DecodesAreRows(most, r);
    }
  }

  /** Each decode behind any of the messages is listed, and only once. */
  lemma {:induction false} DecodesListedOnce(messages: seq<EasMessage>)
    ensures OneEach(ReceivedOf(messages))
    ensures forall id :: Lists(ReceivedOf(messages), id) <==> HasSource(messages, id)
    ensures forall i, j | 0 <= i < j < |ReceivedOf(messages)| :: ReceivedOf(messages)[i].id != ReceivedOf(messages)[j].id
    ensures forall m <- messages, r <- m.sourceAlerts :: exists q <- ReceivedOf(messages) :: q.id == r.id
  {
    if messages != [] {
      var most, last := messages[..|messages| - 1], messages[|messages| - 1];
      DecodesListedOnce(most);
      AppendNewKeepsOneEach(ReceivedOf(most), last.sourceAlerts);
      forall m <- messages, r <- m.sourceAlerts ensures exists q <- ReceivedOf(messages) :: q.id == r.id {
        assert Lists(m.sourceAlerts, r.id);
        assert HasSource(messages, r.id);
        assert Lists(ReceivedOf(messages), r.id);
      }
      forall id ensures HasSource(messages, id) <==> HasSource(most, id) || Lists(last.sourceAlerts, id) {
        assert messages == most + [last];
      }
    }
  }

  // ---------------------------------------------------------------------------
  // Tallies
  // ---------------------------------------------------------------------------

  function Total<T>(n: T -> nat, xs: seq<T>): nat {
    if xs == [] then 0 else Total(n, xs[..|xs| - 1]) + n(xs[|xs| - 1])
  }

  function One(b: bool): nat { if b then 1 else 0 }

  function Decodes(r: Received): nat { One(r.receivedAt.Some?) }

  function Relays(r: Received): nat { One(r.forwardedAt.Some?) }

  function Broadcasts(m: EasMessage): nat { One(m.createdAt.Some?) }

  function Activations(a: Activation): nat { One(a.triggeredAt.Some? || a.sentAt.Some? || a.createdAt.Some?) }

  function Switchings(g: GpioLog): nat {
    One(g.activatedAt.Some?) + One(g.deactivatedAt.Some? && g.deactivatedAt != g.activatedAt)
  }

  function AudioEntries(a: AudioAlert): nat { One(a.createdAt.Some?) }

  function LogEntries(l: SystemLog): nat { One(l.timestamp.Some?) }

  function Forwardings(c: CapAlert): nat { One(c.easForwarded.Some? && (c.updatedAt.Some? || c.createdAt.Some?)) }

  function Ingestions(c: CapAlert): nat { One(c.createdAt.Some?) + One(UpdatedLater(c)) }

  /** How many events of each category the database rows call for. */
  function Expected(rows: Rows, c: Category): nat {
    match c
    case Ingest => if rows.cap.Some? then Ingestions(rows.cap.value) else 0
    case Decode => Total(Decodes, ReceivedOf(rows.messages))
    case Forward => (if rows.cap.Some? then Forwardings(rows.cap.value) else 0) + Total(Relays, ReceivedOf(rows.messages))
    case Broadcast => Total(Broadcasts, rows.messages)
    case Gpio => Total(Switchings, rows.gpio)
    case Audio => Total(AudioEntries, rows.audio)
    case System => Total(LogEntries, rows.logs)
    case Manual => Total(Activations, rows.manual)
  }

  lemma CountConcat(c: Category, xs: seq<Event>, ys: seq<Event>)
    ensures Count(c, xs + ys) == Count(c, xs) + Count(c, ys)
  {
    FilterConcat(InCategory(c), xs, ys);
  }

  lemma CountMade(c: Category, timestamp: Option<int>, category: Category, rowId: int)
    ensures Count(c, MakeEvent(timestamp, category, rowId)) == One(timestamp.Some? && category == c)
  {
    if timestamp.Some? {
      FilterSnoc(InCategory(c), [], Event(timestamp.value, category, rowId));
      assert [] + [Event(timestamp.value, category, rowId)] == [Event(timestamp.value, category, rowId)];
    }
  }

  lemma {:induction false} CountEventsOf<T(!new)>(c: Category, f: T -> seq<Event>, n: T -> nat, rows: seq<T>)
    requires forall x :: Count(c, f(x)) == n(x)
    ensures Count(c, EventsOf(f, rows)) == Total(n, rows)
  {
    if rows != [] {
      CountEventsOf(c, f, n, rows[..|rows| - 1]);
      CountConcat(c, EventsOf(f, rows[..|rows| - 1]), f(rows[|rows| - 1]));
    }
  }

  lemma {:induction false} NoneOf<T(!new)>(rows: seq<T>)
    ensures Total((x: T) => 0, rows) == 0
  {
    if rows != [] {
      NoneOf(rows[..|rows| - 1]);
    }
  }

  lemma CountCap(c: Category, a: CapAlert)
    ensures Count(c, CapEvents(a)) == if c.Ingest? then Ingestions(a) else if c.Forward? then Forwardings(a) else 0
  {
    var created := MakeEvent(a.createdAt, Ingest, a.id);
    var updated := if UpdatedLater(a) then MakeEvent(a.updatedAt, Ingest, a.id) else [];
    var forwarded := if a.easForwarded.Some? then MakeEvent(Or(a.updatedAt, a.createdAt), Forward, a.id) else [];
    CountConcat(c, created + updated, forwarded);
    CountConcat(c, created, updated);
    CountMade(c, a.createdAt, Ingest, a.id);
    CountMade(c, a.updatedAt, Ingest, a.id);
    CountMade(c, Or(a.updatedAt, a.createdAt), Forward, a.id);
  }

  lemma CountReceived(c: Category, rows: seq<Received>)
    ensures Count(c, EventsOf(ReceivedEvents, rows)) ==
            if c.Decode? then Total(Decodes, rows) else if c.Forward? then Total(Relays, rows) else 0
  {
    forall r: Received
      ensures Count(c, ReceivedEvents(r)) == if c.Decode? then Decodes(r) else if c.Forward? then Relays(r) else 0
    {
      CountConcat(c, MakeEvent(r.receivedAt, Decode, r.id), MakeEvent(r.forwardedAt, Forward, r.id));
      CountMade(c, r.receivedAt, Decode, r.id);
      CountMade(c, r.forwardedAt, Forward, r.id);
    }
    if c.Decode? {
      CountEventsOf(c, ReceivedEvents, Decodes, rows);
    } else if c.Forward? {
      CountEventsOf(c, ReceivedEvents, Relays, rows);
    } else {
      CountEventsOf(c, ReceivedEvents, (r: Received) => 0, rows);
      NoneOf(rows);
    }
  }

  /** Rows whose events are all of one category. */
  lemma CountSimple<T(!new)>(c: Category, category: Category, f: T -> seq<Event>, n: T -> nat, rows: seq<T>)
    requires forall x :: Count(c, f(x)) == if c == category then n(x) else 0
    ensures Count(c, EventsOf(f, rows)) == if c == category then Total(n, rows) else 0
  {
    if c == category {
      CountEventsOf(c, f, n, rows);
    } else {
      CountEventsOf(c, f, (x: T) => 0, rows);
      NoneOf(rows);
    }
  }

  lemma CountGpio(c: Category, rows: seq<GpioLog>)
    ensures Count(c, EventsOf(GpioEvents, rows)) == if c.Gpio? then Total(Switchings, rows) else 0
  {
    forall g: GpioLog ensures Count(c, GpioEvents(g)) == if c.Gpio? then Switchings(g) else 0 {
      var off := if g.deactivatedAt != g.activatedAt then MakeEvent(g.deactivatedAt, Gpio, g.id) else [];
      CountConcat(c, MakeEvent(g.activatedAt, Gpio, g.id), off);
      CountMade(c, g.activatedAt, Gpio, g.id);
      CountMade(c, g.deactivatedAt, Gpio, g.id);
    }
    CountSimple(c, Gpio, GpioEvents, Switchings, rows);
  }

  lemma CountOthers(c: Category, rows: Rows)
    ensures Count(c, EventsOf(MessageEvents, rows.messages)) == if c.Broadcast? then Total(Broadcasts, rows.messages) else 0
    ensures Count(c, EventsOf(ManualEvents, rows.manual)) == if c.Manual? then Total(Activations, rows.manual) else 0
    ensures Count(c, EventsOf(AudioEvents, rows.audio)) == if c.Audio? then Total(AudioEntries, rows.audio) else 0
    ensures Count(c, EventsOf(LogEvents, rows.logs)) == if c.System? then Total(LogEntries, rows.logs) else 0
  {
    forall m: EasMessage ensures Count(c, MessageEvents(m)) == if c.Broadcast? then Broadcasts(m) else 0 {
      CountMade(c, m.createdAt, Broadcast, m.id);
    }
    forall a: Activation ensures Count(c, ManualEvents(a)) == if c.Manual? then Activations(a) else 0 {
      CountMade(c, Or(a.triggeredAt, Or(a.sentAt, a.createdAt)), Manual, a.id);
    }
    forall a: AudioAlert ensures Count(c, AudioEvents(a)) == if c.Audio? then AudioEntries(a) else 0 {
      CountMade(c, a.createdAt, Audio, a.id);
    }
    forall l: SystemLog ensures Count(c, LogEvents(l)) == if c.System? then LogEntries(l) else 0 {
      CountMade(c, l.timestamp, System, l.id);
    }
    CountSimple(c, Broadcast, MessageEvents, Broadcasts, rows.messages);
    CountSimple(c, Manual, ManualEvents, Activations, rows.manual);
    CountSimple(c, Audio, AudioEvents, AudioEntries, rows.audio);
    CountSimple(c, System, LogEvents, LogEntries, rows.logs);
  }

  lemma CountNothing(c: Category)
    ensures Count(c, []) == 0
  {
  }

  lemma CountCollected(rows: Rows, c: Category)
    ensures Count(c, Collected(rows)) == Expected(rows, c)
  {
    hide Count, EventsOf, Total, ReceivedOf, CapEvents;
    var s0 := if rows.cap.Some? then CapEvents(rows.cap.value) else [];
    var s1 := s0 + EventsOf(ReceivedEvents, ReceivedOf(rows.messages));
    var s2 := s1 + EventsOf(MessageEvents, rows.messages);
    var s3 := s2 + EventsOf(ManualEvents, rows.manual);
    var s4 := s3 + EventsOf(GpioEvents, rows.gpio);
    var s5 := s4 + EventsOf(AudioEvents, rows.audio);
    CountConcat(c, s5, EventsOf(LogEvents, rows.logs));
    CountConcat(c, s4, EventsOf(AudioEvents, rows.audio));
    CountConcat(c, s3, EventsOf(GpioEvents, rows.gpio));
    CountConcat(c, s2, EventsOf(ManualEvents, rows.manual));
    CountConcat(c, s1, EventsOf(MessageEvents, rows.messages));
    CountConcat(c, s0, EventsOf(ReceivedEvents, ReceivedOf(rows.messages)));
    if rows.cap.Some? {
      CountCap(c, rows.cap.value);
    }
    CountNothing(c);
    CountReceived(c, ReceivedOf(rows.messages));
    CountOthers(c, rows);
    CountGpio(c, rows.gpio);
  }

  lemma {:induction false} CountInserted(c: Category, e: Event, es: seq<Event>)
    ensures Count(c, Insert(Earlier, e, es)) == Count(c, es) + One(e.category == c)
  {
    var p := InCategory(c);
    if es == [] || Earlier(es[|es| - 1], e) {
      FilterSnoc(p, es, e);
    } else {
      var most, last := es[..|es| - 1], es[|es| - 1];
      CountInserted(c, e, most);
      FilterSnoc(p, Insert(Earlier, e, most), last);
      FilterLast(p, es);
    }
  }

  /** Sorting leaves the number of events in each category as it was. */
  lemma {:induction false} CountSorted(c: Category, es: seq<Event>)
    ensures Count(c, StableSort(Earlier, es)) == Count(c, es)
  {
    if es != [] {
      CountSorted(c, es[..|es| - 1]);
      CountInserted(c, es[|es| - 1], StableSort(Earlier, es[..|es| - 1]));
      FilterLast(InCategory(c), es);
    }
  }

  lemma {:induction false} CountsAddUp(es: seq<Event>)
    ensures Count(Ingest, es) + Count(Decode, es) + Count(Forward, es) + Count(Broadcast, es)
          + Count(Gpio, es) + Count(Audio, es) + Count(System, es) + Count(Manual, es) == |es|
  {
    if es != [] {
      CountsAddUp(es[..|es| - 1]);
      forall c ensures Count(c, es) == Count(c, es[..|es| - 1]) + One(es[|es| - 1].category == c) {
        FilterLast(InCategory(c), es);
      }
    }
  }

  // ---------------------------------------------------------------------------
  // Collecting
  // ---------------------------------------------------------------------------

  datatype Trail = Trail(events: seq<Event>, counts: map<Category, nat>)

  method AppendEvents<T>(events: seq<Event>, f: T -> seq<Event>, rows: seq<T>) returns (all: seq<Event>)
    ensures all == events + EventsOf(f, rows)
  {
    all := events;
    for i := 0 to |rows|
      invariant all == events + EventsOf(f, rows[..i])
    {
      assert rows[..i + 1][..i] == rows[..i];
      all := all + f(rows[i]);
    }
    assert rows[..|rows|] == rows;
  }

  method CollectReceived(messages: seq<EasMessage>) returns (received: seq<Received>)
    ensures received == ReceivedOf(messages)
  {
    received := [];
    var seen: set<int> := {};
    for i := 0 to |messages|
      invariant received == ReceivedOf(messages[..i])
      invariant forall id :: id in seen <==> exists r <- received :: r.id == id
    {
      assert messages[..i + 1][..i] == messages[..i];
      ghost var before := received;
      var sources := messages[i].sourceAlerts;
      for j := 0 to |sources|
        invariant received == AppendNew(before, sources[..j])
        invariant forall id :: id in seen <==> exists r <- received :: r.id == id
      {
        assert sources[..j + 1][..j] == sources[..j];
        if sources[j].id !in seen {
          seen := seen + {sources[j].id};
          received := received + [sources[j]];
        }
      }
      assert sources[..|sources|] == sources;
    }
    assert messages[..|messages|] == messages;
  }

  /**
   The trail's events are the collected events in stable time order, and its counts, which add up to
   the number of events, are those the database rows call for.
   */
  method CollectAlertTrail(rows: Rows) returns (t: Trail)
    ensures t.events == Timeline(rows)
    ensures IsStableSortOf(Earlier, t.events, Collected(rows))
    ensures t.counts.Keys == (set c | c in CATEGORIES)
    ensures forall c :: c in t.counts && t.counts[c] == Expected(rows, c)
    ensures t.counts[Ingest] + t.counts[Decode] + t.counts[Forward] + t.counts[Broadcast]
          + t.counts[Gpio] + t.counts[Audio] + t.counts[System] + t.counts[Manual] == |t.events|
  {
    var received := CollectReceived(rows.messages);
    var events := if rows.cap.Some? then CapEvents(rows.cap.value) else [];
    events := AppendEvents(events, ReceivedEvents, received);
    events := AppendEvents(events, MessageEvents, rows.messages);
    events := AppendEvents(events, ManualEvents, rows.manual);
    events := AppendEvents(events, GpioEvents, rows.gpio);
    events := AppendEvents(events, AudioEvents, rows.audio);
    events := AppendEvents(events, LogEvents, rows.logs);
    events := StableSort(Earlier, events);
    TimelineIsStableOrder(rows);
    var counts := TallyCategories(events);
    forall c ensures counts[c] == Expected(rows, c) {
      CountSorted(c, Collected(rows));
      CountCollected(rows, c);
    }
    CountsAddUp(events);
    t := Trail(events, counts);
  }

  method TallyCategories(events: seq<Event>) returns (counts: map<Category, nat>)
    ensures counts.Keys == (set c | c in CATEGORIES)
    ensures forall c :: c in counts && counts[c] == Count(c, events)
  {
    counts := map c | c in CATEGORIES :: 0;
    forall c: Category ensures c in CATEGORIES {
      assert c == CATEGORIES[0] || c == CATEGORIES[1] || c == CATEGORIES[2] || c == CATEGORIES[3]
          || c == CATEGORIES[4] || c == CATEGORIES[5] || c == CATEGORIES[6] || c == CATEGORIES[7];
    }
    for i := 0 to |events|
      invariant forall c: Category :: c in counts && counts[c] == Count(c, events[..i])
    {
      var c := events[i].category;
      assert events[..i + 1] == events[..i] + [events[i]];
      forall k ensures Count(k, events[..i + 1]) == Count(k, events[..i]) + One(k == c) {
        FilterSnoc(InCategory(k), events[..i], events[i]);
      }
      counts := counts[c := counts[c] + 1];
    }
    assert events[..|events|] == events;
  }

  // ---------------------------------------------------------------------------
  // The VTEC chain
  // ---------------------------------------------------------------------------

  datatype Vtec = Vtec(
    office: Option<string>, phenomenon: Option<string>, significance: Option<string>,
    etn: Option<int>, year: Option<int>)

  datatype Product = Product(id: int, identifier: string, sent: int, vtec: Vtec)

  datatype Link = Link(id: int, sent: int, isCurrent: bool, isViewing: bool)

  predicate PresentText(s: Option<string>) { s.Some? && s.value != "" }

  predicate PresentNumber(n: Option<int>) { n.Some? && n.value != 0 }

  predicate HasIdentity(v: Vtec) {
    && PresentText(v.office) && PresentText(v.phenomenon) && PresentText(v.significance)
    && PresentNumber(v.etn) && PresentNumber(v.year)
  }

  predicate SentBefore(a: Product, b: Product) { a.sent < b.sent || (a.sent == b.sent && a.id <= b.id) }

  function Siblings(p: Product, products: seq<Product>): seq<Product> {
    StableSort(SentBefore, Filter((q: Product) => q.vtec == p.vtec, products))
  }

  function VtecChain(p: Product, products: seq<Product>): seq<Link> {
    if !HasIdentity(p.vtec) then [] else
      var siblings := Siblings(p, products);
      if |siblings| < 2 then [] else
        var current := siblings[|siblings| - 1].id;
        seq(|siblings|, i requires 0 <= i < |siblings| =>
          var q := siblings[i];
          Link(q.id, q.sent, q.id == current, q.identifier == p.identifier))
  }

  lemma SeveralMembers(xs: seq<Product>, p: Product)
    requires Distinct(xs) && p in xs
    ensures |xs| < 2 <==> forall q <- xs :: q == p
  {
    if |xs| >= 2 {
      assert xs[0] in xs && xs[1] in xs;
    }
  }

  /**
   A nonempty chain is strictly ordered by (sent, id), its last entry and no other is current, and
   exactly the viewed alert is marked as viewed; it is empty exactly if there is no identity or no
   other product to chain.
   */
  lemma ChainIsOrderedWithLastCurrent(p: Product, products: seq<Product>)
    requires Distinct(products) && p in products
    requires forall a <- products, b <- products | a.id == b.id || a.identifier == b.identifier :: a == b
    ensures var chain := VtecChain(p, products);
            && (chain == [] <==>
                  || p.vtec.office == None || p.vtec.office == Some("") || p.vtec.phenomenon == None || p.vtec.phenomenon == Some("")
                  || p.vtec.significance == None || p.vtec.significance == Some("")
                  || p.vtec.etn == None || p.vtec.etn == Some(0) || p.vtec.year == None || p.vtec.year == Some(0)
                  || forall q <- products | q.vtec == p.vtec :: q == p)
            && |chain| != 1
            && (forall i, j | 0 <= i < j < |chain| ::
                  chain[i].sent < chain[j].sent || (chain[i].sent == chain[j].sent && chain[i].id < chain[j].id))
            && (forall i | 0 <= i < |chain| :: chain[i].isCurrent <==> i == |chain| - 1)
            && (forall i | 0 <= i < |chain| :: chain[i].isViewing <==> chain[i].id == p.id)
  {
    hide Siblings;
    var siblings := Siblings(p, products);
    SiblingsInOrder(p, products);
    SeveralMembers(siblings, p);
    assert forall i | 0 <= i < |siblings| :: siblings[i] in siblings;
  }

  /** A nonempty chain lists exactly the products of the alert's VTEC event. */
  lemma ChainListsTheWholeEvent(p: Product, products: seq<Product>)
    requires Distinct(products) && VtecChain(p, products) != []
    ensures forall l <- VtecChain(p, products) :: exists q <- products :: q.id == l.id && q.sent == l.sent && q.vtec == p.vtec
    ensures forall q <- products | q.vtec == p.vtec :: exists l <- VtecChain(p, products) :: l.id == q.id && l.sent == q.sent
  {
    hide Siblings;
    var siblings, chain := Siblings(p, products), VtecChain(p, products);
    SiblingsInOrder(p, products);
    forall l | l in chain ensures exists q <- products :: q.id == l.id && q.sent == l.sent && q.vtec == p.vtec {
      var i :| 0 <= i < |chain| && chain[i] == l;
      assert siblings[i] in products;
    }
    forall q | q in products && q.vtec == p.vtec ensures exists l <- chain :: l.id == q.id && l.sent == q.sent {
      var i :| 0 <= i < |siblings| && siblings[i] == q;
      assert chain[i] in chain;
    }
  }

  lemma SiblingsInOrder(p: Product, products: seq<Product>)
    requires Distinct(products)
    ensures Distinct(Siblings(p, products)) && Sorted(SentBefore, Siblings(p, products))
    ensures forall q :: q in Siblings(p, products) <==> q in products && q.vtec == p.vtec
  {
    var same := Filter((q: Product) => q.vtec == p.vtec, products);
    assert TotalPreorder(SentBefore);
    FilterDistinct((q: Product) => q.vtec == p.vtec, products);
    SortIsStable(SentBefore, same);
    SortKeepsElements(SentBefore, same);
  }
}
