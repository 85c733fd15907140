/**
 Batched purge of received alerts (app_core/alert_purge.py).

 A purge runs as a loop of short transactions. Each picks at most PURGE_BATCH_SIZE matching rows, in
 no particular order, and commits before the next one starts, so other sessions may insert rows in
 between. The contracts below say that the loop nevertheless computes a one-shot set operation.
 */
module AlertPurge {
  import opened Wrappers

  const PURGE_BATCH_SIZE: nat := 200

  /** Times are in microseconds. */
  const DAY: int := 86_400_000_000

  const DECISION_ANY := "any"
  const DECISION_NOT_FORWARDED := "not_forwarded"
  const DECISION_FORWARDED := "forwarded"
  const DECISION_IGNORED := "ignored"
  const DECISION_ERROR := "error"
  const VALID_DECISION_FILTERS :=
    [DECISION_ANY, DECISION_NOT_FORWARDED, DECISION_FORWARDED, DECISION_IGNORED, DECISION_ERROR]

  newtype Byte = x: int | 0 <= x < 256

  datatype Alert = Alert(
    receivedAt: int,
    sourceName: string,
    alertSource: Option<string>,
    decision: string,
    eventCode: Option<string>,
    messageId: Option<int>,
    audio: Option<seq<Byte>>)

  datatype Message = Message(sameHeader: string)

  type Table = map<int, Alert>

  type Messages = map<int, Message>

  datatype Scope = AudioScope | FullScope

  datatype Criteria = Criteria(
    olderThanDays: Option<int>,
    source: Option<string>,
    decision: string,
    eventCode: Option<string>,
    scope: Scope,
    deleteGeneratedMessages: bool)

  datatype Summary = Summary(
    rowsDeleted: nat, audioStripped: nat, audioBytesFreed: nat, messagesDeleted: nat, batches: nat)

  datatype Preview = Preview(matchingCount: nat, audioCount: nat, audioBytes: nat)

  // ---------------------------------------------------------------------------
  // Filters
  // ---------------------------------------------------------------------------

  datatype Filter =
    | ReceivedBefore(cutoff: int)
    | FromSource(source: string)
    | DecisionIsNot(decision: string)
    | DecisionIs(decision: string)
    | EventCodeIs(eventCode: string)
    | HasAudio

  /** A comparison with NULL is not true, so a row without the column never passes. */
  predicate Holds(f: Filter, a: Alert) {
    match f
    case ReceivedBefore(cutoff) => a.receivedAt < cutoff
    case FromSource(source) => a.sourceName == source || a.alertSource == Some(source)
    case DecisionIsNot(decision) => a.decision != decision
    case DecisionIs(decision) => a.decision == decision
    case EventCodeIs(code) => a.eventCode == Some(code)
    case HasAudio => a.audio.Some?
  }

  predicate Matches(fs: seq<Filter>, a: Alert) {
    forall f <- fs :: Holds(f, a)
  }

  /** Python truthiness of an optional criterion. */
  predicate Present(s: Option<string>) { s.Some? && s.value != "" }

  predicate AgePresent(c: Criteria) { c.olderThanDays.Some? && c.olderThanDays.value != 0 }

  function Cutoff(c: Criteria, now: int): int
    requires AgePresent(c)
  {
    now - c.olderThanDays.value * DAY
  }

  function BuildFilters(c: Criteria, now: int): seq<Filter> {
    (if AgePresent(c) then [ReceivedBefore(Cutoff(c, now))] else [])
    + (if Present(c.source) then [FromSource(c.source.value)] else [])
    + DecisionFilters(c.decision)
    + (if Present(c.eventCode) then [EventCodeIs(c.eventCode.value)] else [])
  }

  function DecisionFilters(decision: string): seq<Filter> {
    if decision == DECISION_NOT_FORWARDED then [DecisionIsNot(DECISION_FORWARDED)]
    else if decision in [DECISION_FORWARDED, DECISION_IGNORED, DECISION_ERROR] then [DecisionIs(decision)]
    else []
  }

  predicate HasAnyCriteria(c: Criteria) {
    || AgePresent(c)
    || Present(c.source)
    || (c.decision != "" && c.decision != DECISION_ANY)
    || Present(c.eventCode)
  }

  /** The filters of the rows a purge touches: in audio scope only rows that still carry a blob. */
  function PurgeFilters(c: Criteria, now: int): seq<Filter> {
    BuildFilters(c, now) + if c.scope.AudioScope? then [HasAudio] else []
  }

  lemma MatchesConcat(fs: seq<Filter>, gs: seq<Filter>, a: Alert)
    ensures Matches(fs + gs, a) <==> Matches(fs, a) && Matches(gs, a)
  {
    assert forall f :: f in fs + gs <==> f in fs || f in gs;
  }

  /** What the filters say of a row, criterion by criterion; an unknown decision text says nothing. */
  lemma FiltersMeanCriteria(c: Criteria, now: int, a: Alert)
    ensures Matches(BuildFilters(c, now), a) <==>
            && (c.olderThanDays.Some? && c.olderThanDays.value != 0 ==> a.receivedAt + c.olderThanDays.value * 86_400_000_000 < now)
            && (c.source.Some? && c.source.value != "" ==> Some(a.sourceName) == c.source || a.alertSource == c.source)
            && (c.decision == "not_forwarded" ==> a.decision != "forwarded")
            && (c.decision in {"forwarded", "ignored", "error"} ==> a.decision == c.decision)
            && (c.eventCode.Some? && c.eventCode.value != "" ==> a.eventCode == c.eventCode)
  {
    hide Matches, DecisionFilters;
    var age := if AgePresent(c) then [ReceivedBefore(Cutoff(c, now))] else [];
    var source := if Present(c.source) then [FromSource(c.source.value)] else [];
    var code := if Present(c.eventCode) then [EventCodeIs(c.eventCode.value)] else [];
    MatchesConcat(age + source + DecisionFilters(c.decision), code, a);
    MatchesConcat(age + source, DecisionFilters(c.decision), a);
    MatchesConcat(age, source, a);
    MatchesAtMostOne(age, a);
    MatchesAtMostOne(source, a);
    MatchesAtMostOne(code, a);
    DecisionFiltersMean(c.decision, a);
  }

  lemma MatchesAtMostOne(fs: seq<Filter>, a: Alert)
    requires |fs| <= 1
    ensures Matches(fs, a) <==> fs == [] || Holds(fs[0], a)
  {
    assert fs == [] || fs == [fs[0]];
  }

  lemma DecisionFiltersMean(decision: string, a: Alert)
    ensures Matches(DecisionFilters(decision), a) <==>
            && (decision == "not_forwarded" ==> a.decision != "forwarded")
            && (decision in {"forwarded", "ignored", "error"} ==> a.decision == decision)
  {
    MatchesAtMostOne(DecisionFilters(decision), a);
  }

  /**
   The guard against wiping the table is sound exactly when the decision text is one the filter
   builder knows, or another criterion is set: an unknown decision such as "bogus" alone passes the
   guard, adds no filter, and so every row matches.
   */
  lemma GuardSoundness(c: Criteria, now: int)
    ensures (HasAnyCriteria(c) ==> BuildFilters(c, now) != [])
       <==> (c.decision in VALID_DECISION_FILTERS + [""]
             || AgePresent(c) || Present(c.source) || Present(c.eventCode))
    ensures BuildFilters(c, now) == [] <==> forall a :: Matches(BuildFilters(c, now), a)
  {
    var fs := BuildFilters(c, now);
    if fs != [] {
      // A row that fails the first filter is always constructible.
      var a := match fs[0]
        case ReceivedBefore(cutoff) => Blank().(receivedAt := cutoff)
        case FromSource(source) => Blank().(sourceName := source + "x")
        case DecisionIsNot(d) => Blank().(decision := d)
        case DecisionIs(d) => Blank().(decision := d + "x")
        case EventCodeIs(e) => Blank()
        case HasAudio => Blank();
      assert !Holds(fs[0], a);
      assert !Matches(fs, a);
    }
  }

  function Blank(): Alert { Alert(0, "", None, "", None, None, None) }

  // ---------------------------------------------------------------------------
  // Where criteria come from
  // ---------------------------------------------------------------------------

  const MAX_AGE_DAYS: int := 3650

  datatype RawAge = Missing | Number(days: int) | NotANumber

  /** A request's fields as they arrive; the flag has already been read as a boolean. */
  datatype RawCriteria = RawCriteria(
    olderThanDays: RawAge,
    source: Option<string>,
    decision: Option<string>,
    eventCode: Option<string>,
    scope: Option<string>,
    deleteGeneratedMessages: bool)

  /** The string operations that clean a field. */
  datatype Text = Text(strip: string -> string, lower: string -> string, upper: string -> string)

  datatype CriteriaError = NotWholeDays | DaysOutOfRange | InvalidDecision | InvalidScope

  function OrElse(s: Option<string>, fallback: string): string { if Present(s) then s.value else fallback }

  function NonEmpty(s: string): Option<string> { if s == "" then None else Some(s) }

  function ScopeOf(s: string): Option<Scope> {
    if s == "audio" then Some(AudioScope) else if s == "full" then Some(FullScope) else None
  }

  function ScopeName(s: Scope): string { if s.AudioScope? then "audio" else "full" }

  function NormalizeCriteria(text: Text, raw: RawCriteria): Result<Criteria, CriteriaError> {
    if raw.olderThanDays.NotANumber? then Err(NotWholeDays)
    else if raw.olderThanDays.Number? && !(0 <= raw.olderThanDays.days <= MAX_AGE_DAYS) then Err(DaysOutOfRange)
    else
      var age := if raw.olderThanDays.Number? && raw.olderThanDays.days != 0 then Some(raw.olderThanDays.days) else None;
      var decision := text.lower(text.strip(OrElse(raw.decision, DECISION_ANY)));
      var scope := ScopeOf(text.lower(text.strip(OrElse(raw.scope, "full"))));
      if decision !in VALID_DECISION_FILTERS then Err(InvalidDecision)
      else if scope.None? then Err(InvalidScope)
      else Ok(Criteria(age, NonEmpty(text.strip(OrElse(raw.source, ""))), decision,
                       NonEmpty(text.upper(text.strip(OrElse(raw.eventCode, "")))), scope.value, raw.deleteGeneratedMessages))
  }

  /** Criteria sent back as a request. */
  function AsRaw(c: Criteria): RawCriteria {
    RawCriteria(if c.olderThanDays.Some? then Number(c.olderThanDays.value) else Missing,
                c.source, Some(c.decision), c.eventCode, Some(ScopeName(c.scope)), c.deleteGeneratedMessages)
  }

  /**
   For accepted criteria the guard is exact: something is selected by a filter exactly if the guard lets
   the purge through. Days are between 1 and the maximum, or absent.
   */
  lemma AcceptedCriteriaAreGuarded(text: Text, raw: RawCriteria, now: int)
    requires NormalizeCriteria(text, raw).Ok?
    ensures var c := NormalizeCriteria(text, raw).value;
            && (HasAnyCriteria(c) <==> BuildFilters(c, now) != [])
            && (HasAnyCriteria(c) <==> exists a :: !Matches(BuildFilters(c, now), a))
            && (c.olderThanDays.Some? ==> 1 <= c.olderThanDays.value <= MAX_AGE_DAYS)
  {
    GuardSoundness(NormalizeCriteria(text, raw).value, now);
  }

  /** Which requests are accepted, why the others are not, and what becomes of each field. */
  lemma AcceptedIff(text: Text, raw: RawCriteria)
    ensures var n := NormalizeCriteria(text, raw);
            var decision := text.lower(text.strip(if raw.decision.Some? && raw.decision.value != "" then raw.decision.value else "any"));
            var scope := text.lower(text.strip(if raw.scope.Some? && raw.scope.value != "" then raw.scope.value else "full"));
            var source := if raw.source.Some? && raw.source.value != "" then text.strip(raw.source.value) else text.strip("");
            var code := if raw.eventCode.Some? && raw.eventCode.value != "" then text.upper(text.strip(raw.eventCode.value))
                        else text.upper(text.strip(""));
            var badAge := raw.olderThanDays.Number? && (raw.olderThanDays.days < 0 || raw.olderThanDays.days > 3650);
            && (n == Err(NotWholeDays) <==> raw.olderThanDays.NotANumber?)
            && (n == Err(DaysOutOfRange) <==> badAge)
            && (n == Err(InvalidDecision) <==>
                  !raw.olderThanDays.NotANumber? && !badAge && decision !in {"any", "not_forwarded", "forwarded", "ignored", "error"})
            && (n.Ok? <==> !raw.olderThanDays.NotANumber? && !badAge && scope in {"audio", "full"}
                           && decision in {"any", "not_forwarded", "forwarded", "ignored", "error"})
            && (n.Ok? ==>
                  && (n.value.olderThanDays == None <==> raw.olderThanDays == Missing || raw.olderThanDays == Number(0))
                  && (n.value.olderThanDays.Some? ==> raw.olderThanDays == Number(n.value.olderThanDays.value))
                  && (n.value.source == None <==> source == "") && (source != "" ==> n.value.source == Some(source))
                  && n.value.decision == decision
                  && (n.value.eventCode == None <==> code == "") && (code != "" ==> n.value.eventCode == Some(code))
                  && (n.value.scope.AudioScope? <==> scope == "audio")
                  && n.value.deleteGeneratedMessages == raw.deleteGeneratedMessages)
  {
  }

  /** Accepted criteria are accepted again, unchanged, if the text operations leave clean text as it is. */
  lemma AcceptedCriteriaAreNormal(text: Text, raw: RawCriteria)
    requires forall s :: text.strip(text.strip(s)) == text.strip(s)
    requires forall s :: text.strip(text.upper(text.strip(s))) == text.upper(text.strip(s))
    requires forall s :: text.upper(text.upper(s)) == text.upper(s)
    requires forall s <- ["any", "not_forwarded", "forwarded", "ignored", "error", "audio", "full"] :: text.lower(text.strip(s)) == s
    requires NormalizeCriteria(text, raw).Ok?
    ensures NormalizeCriteria(text, AsRaw(NormalizeCriteria(text, raw).value)) == NormalizeCriteria(text, raw)
  {
    var c := NormalizeCriteria(text, raw).value;
    var known := ["any", "not_forwarded", "forwarded", "ignored", "error", "audio", "full"];
    assert VALID_DECISION_FILTERS + ["audio", "full"] == known;
    assert c.decision in VALID_DECISION_FILTERS + ["audio", "full"];
    assert ScopeName(c.scope) in known;
  }

  /** The saved settings of the automatic purge. */
  datatype Settings = Settings(
    enabled: bool,
    maxAgeDays: int,
    sourceFilter: Option<string>,
    decisionFilter: Option<string>,
    scope: Option<Scope>,
    deleteGeneratedMessages: bool)

  function SettingsToCriteria(s: Settings): Criteria {
    Criteria(
      if s.maxAgeDays != 0 then Some(s.maxAgeDays) else None,
      if Present(s.sourceFilter) then s.sourceFilter else None,
      OrElse(s.decisionFilter, DECISION_ANY),
      None,
      if s.scope.Some? then s.scope.value else FullScope,
      s.deleteGeneratedMessages)
  }

  /** The alerts an automatic purge selects. */
  predicate Selected(s: Settings, now: int, a: Alert) {
    && (s.maxAgeDays != 0 ==> a.receivedAt + s.maxAgeDays * DAY < now)
    && (s.sourceFilter in {None, Some("")} || Some(a.sourceName) == s.sourceFilter || a.alertSource == s.sourceFilter)
    && (s.decisionFilter == Some("not_forwarded") ==> a.decision != "forwarded")
    && (s.decisionFilter in {Some("forwarded"), Some("ignored"), Some("error")} ==> a.decision == s.decisionFilter.value)
  }

  lemma SettingsMeanSelection(s: Settings, now: int, a: Alert)
    ensures Matches(BuildFilters(SettingsToCriteria(s), now), a) <==> Selected(s, now, a)
  {
    hide Matches, BuildFilters;
    FiltersMeanCriteria(SettingsToCriteria(s), now, a);
  }

  /** With an age criterion, a row received at the cutoff or later is never touched. */
  lemma NewRowsNeverMatch(c: Criteria, now: int, a: Alert)
    requires AgePresent(c) && a.receivedAt >= Cutoff(c, now)
    ensures !Matches(PurgeFilters(c, now), a)
  {
    assert PurgeFilters(c, now)[0] == ReceivedBefore(Cutoff(c, now));
    assert ReceivedBefore(Cutoff(c, now)) in PurgeFilters(c, now);
  }

  // ---------------------------------------------------------------------------
  // One-shot meaning of a purge
  // ---------------------------------------------------------------------------

  function Matching(t: Table, fs: seq<Filter>): (ids: set<int>)
    ensures ids <= t.Keys
  {
    set id | id in t && Matches(fs, t[id])
  }

  function Without<V>(m: map<int, V>, ids: set<int>): map<int, V> {
    map id | id in m && id !in ids :: m[id]
  }

  /** One step of the deletion loop, whether or not the message still exists. */
  lemma OneMoreMessage(all: Messages, mids: set<int>, rest: set<int>, mid: int)
    requires rest <= mids && mid in rest
    ensures mid in Without(all, mids - rest) <==> mid in all
    ensures Without(all, mids - (rest - {mid}))
         == if mid in all then Without(Without(all, mids - rest), {mid}) else Without(all, mids - rest)
    ensures |rest * all.Keys| == |(rest - {mid}) * all.Keys| + if mid in all then 1 else 0
  {
    if mid in all {
      assert rest * all.Keys == (rest - {mid}) * all.Keys + {mid};
    } else {
      assert rest * all.Keys == (rest - {mid}) * all.Keys;
    }
  }

  lemma UnionAssociates<V>(a: map<int, V>, b: map<int, V>, c: map<int, V>)
    ensures (a + b) + c == a + (b + c)
  {
  }

  function Stripped(t: Table, ids: set<int>): Table {
    map id | id in t :: if id in ids then t[id].(audio := None) else t[id]
  }

  /** The messages that the rows `ids` of `t` produced. */
  function References(t: Table, ids: set<int>): set<int> {
    set id | id in ids && id in t && t[id].messageId.Some? :: t[id].messageId.value
  }

  function AudioSize(a: Alert): nat { if a.audio.Some? then |a.audio.value| else 0 }

  /** Total stored-audio bytes of the rows `ids`. */
  ghost function Bytes(t: Table, ids: set<int>): nat
    requires ids <= t.Keys
  {
    if ids == {} then 0 else
      Inhabited(ids);
      var id :| id in ids;
      AudioSize(t[id]) + Bytes(t, ids - {id})
  }

  lemma {:induction false} BytesRemove(t: Table, ids: set<int>, id: int)
    requires ids <= t.Keys && id in ids
    ensures Bytes(t, ids) == AudioSize(t[id]) + Bytes(t, ids - {id})
  {
    var first :| first in ids && Bytes(t, ids) == AudioSize(t[first]) + Bytes(t, ids - {first});
    if first != id {
      BytesRemove(t, ids - {first}, id);
      BytesRemove(t, ids - {id}, first);
      assert ids - {first} - {id} == ids - {id} - {first};
    }
  }

  /** One row counts with the length of its blob; with BytesUnion this determines every total. */
  lemma BytesOfOne(t: Table, id: int)
    requires id in t
    ensures Bytes(t, {}) == 0 && Bytes(t, {id}) == match t[id].audio case Some(blob) => |blob| case None => 0
  {
    BytesRemove(t, {id}, id);
    assert {id} - {id} == {};
  }

  lemma {:induction false} BytesUnion(t: Table, a: set<int>, b: set<int>)
    requires a <= t.Keys && b <= t.Keys && a !! b
    ensures Bytes(t, a + b) == Bytes(t, a) + Bytes(t, b)
  {
    if a == {} {
      assert a + b == b;
    } else {
      Inhabited(a);
      var id :| id in a;
      BytesRemove(t, a, id);
      BytesRemove(t, a + b, id);
      BytesUnion(t, a - {id}, b);
      assert a + b - {id} == (a - {id}) + b;
    }
  }

  lemma {:induction false} BytesFrame(t: Table, u: Table, ids: set<int>)
    requires ids <= t.Keys && ids <= u.Keys
    requires forall id <- ids :: t[id] == u[id]
    ensures Bytes(t, ids) == Bytes(u, ids)
  {
    if ids != {} {
      Inhabited(ids);
      var id :| id in ids;
      BytesRemove(t, ids, id);
      BytesRemove(u, ids, id);
      BytesFrame(t, u, ids - {id});
    }
  }

  /** Rows without a blob add nothing, so freed bytes may be summed over either set of rows. */
  lemma {:induction false} BytesOnlyFromBlobs(t: Table, ids: set<int>)
    requires ids <= t.Keys
    ensures Bytes(t, ids) == Bytes(t, set id | id in ids && t[id].audio.Some?)
  {
    if ids != {} {
      Inhabited(ids);
      var id :| id in ids;
      BytesRemove(t, ids, id);
      BytesOnlyFromBlobs(t, ids - {id});
      var blobs := set i | i in ids && t[i].audio.Some?;
      var rest := set i | i in ids - {id} && t[i].audio.Some?;
      if t[id].audio.Some? {
        BytesRemove(t, blobs, id);
        assert blobs - {id} == rest;
      } else {
        assert blobs == rest;
      }
    }
  }

  /** Audio scope touches exactly the blobs that full scope would free. */
  lemma BlobsOnly(t: Table, fs: seq<Filter>)
    ensures Bytes(t, Matching(t, fs + [HasAudio])) == Bytes(t, Matching(t, fs))
  {
    BytesOnlyFromBlobs(t, Matching(t, fs));
    assert Matching(t, fs + [HasAudio]) == set id | id in Matching(t, fs) && t[id].audio.Some? by {
      forall a ensures Matches(fs + [HasAudio], a) <==> Matches(fs, a) && a.audio.Some? {
        WithAudio(fs, a);
      }
    }
  }

  lemma WithAudio(fs: seq<Filter>, a: Alert)
    ensures Matches(fs + [HasAudio], a) <==> Matches(fs, a) && a.audio.Some?
  {
    assert HasAudio in fs + [HasAudio];
    assert forall f :: f in fs + [HasAudio] <==> f in fs || f == HasAudio;
  }

  // ---------------------------------------------------------------------------
  // Other sessions
  // ---------------------------------------------------------------------------

  /** What other sessions insert after the k-th committed batch. */
  datatype Arrivals = Arrivals(alerts: Table, messages: Messages)

  type Environment = nat -> Arrivals

  function Arrived(env: Environment, k: nat): Arrivals {
    if k == 0 then Arrivals(map[], map[]) else
      var before := Arrived(env, k - 1);
      Arrivals(before.alerts + env(k - 1).alerts, before.messages + env(k - 1).messages)
  }

  /** Inserted rows have new keys and do not themselves match the purge. */
  ghost predicate Quiet(env: Environment, fs: seq<Filter>, t: Table) {
    && (forall k: nat, id | id in env(k).alerts :: id !in t && !Matches(fs, env(k).alerts[id]))
    && (forall j: nat, k: nat | j < k :: env(j).alerts.Keys !! env(k).alerts.Keys)
  }

  /** With an age criterion, alerts that come in while the purge runs are no concern of it. */
  lemma FreshInsertsAreQuiet(c: Criteria, now: int, env: Environment, t: Table)
    requires AgePresent(c)
    requires forall k: nat, id | id in env(k).alerts ::
               id !in t && env(k).alerts[id].receivedAt >= now - c.olderThanDays.value * 86_400_000_000
    requires forall j: nat, k: nat | j < k :: env(j).alerts.Keys !! env(k).alerts.Keys
    ensures Quiet(env, PurgeFilters(c, now), t)
  {
    var fs, cutoff := PurgeFilters(c, now), now - c.olderThanDays.value * 86_400_000_000;
    assert cutoff == Cutoff(c, now);
    forall k: nat, id | id in env(k).alerts ensures !Matches(fs, env(k).alerts[id]) {
      var a := env(k).alerts[id];
      assert id !in t;
      assert a.receivedAt >= now - c.olderThanDays.value * 86_400_000_000;
      hide PurgeFilters, Matches;
      NewRowsNeverMatch(c, now, env(k).alerts[id]);
    }
    hide PurgeFilters, Matches;
    NoneMatches(env, fs, t);
  }

  lemma NoneMatches(env: Environment, fs: seq<Filter>, t: Table)
    requires forall k: nat, id | id in env(k).alerts :: id !in t
    requires forall k: nat, id | id in env(k).alerts :: !Matches(fs, env(k).alerts[id])
    requires forall j: nat, k: nat | j < k :: env(j).alerts.Keys !! env(k).alerts.Keys
    ensures Quiet(env, fs, t)
  {
    hide Matches;
  }

  lemma {:induction false} ArrivedQuiet(env: Environment, fs: seq<Filter>, t: Table, k: nat)
    requires Quiet(env, fs, t)
    ensures Arrived(env, k).alerts.Keys !! t.Keys
    ensures forall j: nat | k <= j :: Arrived(env, k).alerts.Keys !! env(j).alerts.Keys
    ensures Matching(Arrived(env, k).alerts, fs) == {}
  {
    if k > 0 {
      ArrivedQuiet(env, fs, t, k - 1);
      var before, last := Arrived(env, k - 1).alerts, env(k - 1).alerts;
      assert Arrived(env, k).alerts == before + last;
      forall id | id in before + last ensures id !in t && !Matches(fs, (before + last)[id]) {
        assert id !in Matching(before, fs);
      }
    }
  }

  /** What has come in after `k` batches is what was inserted after each of them. */
  lemma {:induction false} ArrivedIffInserted(env: Environment, k: nat)
    requires forall i: nat, j: nat | i < j :: env(i).alerts.Keys !! env(j).alerts.Keys
    ensures forall j: nat, id | j < k && id in env(j).alerts ::
              id in Arrived(env, k).alerts && Arrived(env, k).alerts[id] == env(j).alerts[id]
    ensures forall id <- Arrived(env, k).alerts :: exists j: nat :: j < k && id in env(j).alerts
    ensures forall m :: m in Arrived(env, k).messages <==> exists j: nat :: j < k && m in env(j).messages
  {
    if k > 0 {
      ArrivedIffInserted(env, k - 1);
      assert Arrived(env, k).alerts == Arrived(env, k - 1).alerts + env(k - 1).alerts;
    }
  }

  // ---------------------------------------------------------------------------
  // Progress after each committed batch
  // ---------------------------------------------------------------------------

  /** The table once the rows `gone` of `t` have been purged and `arrived` has come in. */
  function Purged(scope: Scope, t: Table, gone: set<int>, arrived: Table): Table {
    (if scope.AudioScope? then Stripped(t, gone) else Without(t, gone)) + arrived
  }

  /** `batches` batches have purged `done` rows and `left` remain: only the last may be short. */
  predicate FullBatches(batches: nat, done: nat, left: nat) {
    && done <= PURGE_BATCH_SIZE * batches
    && (left > 0 ==> done == PURGE_BATCH_SIZE * batches)
    && (batches > 0 ==> PURGE_BATCH_SIZE * (batches - 1) < done)
  }

  /** Counters `s` account exactly for the purge of the rows `gone` out of `todo`. */
  ghost predicate Accounts(scope: Scope, t: Table, todo: set<int>, gone: set<int>, s: Summary)
    requires todo <= t.Keys
  {
    && gone <= todo
    && s.rowsDeleted == (if scope.FullScope? then |gone| else 0)
    && s.audioStripped == (if scope.AudioScope? then |gone| else 0)
    && s.audioBytesFreed == Bytes(t, gone)
    && s.messagesDeleted == 0
    && FullBatches(s.batches, |gone|, |todo - gone|)
  }

  /** A committed point of a purge of `t`: the durable table and the counters agree. */
  ghost predicate Progress(scope: Scope, t: Table, fs: seq<Filter>, env: Environment, gone: set<int>, now: Table, s: Summary)
  {
    && Accounts(scope, t, Matching(t, fs), gone, s)
    && now == Purged(scope, t, gone, Arrived(env, s.batches).alerts)
  }

  /** Rows that still match after some have been purged. */
  lemma StillMatching(scope: Scope, t: Table, fs: seq<Filter>, gone: set<int>, arrived: Table)
    requires arrived.Keys !! t.Keys && Matching(arrived, fs) == {}
    requires gone <= Matching(t, fs)
    requires scope.AudioScope? ==> HasAudio in fs
    ensures Matching(Purged(scope, t, gone, arrived), fs) == Matching(t, fs) - gone
  {
    var u := Purged(scope, t, gone, arrived);
    forall id ensures id in Matching(u, fs) <==> id in Matching(t, fs) - gone {
      if id in arrived {
        assert id !in Matching(arrived, fs);
      } else if id in gone && scope.AudioScope? {
        assert !Holds(HasAudio, u[id]);
      }
    }
  }

  /** One more committed batch keeps the accounts exact. */
  lemma BatchAccounts(scope: Scope, t: Table, todo: set<int>, gone: set<int>, batch: set<int>, s: Summary, s': Summary)
    requires todo <= t.Keys
    requires Accounts(scope, t, todo, gone, s)
    requires batch <= todo - gone
    requires |batch| == Min(PURGE_BATCH_SIZE, |todo - gone|) && batch != {}
    requires s' == Tally(scope, s, |batch|, Bytes(t, batch))
    ensures Accounts(scope, t, todo, gone + batch, s')
    ensures |todo - (gone + batch)| < |todo - gone|
  {
    BytesUnion(t, gone, batch);
    assert |gone + batch| == |gone| + |batch|;
    assert todo - (gone + batch) == (todo - gone) - batch;
    assert |(todo - gone) - batch| == |todo - gone| - |batch|;
  }

  /** The counters after a committed batch of `rows` rows. */
  function Tally(scope: Scope, s: Summary, rows: nat, bytes: nat): Summary {
    var s1 := s.(audioBytesFreed := s.audioBytesFreed + bytes, batches := s.batches + 1);
    if scope.AudioScope? then s1.(audioStripped := s.audioStripped + rows)
    else s1.(rowsDeleted := s.rowsDeleted + rows)
  }

  lemma CeilingOfBatches(batches: nat, done: nat)
    requires FullBatches(batches, done, 0)
    requires batches == 0 <==> done == 0
    ensures batches == (done + PURGE_BATCH_SIZE - 1) / PURGE_BATCH_SIZE
  {
  }

  // ---------------------------------------------------------------------------
  // Messages
  // ---------------------------------------------------------------------------

  /** Candidates that no row of `t` refers to any more. */
  function Orphans(candidates: set<int>, t: Table): set<int> {
    candidates - References(t, t.Keys)
  }

  lemma Unreferenced(candidates: set<int>, t: Table)
    ensures forall m :: m in Orphans(candidates, t) <==> m in candidates && forall id <- t :: t[id].messageId != Some(m)
  {
    forall m ensures m in Orphans(candidates, t) <==> m in candidates && forall id <- t :: t[id].messageId != Some(m) {
      OneReference(t, t.Keys, m);
    }
  }

  /** Every row's message exists. */
  ghost predicate Intact(t: Table, messages: Messages) {
    References(t, t.Keys) <= messages.Keys
  }

  /** Dropping rows and then their orphaned messages leaves no dangling reference. */
  lemma PurgeKeepsReferences(scope: Scope, t: Table, messages: Messages, gone: set<int>, arrived: Arrivals, candidates: set<int>)
    requires Intact(t, messages)
    requires Intact(arrived.alerts, messages + arrived.messages)
    ensures var t' := Purged(scope, t, gone, arrived.alerts);
            Intact(t', Without(messages + arrived.messages, Orphans(candidates, t')))
  {
    var t' := Purged(scope, t, gone, arrived.alerts);
    forall m | m in References(t', t'.Keys)
      ensures m in messages + arrived.messages
    {
      var id :| id in t' && t'[id].messageId == Some(m);
      if id in arrived.alerts {
        assert m in References(arrived.alerts, arrived.alerts.Keys);
      } else {
        assert t[id].messageId == Some(m);
        assert m in References(t, t.Keys);
      }
    }
  }

  lemma KeepsIntact(scope: Scope, t: Table, messages: Messages, gone: set<int>, arrived: Arrivals, candidates: set<int>)
    ensures Intact(t, messages) && Intact(arrived.alerts, messages + arrived.messages) ==>
              var t' := Purged(scope, t, gone, arrived.alerts);
              Intact(t', Without(messages + arrived.messages, Orphans(candidates, t')))
  {
    hide Intact;
    if Intact(t, messages) && Intact(arrived.alerts, messages + arrived.messages) {
      PurgeKeepsReferences(scope, t, messages, gone, arrived, candidates);
    }
  }

  // ---------------------------------------------------------------------------
  // The database session
  // ---------------------------------------------------------------------------

  /** A committed state, as another session would see it. */
  datatype Commit = Commit(alerts: Table, summary: Summary)

  datatype PurgeError = NoCriteria

  /** What an automatic purge saves beside its settings. */
  datatype LastRun = LastRun(at: int, summary: Summary)

  class AlertStore {
    var alerts: Table
    var messages: Messages

    constructor (alerts: Table, messages: Messages)
      ensures this.alerts == alerts && this.messages == messages
    {
      this.alerts, this.messages := alerts, messages;
    }

    /** `LIMIT` without an order: any matching rows may come back, but never too few. */
    method SelectBatch(fs: seq<Filter>) returns (batch: set<int>)
      ensures batch <= Matching(alerts, fs)
      ensures |batch| == Min(PURGE_BATCH_SIZE, |Matching(alerts, fs)|)
    {
      var rest := Matching(alerts, fs);
      batch := {};
      while rest != {} && |batch| < PURGE_BATCH_SIZE
        invariant batch !! rest && batch + rest == Matching(alerts, fs)
        invariant |batch| <= PURGE_BATCH_SIZE
        decreases rest
      {
        Inhabited(rest);
        var id :| id in rest;
        batch, rest := batch + {id}, rest - {id};
      }
      assert |batch + rest| == |batch| + |rest|;
    }

    method SumAudioBytes(ids: set<int>) returns (total: nat)
      requires ids <= alerts.Keys
      ensures total == Bytes(alerts, ids)
    {
      total := 0;
      var rest := ids;
      while rest != {}
        invariant rest <= ids
        invariant total + Bytes(alerts, rest) == Bytes(alerts, ids)
        decreases rest
      {
        Inhabited(rest);
        var id :| id in rest;
        BytesRemove(alerts, rest, id);
        total, rest := total + AudioSize(alerts[id]), rest - {id};
      }
    }

    /** What a purge with these criteria would report, in full scope and in audio scope. */
    method PreviewPurge(c: Criteria, now: int) returns (p: Preview)
      ensures var full := Matching(alerts, PurgeFilters(c.(scope := FullScope), now));
              var audio := Matching(alerts, PurgeFilters(c.(scope := AudioScope), now));
              && p.matchingCount == |full| && p.audioCount == |audio|
              && p.audioBytes == Bytes(alerts, full) == Bytes(alerts, audio)
      ensures p.matchingCount == |set id | id in alerts && Matches(BuildFilters(c, now), alerts[id])|
      ensures p.audioCount == |set id | id in alerts && Matches(BuildFilters(c, now), alerts[id]) && alerts[id].audio.Some?|
    {
      hide Matches;
      var fs := BuildFilters(c, now);
      var matching := Matching(alerts, fs);
      var withAudio := Matching(alerts, fs + [HasAudio]);
      var bytes := SumAudioBytes(matching);
      p := Preview(|matching|, |withAudio|, bytes);
      BlobsOnly(alerts, fs);
      assert fs + [] == fs;
      forall a ensures Matches(fs + [HasAudio], a) <==> Matches(fs, a) && a.audio.Some? {
        WithAudio(fs, a);
      }
      assert matching == set id | id in alerts && Matches(fs, alerts[id]);
      assert withAudio == set id | id in alerts && Matches(fs, alerts[id]) && alerts[id].audio.Some?;
    }

    /** One transaction of the loop. */
    method PurgeBatch(scope: Scope, batch: set<int>, collect: bool, s: Summary, ids: set<int>)
      returns (s': Summary, ids': set<int>)
      requires batch <= alerts.Keys
      modifies this`alerts
      ensures alerts == Purged(scope, old(alerts), batch, map[])
      ensures s' == Tally(scope, s, |batch|, Bytes(old(alerts), batch))
      ensures ids' == if collect then References(old(alerts), batch) + ids else ids
    {
      var bytes := SumAudioBytes(batch);
      ids' := if collect then References(alerts, batch) + ids else ids;
      alerts := if scope.AudioScope? then Stripped(alerts, batch) else Without(alerts, batch);
      s' := Tally(scope, s, |batch|, bytes);
    }

    method DeleteOrphanedMessages(ids: set<int>) returns (deleted: nat)
      modifies this`messages
      ensures messages == Without(old(messages), Orphans(ids, alerts))
      ensures deleted == |Orphans(ids, alerts) * old(messages).Keys|
      ensures forall m <- messages :: m in old(messages) && messages[m] == old(messages)[m]
      ensures forall m <- old(messages) :: m !in messages <==> m in ids && forall id <- alerts :: alerts[id].messageId != Some(m)
      ensures deleted == |old(messages).Keys - messages.Keys|
    {
      ghost var before := messages;
      deleted := DeleteMessages(Orphans(ids, alerts));
      Unreferenced(ids, alerts);
      assert Orphans(ids, alerts) * before.Keys == before.Keys - messages.Keys;
    }

    /** The deletion loop: a candidate whose message is already gone is skipped and not counted. */
    method DeleteMessages(mids: set<int>) returns (deleted: nat)
      modifies this`messages
      ensures messages == Without(old(messages), mids)
      ensures deleted == |mids * old(messages).Keys|
    {
      ghost var all := messages;
      deleted := 0;
      var rest := mids;
      while rest != {}
        invariant rest <= mids
        invariant messages == Without(all, mids - rest)
        invariant deleted + |rest * all.Keys| == |mids * all.Keys|
        decreases rest
      {
        Inhabited(rest);
        var mid :| mid in rest;
        OneMoreMessage(all, mids, rest, mid);
        rest := rest - {mid};
        if mid in messages {
          messages := Without(messages, {mid});
          deleted := deleted + 1;
        }
      }
      assert mids - rest == mids;
    }

    /** Rows that other sessions insert between two batches. */
    method Receive(arrivals: Arrivals)
      modifies this
      ensures alerts == old(alerts) + arrivals.alerts && messages == old(messages) + arrivals.messages
    {
      alerts, messages := alerts + arrivals.alerts, messages + arrivals.messages;
    }

    /**
     The whole purge. Whatever rows each batch happens to pick and whatever other sessions insert in
     between, exactly the rows that matched at the start are purged; every committed point in
     `commits` is exactly accounted for; the totals are those that PreviewPurge reports; and the
     messages deleted are exactly the existing ones referenced by some purged row and by no surviving
     row. If no row pointed at a missing message before, and none of those inserted does, none does after.
     */
    method ExecutePurge(c: Criteria, now: int, requireCriteria: bool, env: Environment)
      returns (r: Result<Summary, PurgeError>, ghost commits: seq<Commit>)
      requires Quiet(env, PurgeFilters(c, now), alerts)
      modifies this
      ensures r.Err? <==>
                && requireCriteria
                && (c.olderThanDays == None || c.olderThanDays == Some(0)) && (c.source == None || c.source == Some(""))
                && (c.decision == "" || c.decision == "any") && (c.eventCode == None || c.eventCode == Some(""))
      ensures r.Err? ==> alerts == old(alerts) && messages == old(messages)
      ensures r.Ok? ==>
                var todo := Matching(old(alerts), PurgeFilters(c, now));
                var s := r.value;
                && alerts == Purged(c.scope, old(alerts), todo, Arrived(env, s.batches).alerts)
                && s.rowsDeleted == (if c.scope.FullScope? then |todo| else 0)
                && s.audioStripped == (if c.scope.AudioScope? then |todo| else 0)
                && s.audioBytesFreed == Bytes(old(alerts), todo)
                && s.batches == (|todo| + 199) / 200
      ensures r.Ok? ==> |commits| == r.value.batches
                        && Recorded(c.scope, old(alerts), PurgeFilters(c, now), env, commits)
      ensures r.Ok? ==>
                var todo := Matching(old(alerts), PurgeFilters(c, now));
                var orphans := if c.deleteGeneratedMessages && c.scope.FullScope?
                               then Orphans(References(old(alerts), todo), alerts) else {};
                var before := old(messages) + Arrived(env, r.value.batches).messages;
                && messages == Without(before, orphans)
                && r.value.messagesDeleted == |orphans * before.Keys|
      ensures r.Ok? && Intact(old(alerts), old(messages))
              && Intact(Arrived(env, r.value.batches).alerts, old(messages) + Arrived(env, r.value.batches).messages)
              ==> Intact(alerts, messages)
      // Row by row
      ensures r.Ok? ==> forall id <- old(alerts) ::
                var a := old(alerts)[id];
                if c.scope.FullScope?
                then if Matches(BuildFilters(c, now), a) then id !in alerts else id in alerts && alerts[id] == a
                else id in alerts && alerts[id] == if Matches(BuildFilters(c, now), a) then a.(audio := None) else a
      ensures r.Ok? ==> && r.value.rowsDeleted == |old(alerts).Keys - alerts.Keys|
                        && r.value.audioStripped == |Changed(old(alerts), alerts)|
      // Message by message
      ensures r.Ok? ==>
                var before := old(messages) + Arrived(env, r.value.batches).messages;
                && (forall m <- messages :: m in before && messages[m] == before[m])
                && (forall id <- alerts | alerts[id].messageId.Some? && alerts[id].messageId.value in before ::
                      alerts[id].messageId.value in messages)
                && (forall m <- before | m !in messages ::
                      && c.deleteGeneratedMessages && c.scope.FullScope?
                      && exists id <- old(alerts) :: id !in alerts && old(alerts)[id].messageId == Some(m))
                && (c.deleteGeneratedMessages && c.scope.FullScope? ==>
                      forall id <- old(alerts) | id !in alerts && old(alerts)[id].messageId.Some? && old(alerts)[id].messageId.value in messages ::
                        exists k <- alerts :: alerts[k].messageId == old(alerts)[id].messageId)
                && r.value.messagesDeleted == |before.Keys - messages.Keys|
    {
      if requireCriteria && !HasAnyCriteria(c) {
        return Err(NoCriteria), [];
      }
      hide Matching, Matches, BuildFilters, PurgeFilters, References, Purged, Arrived, Quiet, Recorded, Orphans, Without, Intact, HasAnyCriteria,
           Changed, Bytes, Orphaned;
      ghost var start, startMessages := alerts, messages;
      var s;
      s, commits := PurgeAll(c, now, env);
      r := Ok(s);
      ghost var arrived, collect := Arrived(env, s.batches), c.deleteGeneratedMessages && c.scope.FullScope?;
      ghost var fs := PurgeFilters(c, now);
      ArrivedQuiet(env, fs, start, s.batches);
      KeepsIntact(c.scope, start, startMessages, Matching(start, fs), arrived,
                  if collect then References(start, Matching(start, fs)) else {});
      NothingToDelete(startMessages + arrived.messages, alerts);
      RowByRow(c, now, start, arrived.alerts);
      OrphansOneByOne(c, now, start, arrived.alerts, alerts, startMessages + arrived.messages, messages, s.messagesDeleted);
      OrphansEachWay(collect, start, alerts, startMessages + arrived.messages, messages);
    }

    /** The batches and then the orphan pass. */
    method PurgeAll(c: Criteria, now: int, env: Environment) returns (s: Summary, ghost commits: seq<Commit>)
      requires Quiet(env, PurgeFilters(c, now), alerts)
      modifies this
      ensures var todo := Matching(old(alerts), PurgeFilters(c, now));
              && alerts == Purged(c.scope, old(alerts), todo, Arrived(env, s.batches).alerts)
              && s.rowsDeleted == (if c.scope.FullScope? then |todo| else 0)
              && s.audioStripped == (if c.scope.AudioScope? then |todo| else 0)
              && s.audioBytesFreed == Bytes(old(alerts), todo)
              && s.batches == (|todo| + PURGE_BATCH_SIZE - 1) / PURGE_BATCH_SIZE
      ensures |commits| == s.batches && Recorded(c.scope, old(alerts), PurgeFilters(c, now), env, commits)
      ensures var todo := Matching(old(alerts), PurgeFilters(c, now));
              var orphans := if c.deleteGeneratedMessages && c.scope.FullScope?
                             then Orphans(References(old(alerts), todo), alerts) else {};
              var before := old(messages) + Arrived(env, s.batches).messages;
              messages == Without(before, orphans) && s.messagesDeleted == |orphans * before.Keys|
    {
      hide Matching, Matches, BuildFilters, PurgeFilters, References, Purged, Arrived, Quiet, Recorded, Orphans, Without, Progress;
      AudioOnly(c, now);
      var collect := c.deleteGeneratedMessages && c.scope.FullScope?;
      var fs := PurgeFilters(c, now);
      ghost var start := alerts;
      var messageIds;
      s, messageIds, commits := PurgeLoop(c.scope, fs, collect, env);
      Finished(c.scope, start, fs, env, alerts, s);
      if messageIds != {} {
        var deleted := DeleteOrphanedMessages(messageIds);
        s := s.(messagesDeleted := deleted);
      } else {
        NothingToDelete(messages, alerts);
      }
    }

    /**
     One cycle of the automatic purge, while new alerts keep coming in. It is skipped, changing nothing,
     exactly if it is switched off or set to keep alerts for ever; otherwise it is never refused, and
     every alert younger than the configured age is there afterwards, unchanged.
     */
    method RunAutoPurge(settings: Settings, now: int, env: Environment)
      returns (r: Option<LastRun>, ghost commits: seq<Commit>)
      requires settings.maxAgeDays != 0 ==>
                 forall k: nat, id | id in env(k).alerts ::
                   id !in alerts && env(k).alerts[id].receivedAt >= now - settings.maxAgeDays * 86_400_000_000
      requires forall j: nat, k: nat | j < k :: env(j).alerts.Keys !! env(k).alerts.Keys
      modifies this
      ensures r.None? <==> !settings.enabled || settings.maxAgeDays == 0
      ensures r.None? ==> alerts == old(alerts) && messages == old(messages)
      ensures r.Some? ==>
                var c, s := SettingsToCriteria(settings), r.value.summary;
                var todo := Matching(old(alerts), PurgeFilters(c, now));
                var orphans := if c.deleteGeneratedMessages && c.scope.FullScope?
                               then Orphans(References(old(alerts), todo), alerts) else {};
                && r.value.at == now
                && alerts == Purged(c.scope, old(alerts), todo, Arrived(env, s.batches).alerts)
                && messages == Without(old(messages) + Arrived(env, s.batches).messages, orphans)
                && s.rowsDeleted + s.audioStripped == |todo| && s.audioBytesFreed == Bytes(old(alerts), todo)
      // Row by row and message by message, in terms of the settings
      ensures r.Some? ==> forall id <- old(alerts) ::
                var a := old(alerts)[id];
                var hit := && a.receivedAt + settings.maxAgeDays * 86_400_000_000 < now
                           && (settings.sourceFilter in {None, Some("")}
                               || Some(a.sourceName) == settings.sourceFilter || a.alertSource == settings.sourceFilter)
                           && (settings.decisionFilter == Some("not_forwarded") ==> a.decision != "forwarded")
                           && (settings.decisionFilter in {Some("forwarded"), Some("ignored"), Some("error")} ==>
                                 a.decision == settings.decisionFilter.value);
                if settings.scope == Some(AudioScope)
                then id in alerts && alerts[id] == if hit then a.(audio := None) else a
                else if hit then id !in alerts else id in alerts && alerts[id] == a
      ensures r.Some? ==>
                var before := old(messages) + Arrived(env, r.value.summary.batches).messages;
                && (forall id <- alerts | alerts[id].messageId.Some? && alerts[id].messageId.value in before ::
                      alerts[id].messageId.value in messages)
                && (forall m <- before | m !in messages ::
                      && settings.deleteGeneratedMessages && settings.scope != Some(AudioScope)
                      && exists id <- old(alerts) :: id !in alerts && old(alerts)[id].messageId == Some(m))
                && (settings.deleteGeneratedMessages && settings.scope != Some(AudioScope) ==>
                      forall id <- old(alerts) | id !in alerts && old(alerts)[id].messageId.Some? && old(alerts)[id].messageId.value in messages ::
                        exists k <- alerts :: alerts[k].messageId == old(alerts)[id].messageId)
                && r.value.summary.messagesDeleted == |before.Keys - messages.Keys|
      ensures forall id <- old(alerts) | old(alerts)[id].receivedAt >= now - settings.maxAgeDays * DAY ::
                id in alerts && alerts[id] == old(alerts)[id]
    {
      hide Matching, Matches, PurgeFilters, BuildFilters, Purged, Arrived, Quiet, Recorded, Orphans, References, Without, Intact;
      if !settings.enabled || settings.maxAgeDays == 0 {
        return None, [];
      }
      var c := SettingsToCriteria(settings);
      FreshInsertsAreQuiet(c, now, env, alerts);
      ghost var start := alerts;
      var result;
      result, commits := ExecutePurge(c, now, true, env);
      r := Some(LastRun(now, result.value));
      forall a ensures Matches(BuildFilters(c, now), a) <==> Selected(settings, now, a) {
        SettingsMeanSelection(settings, now, a);
      }
      ArrivedQuiet(env, PurgeFilters(c, now), start, result.value.batches);
      RecentAlertsSurvive(c, now, start, Arrived(env, result.value.batches).alerts);
    }

    /** The batch loop, up to the point where nothing matches any more. */
    method PurgeLoop(scope: Scope, fs: seq<Filter>, collect: bool, env: Environment)
      returns (s: Summary, messageIds: set<int>, ghost commits: seq<Commit>)
      requires Quiet(env, fs, alerts)
      requires scope.AudioScope? ==> HasAudio in fs
      modifies this
      ensures Progress(scope, old(alerts), fs, env, Matching(old(alerts), fs), alerts, s)
      ensures messages == old(messages) + Arrived(env, s.batches).messages
      ensures messageIds == if collect then References(old(alerts), Matching(old(alerts), fs)) else {}
      ensures Recorded(scope, old(alerts), fs, env, commits) && |commits| == s.batches
    {
      hide Matching, References, Purged, Quiet, Arrived, Progress, Recorded;
      ghost var start, startMessages := alerts, messages;
      ghost var gone: set<int> := {};
      s, messageIds, commits := Summary(0, 0, 0, 0, 0), {}, [];
      NothingYet(scope, start, fs, env);
      var batch := SelectBatch(fs);
      while batch != {}
        invariant Progress(scope, start, fs, env, gone, alerts, s)
        invariant batch <= Matching(alerts, fs) && |batch| == Min(PURGE_BATCH_SIZE, |Matching(alerts, fs)|)
        invariant messages == startMessages + Arrived(env, s.batches).messages
        invariant messageIds == if collect then References(start, gone) else {}
        invariant |commits| == s.batches && Recorded(scope, start, fs, env, commits)
        decreases |Matching(alerts, fs)|
      {
        ghost var before, s0 := alerts, s;
        s, messageIds := PurgeBatch(scope, batch, collect, s, messageIds);
        Receive(env(s.batches - 1));
        BatchStep(scope, start, fs, env, gone, batch, before, alerts, s0, s);
        NextMessages(startMessages, env, s0.batches);
        gone := gone + batch;
        RecordedGrows(scope, start, fs, env, commits, gone, Commit(alerts, s));
        commits := commits + [Commit(alerts, s)];
        batch := SelectBatch(fs);
      }
      NoneLeft(scope, start, fs, env, gone, alerts, s);
    }
  }

  /** The totals once everything that matched is gone. */
  lemma Finished(scope: Scope, t: Table, fs: seq<Filter>, env: Environment, now: Table, s: Summary)
    requires Progress(scope, t, fs, env, Matching(t, fs), now, s)
    ensures var todo := Matching(t, fs);
            && now == Purged(scope, t, todo, Arrived(env, s.batches).alerts)
            && s.rowsDeleted == (if scope.FullScope? then |todo| else 0)
            && s.audioStripped == (if scope.AudioScope? then |todo| else 0)
            && s.audioBytesFreed == Bytes(t, todo) && s.messagesDeleted == 0
            && s.batches == (|todo| + PURGE_BATCH_SIZE - 1) / PURGE_BATCH_SIZE
  {
    var todo := Matching(t, fs);
    assert todo - todo == {};
    CeilingOfBatches(s.batches, |todo|);
  }

  /** The rows that are there before and after, with something changed. */
  function Changed(t: Table, u: Table): set<int> { set id | id in t && id in u && u[id] != t[id] }

  lemma AudioOnly(c: Criteria, now: int)
    ensures c.scope.AudioScope? ==> HasAudio in PurgeFilters(c, now)
  {
  }

  /** What a purge does to each row, and how many it changes. */
  lemma RowByRow(c: Criteria, now: int, t: Table, arrived: Table)
    requires arrived.Keys !! t.Keys
    ensures var todo := Matching(t, PurgeFilters(c, now));
            var u := Purged(c.scope, t, todo, arrived);
            && (forall id <- t ::
                  if c.scope.FullScope?
                  then if Matches(BuildFilters(c, now), t[id]) then id !in u else id in u && u[id] == t[id]
                  else id in u && u[id] == if Matches(BuildFilters(c, now), t[id]) then t[id].(audio := None) else t[id])
            && (if c.scope.FullScope? then |todo| else 0) == |t.Keys - u.Keys|
            && (if c.scope.AudioScope? then |todo| else 0) == |Changed(t, u)|
  {
    hide Matches, BuildFilters;
    var todo := Matching(t, PurgeFilters(c, now));
    var u := Purged(c.scope, t, todo, arrived);
    forall a ensures Matches(PurgeFilters(c, now), a) <==> Matches(BuildFilters(c, now), a) && (c.scope.AudioScope? ==> a.audio.Some?) {
      if c.scope.AudioScope? {
        WithAudio(BuildFilters(c, now), a);
      } else {
        assert BuildFilters(c, now) + [] == BuildFilters(c, now);
      }
    }
    assert t.Keys - u.Keys == if c.scope.FullScope? then todo else {};
    assert Changed(t, u) == if c.scope.AudioScope? then todo else {};
  }

  /** The rows that a purge finds added are those inserted after its batches. */
  lemma NewRows(c: Criteria, now: int, t: Table, env: Environment, batches: nat)
    requires Quiet(env, PurgeFilters(c, now), t)
    ensures var u := Purged(c.scope, t, Matching(t, PurgeFilters(c, now)), Arrived(env, batches).alerts);
            && (forall j: nat, id | j < batches && id in env(j).alerts :: id in u && u[id] == env(j).alerts[id])
            && (forall id <- u :: id in t || exists j: nat :: j < batches && id in env(j).alerts)
  {
    hide PurgeFilters, Matching, Matches;
    ArrivedQuiet(env, PurgeFilters(c, now), t, batches);
    ArrivedIffInserted(env, batches);
    hide Arrived, Quiet;
  }

  /** How the counters stand at every commit, and that every batch but the last is full. */
  lemma EachCommit(c: Criteria, now: int, t: Table, env: Environment, commits: seq<Commit>)
    requires Quiet(env, PurgeFilters(c, now), t)
    requires Recorded(c.scope, t, PurgeFilters(c, now), env, commits)
    ensures forall k | 0 <= k < |commits| ::
              var u, s := commits[k].alerts, commits[k].summary;
              && s.batches == k + 1 && s.messagesDeleted == 0
              && s.rowsDeleted == |t.Keys - u.Keys| && s.audioStripped == |Changed(t, u)|
              && s.audioBytesFreed == Bytes(t, t.Keys - u.Keys + Changed(t, u))
              && s.rowsDeleted + s.audioStripped == Min(200 * (k + 1), |Matching(t, PurgeFilters(c, now))|)
  {
    AudioOnly(c, now);
    forall k | 0 <= k < |commits|
      ensures var u, s := commits[k].alerts, commits[k].summary;
              && s.batches == k + 1 && s.messagesDeleted == 0
              && s.rowsDeleted == |t.Keys - u.Keys| && s.audioStripped == |Changed(t, u)|
              && s.audioBytesFreed == Bytes(t, t.Keys - u.Keys + Changed(t, u))
              && s.rowsDeleted + s.audioStripped == Min(200 * (k + 1), |Matching(t, PurgeFilters(c, now))|)
    {
      hide PurgeFilters, Matching, Quiet, Changed, Progress;
      var gone: set<int> :| Progress(c.scope, t, PurgeFilters(c, now), env, gone, commits[k].alerts, commits[k].summary);
      OneCommit(c.scope, t, PurgeFilters(c, now), env, gone, commits[k].alerts, commits[k].summary);
    }
  }

  lemma OneCommit(scope: Scope, t: Table, fs: seq<Filter>, env: Environment, gone: set<int>, u: Table, s: Summary)
    requires Quiet(env, fs, t) && Progress(scope, t, fs, env, gone, u, s) && s.batches > 0
    requires scope.AudioScope? ==> HasAudio in fs
    ensures && s.messagesDeleted == 0
            && s.rowsDeleted == |t.Keys - u.Keys| && s.audioStripped == |Changed(t, u)|
            && s.audioBytesFreed == Bytes(t, t.Keys - u.Keys + Changed(t, u))
            && s.rowsDeleted + s.audioStripped == Min(200 * s.batches, |Matching(t, fs)|)
  {
    ArrivedQuiet(env, fs, t, s.batches);
    hide Matching, Quiet, Changed, Arrived, Purged, Bytes, FullBatches;
    GoneRows(scope, t, fs, gone, Arrived(env, s.batches).alerts);
    SplitSize(Matching(t, fs), gone);
    FullButTheLast(s.batches, |gone|, |Matching(t, fs) - gone|);
  }

  lemma SplitSize(whole: set<int>, part: set<int>)
    requires part <= whole
    ensures |whole| == |part| + |whole - part|
  {
    assert whole == part + (whole - part);
  }

  lemma FullButTheLast(batches: nat, done: nat, left: nat)
    requires FullBatches(batches, done, left)
    ensures done == Min(200 * batches, done + left)
  {
  }

  lemma GoneRows(scope: Scope, t: Table, fs: seq<Filter>, gone: set<int>, arrived: Table)
    requires gone <= Matching(t, fs) && arrived.Keys !! t.Keys && (scope.AudioScope? ==> HasAudio in fs)
    ensures var u := Purged(scope, t, gone, arrived);
            && t.Keys - u.Keys == (if scope.FullScope? then gone else {})
            && Changed(t, u) == (if scope.AudioScope? then gone else {})
            && t.Keys - u.Keys + Changed(t, u) == gone
  {
    var u := Purged(scope, t, gone, arrived);
    if scope.AudioScope? {
      forall id | id in t ensures id in u && (id in gone <==> u[id] != t[id]) {
        assert id in gone ==> Holds(HasAudio, t[id]);
      }
      hide Purged, Matches;
      assert Changed(t, u) == gone && t.Keys - u.Keys == {};
    } else {
      forall id | id in t ensures id in u <==> id !in gone {}
      forall id | id in t && id in u ensures u[id] == t[id] {}
      hide Purged, Matches;
      assert Changed(t, u) == {} && t.Keys - u.Keys == gone;
    }
  }

  /** Which messages a purge deletes, and how many. */
  lemma OrphansOneByOne(c: Criteria, now: int, t: Table, arrived: Table, u: Table, before: Messages, after: Messages, deleted: nat)
    requires arrived.Keys !! t.Keys
    requires var todo := Matching(t, PurgeFilters(c, now));
             var orphans := if c.deleteGeneratedMessages && c.scope.FullScope? then Orphans(References(t, todo), u) else {};
             && u == Purged(c.scope, t, todo, arrived)
             && after == Without(before, orphans) && deleted == |orphans * before.Keys|
    ensures forall m <- after :: m in before && after[m] == before[m]
    ensures forall m <- before :: m !in after <==> c.deleteGeneratedMessages && c.scope.FullScope? && Orphaned(t, u, m)
    ensures deleted == |before.Keys - after.Keys|
  {
    hide Matching, PurgeFilters, References, Orphans, Orphaned, Purged;
    var todo := Matching(t, PurgeFilters(c, now));
    var orphans := if c.deleteGeneratedMessages && c.scope.FullScope? then Orphans(References(t, todo), u) else {};
    assert orphans * before.Keys == before.Keys - after.Keys;
    forall m <- before ensures m !in after <==> c.deleteGeneratedMessages && c.scope.FullScope? && Orphaned(t, u, m) {
      OneOrphan(t, todo, arrived, m);
    }
  }

  /** The same, one way at a time. */
  lemma OrphansEachWay(collect: bool, t: Table, u: Table, before: Messages, after: Messages)
    requires after.Keys <= before.Keys && forall m <- before :: m !in after <==> collect && Orphaned(t, u, m)
    ensures forall id <- u | u[id].messageId.Some? && u[id].messageId.value in before :: u[id].messageId.value in after
    ensures forall m <- before | m !in after :: collect && exists id <- t :: id !in u && t[id].messageId == Some(m)
    ensures collect ==>
              forall id <- t | id !in u && t[id].messageId.Some? && t[id].messageId.value in after ::
                exists k <- u :: u[k].messageId == t[id].messageId
  {
    forall id <- u | u[id].messageId.Some? && u[id].messageId.value in before ensures u[id].messageId.value in after {
      assert !Orphaned(t, u, u[id].messageId.value);
    }
    if collect {
      forall id <- t | id !in u && t[id].messageId.Some? && t[id].messageId.value in after
        ensures exists k <- u :: u[k].messageId == t[id].messageId
      {
        assert !Orphaned(t, u, t[id].messageId.value);
      }
    }
  }

  /** A purged row refers to the message, and no row that is there after the purge does. */
  predicate Orphaned(t: Table, u: Table, m: int) {
    && (exists id <- t :: id !in u && t[id].messageId == Some(m))
    && (forall id <- u :: u[id].messageId != Some(m))
  }

  lemma OneOrphan(t: Table, todo: set<int>, arrived: Table, m: int)
    requires arrived.Keys !! t.Keys && todo <= t.Keys
    ensures var u := Purged(FullScope, t, todo, arrived);
            m in Orphans(References(t, todo), u) <==> Orphaned(t, u, m)
  {
    var u := Purged(FullScope, t, todo, arrived);
    assert forall id <- t :: id !in u <==> id in todo;
    OneReference(t, todo, m);
    OneReference(u, u.Keys, m);
    hide References, Purged;
  }

  lemma OneReference(t: Table, ids: set<int>, m: int)
    ensures m in References(t, ids) <==> exists id <- t :: id in ids && t[id].messageId == Some(m)
  {
  }

  /** Alerts younger than the cutoff come through a purge unchanged. */
  lemma RecentAlertsSurvive(c: Criteria, now: int, t: Table, arrived: Table)
    requires AgePresent(c) && arrived.Keys !! t.Keys
    ensures var u := Purged(c.scope, t, Matching(t, PurgeFilters(c, now)), arrived);
            forall id <- t | t[id].receivedAt >= Cutoff(c, now) :: id in u && u[id] == t[id]
  {
    hide PurgeFilters, Matches;
    forall id <- t | t[id].receivedAt >= Cutoff(c, now) ensures id !in Matching(t, PurgeFilters(c, now)) {
      NewRowsNeverMatch(c, now, t[id]);
    }
  }

  /** Every commit of a purge of `t` is exactly accounted for. */
  ghost predicate Recorded(scope: Scope, t: Table, fs: seq<Filter>, env: Environment, commits: seq<Commit>) {
    forall k | 0 <= k < |commits| ::
      commits[k].summary.batches == k + 1 && exists gone: set<int> ::
        Progress(scope, t, fs, env, gone, commits[k].alerts, commits[k].summary)
  }

  lemma NothingYet(scope: Scope, t: Table, fs: seq<Filter>, env: Environment)
    requires Quiet(env, fs, t)
    ensures Progress(scope, t, fs, env, {}, t, Summary(0, 0, 0, 0, 0))
    ensures References(t, {}) == {}
    ensures Arrived(env, 0).messages == map[]
    ensures Recorded(scope, t, fs, env, [])
  {
    assert Purged(scope, t, {}, map[]) == t;
    assert Arrived(env, 0).alerts == map[];
  }

  lemma RecordedGrows(scope: Scope, t: Table, fs: seq<Filter>, env: Environment, commits: seq<Commit>, gone: set<int>, next: Commit)
    requires Recorded(scope, t, fs, env, commits)
    requires next.summary.batches == |commits| + 1
    requires Progress(scope, t, fs, env, gone, next.alerts, next.summary)
    ensures Recorded(scope, t, fs, env, commits + [next])
  {
  }

  lemma NextMessages(messages: Messages, env: Environment, k: nat)
    ensures messages + Arrived(env, k).messages + env(k).messages == messages + Arrived(env, k + 1).messages
  {
  }

  lemma NoneLeft(scope: Scope, t: Table, fs: seq<Filter>, env: Environment, gone: set<int>, now: Table, s: Summary)
    requires Quiet(env, fs, t)
    requires scope.AudioScope? ==> HasAudio in fs
    requires Progress(scope, t, fs, env, gone, now, s)
    requires |Matching(now, fs)| == 0
    ensures gone == Matching(t, fs)
  {
    StillToPurge(scope, t, fs, env, gone, now, s);
  }

  /** At a committed point the matching rows are those of the start that are not yet purged. */
  lemma StillToPurge(scope: Scope, t: Table, fs: seq<Filter>, env: Environment, gone: set<int>, now: Table, s: Summary)
    requires Quiet(env, fs, t)
    requires scope.AudioScope? ==> HasAudio in fs
    requires Progress(scope, t, fs, env, gone, now, s)
    ensures Matching(now, fs) == Matching(t, fs) - gone
  {
    ArrivedQuiet(env, fs, t, s.batches);
    StillMatching(scope, t, fs, gone, Arrived(env, s.batches).alerts);
  }

  lemma NothingToDelete(messages: Messages, t: Table)
    ensures Orphans({}, t) == {} && Without(messages, {}) == messages
  {
  }

  /** One iteration: everything the loop invariant says about the table, the counters and the messages. */
  lemma BatchStep(scope: Scope, t: Table, fs: seq<Filter>, env: Environment, gone: set<int>, batch: set<int>,
                  before: Table, after: Table, s: Summary, s': Summary)
    requires Quiet(env, fs, t)
    requires scope.AudioScope? ==> HasAudio in fs
    requires Progress(scope, t, fs, env, gone, before, s)
    requires batch <= Matching(before, fs) && batch != {}
    requires |batch| == Min(PURGE_BATCH_SIZE, |Matching(before, fs)|)
    requires s' == Tally(scope, s, |batch|, Bytes(before, batch))
    requires after == Purged(scope, before, batch, map[]) + env(s.batches).alerts
    ensures Progress(scope, t, fs, env, gone + batch, after, s')
    ensures |Matching(after, fs)| < |Matching(before, fs)|
    ensures s'.batches == s.batches + 1
    ensures References(before, batch) + References(t, gone) == References(t, gone + batch)
  {
    hide Matching, References, Purged, Quiet, Arrived;
    StillToPurge(scope, t, fs, env, gone, before, s);
    ArrivedQuiet(env, fs, t, s.batches);
    UntouchedRows(scope, t, fs, gone, Arrived(env, s.batches).alerts, batch);
    BytesFrame(before, t, batch);
    BatchAccounts(scope, t, Matching(t, fs), gone, batch, s, s');
    NextTable(scope, t, fs, env, gone, batch, s.batches);
    StillToPurge(scope, t, fs, env, gone + batch, after, s');
  }

  /** Rows not yet purged are as they were at the start, so they carry the same message. */
  lemma UntouchedRows(scope: Scope, t: Table, fs: seq<Filter>, gone: set<int>, arrived: Table, batch: set<int>)
    requires arrived.Keys !! t.Keys
    requires batch <= Matching(t, fs) - gone
    ensures var u := Purged(scope, t, gone, arrived);
            && (forall id <- batch :: id in u && u[id] == t[id])
            && References(u, batch) + References(t, gone) == References(t, gone + batch)
  {
    var u := Purged(scope, t, gone, arrived);
    assert forall id <- batch :: id in u && u[id] == t[id];
    forall m ensures m in References(t, gone + batch) <==> m in References(u, batch) + References(t, gone) {
      if m in References(t, gone + batch) {
        var id :| id in gone + batch && id in t && t[id].messageId == Some(m);
        if id in batch { assert u[id].messageId == Some(m); }
      }
    }
  }

  lemma TwoBatches(scope: Scope, t: Table, gone: set<int>, batch: set<int>, arrived: Table)
    requires batch <= t.Keys && arrived.Keys !! t.Keys
    ensures Purged(scope, Purged(scope, t, gone, arrived), batch, map[]) == Purged(scope, t, gone + batch, arrived)
  {
    var u := Purged(scope, Purged(scope, t, gone, arrived), batch, map[]);
    var v := Purged(scope, t, gone + batch, arrived);
    forall id ensures id in u <==> id in v {}
    forall id | id in u ensures u[id] == v[id] {}
  }

  /** Purging one more batch and then receiving rows gives the next committed table. */
  lemma NextTable(scope: Scope, t: Table, fs: seq<Filter>, env: Environment, gone: set<int>, batch: set<int>, k: nat)
    requires Quiet(env, fs, t) && gone <= t.Keys && batch <= t.Keys
    ensures Purged(scope, Purged(scope, t, gone, Arrived(env, k).alerts), batch, map[]) + env(k).alerts
         == Purged(scope, t, gone + batch, Arrived(env, k + 1).alerts)
  {
    ArrivedQuiet(env, fs, t, k);
    var arrived, last := Arrived(env, k).alerts, env(k).alerts;
    TwoBatches(scope, t, gone, batch, arrived);
    var kept := if scope.AudioScope? then Stripped(t, gone + batch) else Without(t, gone + batch);
    UnionAssociates(kept, arrived, last);
  }
}
