/**
 The window that keeps repeated audio alerts out of the alert table
 (eas_monitoring_service.py, _make_audio_alert_log_callback). Times are seconds as reals.
 */
module AlertDedup {
  import opened Wrappers

  const DEDUP_SECONDS: real := 30.0

  /** Source name and event type. */
  type Key = (string, string)

  datatype Event = Event(key: Key, at: real)

  /** _last_written.get(key, 0) */
  function LastWritten(written: map<Key, real>, key: Key): real {
    if key in written then written[key] else 0.0
  }

  predicate Suppressed(written: map<Key, real>, e: Event) {
    e.at - LastWritten(written, e.key) < DEDUP_SECONDS
  }

  function Written(es: seq<Event>): map<Key, real> {
    if es == [] then map[] else
      var before, last := Written(es[..|es| - 1]), es[|es| - 1];
      if Suppressed(before, last) then before else before[last.key := last.at]
  }

  /** The i-th event is written to the table. */
  predicate Passes(es: seq<Event>, i: nat)
    requires i < |es|
  {
    !Suppressed(Written(es[..i]), es[i])
  }

  /** The stored time of a key is that of its last event that passed. */
  lemma {:induction false} WrittenIsLastPass(es: seq<Event>, key: Key) returns (p: nat)
    requires key in Written(es)
    ensures p < |es| && Passes(es, p) && es[p].key == key && Written(es)[key] == es[p].at
    ensures forall i: nat | p < i < |es| && es[i].key == key :: !Passes(es, i)
  {
    var before := es[..|es| - 1];
    if es[|es| - 1].key == key && Passes(es, |es| - 1) {
      p := |es| - 1;
    } else {
      p := WrittenIsLastPass(before, key);
      assert before[..p] == es[..p];
      forall i: nat | p < i < |es| && es[i].key == key ensures !Passes(es, i) {
        if i < |before| {
          assert before[..i] == es[..i];
        }
      }
    }
  }

  /**
   A suppressed event always has an earlier one of the same key that passed, less than 30 s before it or,
   if the clock went back, after it; or else the clock has not reached 30 yet, and the event is lost.
   */
  lemma SuppressedHasARecentPass(es: seq<Event>, i: nat)
    requires i < |es| && !Passes(es, i)
    ensures es[i].at < 30.0 ||
            exists p: nat :: p < i && Passes(es, p) && es[p].key == es[i].key && es[i].at - es[p].at < 30.0
  {
    if es[i].key in Written(es[..i]) {
      var p := WrittenIsLastPass(es[..i], es[i].key);
      assert es[..i][..p] == es[..p];
      assert Passes(es, p) && es[p].key == es[i].key;
    }
  }

  /** No time below 30 is ever stored: until then the missing entry counts as a write at 0. */
  lemma {:induction false} StoredAfterStart(es: seq<Event>)
    ensures forall key <- Written(es) :: Written(es)[key] >= DEDUP_SECONDS
  {
    if es != [] {
      StoredAfterStart(es[..|es| - 1]);
    }
  }

  /** An event passes exactly if the clock has reached 30 and no passed event of its key lies less than 30 s back. */
  lemma PassesIff(es: seq<Event>, i: nat)
    requires i < |es|
    ensures Passes(es, i) <==>
            && es[i].at >= 30.0
            && forall p: nat | p < i && es[p].key == es[i].key && Passes(es, p) :: es[i].at - es[p].at >= 30.0
  {
    StoredAfterStart(es[..i]);
    if Passes(es, i) {
      forall p: nat | p < i && es[p].key == es[i].key && Passes(es, p) ensures es[i].at - es[p].at >= DEDUP_SECONDS {
        PassesAreSpacedOut(es, p, i);
      }
    } else {
      SuppressedHasARecentPass(es, i);
    }
  }

  lemma {:induction false} PassIsRemembered(es: seq<Event>, p: nat)
    requires p < |es| && Passes(es, p)
    ensures es[p].key in Written(es) && Written(es)[es[p].key] >= es[p].at
  {
    var before := es[..|es| - 1];
    if p < |before| {
      assert before[..p] == es[..p];
      PassIsRemembered(before, p);
    }
  }

  lemma PassesAreSpacedOut(es: seq<Event>, p: nat, i: nat)
    requires p < i < |es| && es[p].key == es[i].key
    requires Passes(es, p) && Passes(es, i)
    ensures es[i].at - es[p].at >= 30.0
  {
    assert es[..i][..p] == es[..p];
    PassIsRemembered(es[..i], p);
  }

  // ---------------------------------------------------------------------------
  // The rate that the window allows
  // ---------------------------------------------------------------------------

  /** Events of `key` in the window [from, from + length] that pass. */
  function PassedIn(es: seq<Event>, key: Key, from: real, length: real): seq<real> {
    if es == [] then [] else
      var before, last := es[..|es| - 1], es[|es| - 1];
      var passed := PassedIn(before, key, from, length);
      if last.key == key && from <= last.at <= from + length && !Suppressed(Written(before), last)
      then passed + [last.at] else passed
  }

  ghost predicate Within(xs: seq<real>, from: real, to: real) { forall x <- xs :: from <= x <= to }

  ghost predicate SpacedOut(xs: seq<real>) {
    forall i, j | 0 <= i < j < |xs| :: xs[j] - xs[i] >= DEDUP_SECONDS
  }

  lemma {:induction false} PassedInIsSpacedOut(es: seq<Event>, key: Key, from: real, length: real)
    ensures Within(PassedIn(es, key, from, length), from, from + length)
    ensures SpacedOut(PassedIn(es, key, from, length))
    ensures forall x <- PassedIn(es, key, from, length) :: key in Written(es) && x <= Written(es)[key]
  {
    if es != [] {
      PassedInIsSpacedOut(es[..|es| - 1], key, from, length);
      var passed := PassedIn(es[..|es| - 1], key, from, length);
      assert forall i | 0 <= i < |passed| :: passed[i] in passed;
    }
  }

  predicate PassesAt(es: seq<Event>, key: Key, t: real, i: nat) {
    i < |es| && Passes(es, i) && es[i].key == key && es[i].at == t
  }

  lemma PassesAtBefore(es: seq<Event>, key: Key, t: real, i: nat)
    requires i < |es| - 1
    ensures PassesAt(es, key, t, i) <==> PassesAt(es[..|es| - 1], key, t, i)
  {
    assert es[..|es| - 1][..i] == es[..i];
  }

  /** Exactly the times at which an event of the key passes in the window. */
  lemma {:induction false} PassedInMember(es: seq<Event>, key: Key, from: real, length: real, t: real)
    ensures t in PassedIn(es, key, from, length) <==> from <= t <= from + length && exists i: nat :: PassesAt(es, key, t, i)
  {
    if es != [] {
      var before, last := es[..|es| - 1], es[|es| - 1];
      PassedInMember(before, key, from, length, t);
      assert t in PassedIn(es, key, from, length) <==>
             t in PassedIn(before, key, from, length) || (from <= t <= from + length && PassesAt(es, key, t, |es| - 1));
      hide PassesAt, PassedIn;
      if i: nat :| PassesAt(before, key, t, i) {
        InLog(before, key, t, i);
        PassesAtBefore(es, key, t, i);
      }
      if i: nat :| PassesAt(es, key, t, i) {
        InLog(es, key, t, i);
        if i < |before| {
          PassesAtBefore(es, key, t, i);
        }
      }
    }
  }

  lemma InLog(es: seq<Event>, key: Key, t: real, i: nat)
    requires PassesAt(es, key, t, i)
    ensures i < |es|
  {
  }

  lemma {:induction false} SpacedOutCount(xs: seq<real>, from: real, to: real)
    requires xs != [] && Within(xs, from, to) && SpacedOut(xs)
    ensures xs[|xs| - 1] >= from + (|xs| - 1) as real * DEDUP_SECONDS
  {
    if |xs| > 1 {
      var most := xs[..|xs| - 1];
      forall x | x in most ensures x in xs && from <= x <= to {}
      assert Within(most, from, to);
      SpacedOutCount(xs[..|xs| - 1], from, to);
    } else {
      assert xs[0] in xs;
    }
  }

  /** Any window of `length` seconds lets at most floor(length / 30) + 1 records of one key through. */
  lemma AtMostOnePerThirtySeconds(es: seq<Event>, key: Key, from: real, length: real)
    requires length >= 0.0
    ensures |PassedIn(es, key, from, length)| <= (length / 30.0).Floor + 1
    ensures forall i, j | 0 <= i < j < |PassedIn(es, key, from, length)| ::
              PassedIn(es, key, from, length)[j] - PassedIn(es, key, from, length)[i] >= 30.0
    ensures forall t :: t in PassedIn(es, key, from, length)
              <==> exists i: nat :: i < |es| && Passes(es, i) && es[i].key == key && es[i].at == t && from <= t <= from + length
  {
    var passed := PassedIn(es, key, from, length);
    PassedInIsSpacedOut(es, key, from, length);
    forall t
      ensures t in PassedIn(es, key, from, length)
              <==> exists i: nat :: i < |es| && Passes(es, i) && es[i].key == key && es[i].at == t && from <= t <= from + length
    {
      hide Passes, PassedIn;
      PassedInMember(es, key, from, length, t);
      if i: nat :| PassesAt(es, key, t, i) {
        assert Passes(es, i) && es[i].key == key && es[i].at == t;
      }
      if i: nat :| i < |es| && Passes(es, i) && es[i].key == key && es[i].at == t && from <= t <= from + length {
        assert PassesAt(es, key, t, i);
      }
    }
    if passed != [] {
      SpacedOutCount(passed, from, from + length);
      assert passed[|passed| - 1] in passed;
      assert (|passed| - 1) as real * DEDUP_SECONDS <= length;
      assert (|passed| - 1) as real <= length / DEDUP_SECONDS;
    }
  }

  // ---------------------------------------------------------------------------
  // The records
  // ---------------------------------------------------------------------------

  /** The records written, in order. */
  function Recorded(es: seq<Event>): seq<Event> {
    if es == [] then [] else
      var before, last := es[..|es| - 1], es[|es| - 1];
      if Suppressed(Written(before), last) then Recorded(before) else Recorded(before) + [last]
  }

  /** The time of the last record of a key. */
  function LastOf(records: seq<Event>, key: Key): Option<real> {
    if records == [] then None
    else if records[|records| - 1].key == key then Some(records[|records| - 1].at)
    else LastOf(records[..|records| - 1], key)
  }

  /** A stored time is that of the last record of its key. */
  lemma {:induction false} StoredIsLastRecord(es: seq<Event>, key: Key)
    ensures LastOf(Recorded(es), key) == if key in Written(es) then Some(Written(es)[key]) else None
  {
    if es != [] {
      var before, last := es[..|es| - 1], es[|es| - 1];
      StoredIsLastRecord(before, key);
      assert (Recorded(before) + [last])[..|Recorded(before)|] == Recorded(before);
    }
  }

  ghost predicate RecordsSpaced(records: seq<Event>) {
    && (forall i, j | 0 <= i < j < |records| && records[i].key == records[j].key :: records[j].at - records[i].at >= 30.0)
    && (forall r <- records :: r.at >= 30.0)
  }

  /** The last record of a key is its latest. */
  lemma {:induction false} LastIsLatest(records: seq<Event>, key: Key)
    requires RecordsSpaced(records)
    ensures LastOf(records, key).None? <==> forall r <- records :: r.key != key
    ensures LastOf(records, key).Some? ==>
              && (exists r <- records :: r.key == key && r.at == LastOf(records, key).value)
              && (forall r <- records | r.key == key :: r.at <= LastOf(records, key).value)
  {
    if records != [] {
      var most, last := records[..|records| - 1], records[|records| - 1];
      SpacedBefore(records);
      LastIsLatest(most, key);
      assert forall r :: r in records <==> r in most || r == last;
      if last.key == key {
        forall r | r in most && r.key == key ensures r.at <= last.at {
          var i :| 0 <= i < |most| && most[i] == r;
          assert records[i] == r;
        }
      }
    }
  }

  lemma SpacedBefore(records: seq<Event>)
    requires RecordsSpaced(records) && records != []
    ensures RecordsSpaced(records[..|records| - 1])
  {
  }

  lemma SpacedSnoc(records: seq<Event>, e: Event)
    requires RecordsSpaced(records) && e.at >= 30.0 && forall r <- records | r.key == e.key :: e.at - r.at >= 30.0
    ensures RecordsSpaced(records + [e])
  {
    forall i, j | 0 <= i < j < |records + [e]| && (records + [e])[i].key == (records + [e])[j].key
      ensures (records + [e])[j].at - (records + [e])[i].at >= 30.0
    {
      assert records[i] in records;
    }
  }

  /** Records of one key are at least 30 s apart, and none is written before the clock reads 30, whatever the clock does. */
  lemma {:induction false} AlwaysSpaced(es: seq<Event>)
    ensures RecordsSpaced(Recorded(es))
  {
    if es != [] {
      var before, last := es[..|es| - 1], es[|es| - 1];
      AlwaysSpaced(before);
      StoredIsLastRecord(before, last.key);
      StoredAfterStart(before);
      LastIsLatest(Recorded(before), last.key);
      if !Suppressed(Written(before), last) {
        hide RecordsSpaced, Written, LastOf;
        SpacedSnoc(Recorded(before), last);
      }
    }
  }

  /** Whether an event is recorded, in terms of the records alone. */
  lemma RecordedIff(es: seq<Event>, e: Event)
    ensures Recorded(es + [e]) == Recorded(es) + if e.at >= 30.0 && forall r <- Recorded(es) | r.key == e.key :: e.at - r.at >= 30.0
                                                 then [e] else []
  {
    OneMore(es, e);
    hide Recorded, RecordsSpaced, Written, LastOf;
    StoredIsLastRecord(es, e.key);
    StoredAfterStart(es);
    AlwaysSpaced(es);
    LastIsLatest(Recorded(es), e.key);
  }

  /** The records of one key in a window, by position. */
  function InWindow(records: seq<Event>, key: Key, from: real, length: real): set<int> {
    set i | 0 <= i < |records| && records[i].key == key && from <= records[i].at <= from + length
  }

  /** Any window of `length` seconds holds at most floor(length / 30) + 1 records of one key. */
  lemma {:induction false} FewRecordsPerWindow(records: seq<Event>, key: Key, from: real, length: real)
    requires RecordsSpaced(records) && length >= 0.0
    ensures |InWindow(records, key, from, length)| <= (length / 30.0).Floor + 1
    ensures forall i | 0 <= i < |records| ::
              i in InWindow(records, key, from, length) <==> records[i].key == key && from <= records[i].at <= from + length
    decreases |records|
  {
    if records == [] {
      assert InWindow(records, key, from, length) == {};
    } else {
      var most, last := records[..|records| - 1], |records| - 1;
      SpacedBefore(records);
      if last !in InWindow(records, key, from, length) {
        assert InWindow(records, key, from, length) == InWindow(most, key, from, length);
        FewRecordsPerWindow(most, key, from, length);
      } else {
        var rest := records[last].at - 30.0 - from;
        WindowBefore(records, key, from, length);
        ShorterWindow(rest, length);
        if rest >= 0.0 {
          FewRecordsPerWindow(most, key, from, rest);
        }
      }
    }
  }

  /** Before a record at the end of a window the others lie 30 s further back. */
  lemma WindowBefore(records: seq<Event>, key: Key, from: real, length: real)
    requires RecordsSpaced(records) && records != [] && |records| - 1 in InWindow(records, key, from, length)
    ensures var most, rest := records[..|records| - 1], records[|records| - 1].at - 30.0 - from;
            && rest <= length - 30.0
            && |InWindow(records, key, from, length)| == |InWindow(most, key, from, rest)| + 1
            && (rest < 0.0 ==> |InWindow(most, key, from, rest)| == 0)
  {
    var most, last := records[..|records| - 1], |records| - 1;
    var rest := records[last].at - 30.0 - from;
    forall i | i in InWindow(records, key, from, length) && i != last ensures i in InWindow(most, key, from, rest) {
      assert most[i] == records[i];
    }
    assert InWindow(records, key, from, length) == InWindow(most, key, from, rest) + {last};
    if rest < 0.0 {
      assert InWindow(most, key, from, rest) == {};
    }
  }

  lemma ShorterWindow(rest: real, length: real)
    requires rest <= length - 30.0
    ensures (rest / 30.0).Floor + 1 <= (length / 30.0).Floor
  {
    assert rest / 30.0 + 1.0 <= length / 30.0;
    assert (rest / 30.0 + 1.0).Floor == (rest / 30.0).Floor + 1;
  }

  /** What one more event adds to the stored times and to the records. */
  lemma OneMore(es: seq<Event>, e: Event)
    ensures Written(es + [e]) == if Suppressed(Written(es), e) then Written(es) else Written(es)[e.key := e.at]
    ensures Recorded(es + [e]) == Recorded(es) + if Suppressed(Written(es), e) then [] else [e]
  {
    assert (es + [e])[..|es|] == es;
  }

  lemma RateOfRecords(es: seq<Event>)
    ensures var records := Recorded(es);
            && (forall i, j | 0 <= i < j < |records| && records[i].key == records[j].key :: records[j].at - records[i].at >= 30.0)
            && (forall key, from: real, length: real | length >= 0.0 ::
                  |InWindow(records, key, from, length)| <= (length / 30.0).Floor + 1)
  {
    AlwaysSpaced(es);
    var records := Recorded(es);
    assert RecordsSpaced(records);
    hide InWindow, Recorded;
    forall key, from: real, length: real | length >= 0.0
      ensures |InWindow(records, key, from, length)| <= (length / 30.0).Floor + 1
    {
      FewRecordsPerWindow(records, key, from, length);
    }
  }

  class AlertLog {
    var lastWritten: map<Key, real>
    var records: seq<Event>
    ghost var log: seq<Event>

    ghost predicate Valid()
      reads this
    {
      lastWritten == Written(log) && records == Recorded(log)
    }

    constructor ()
      ensures Valid() && log == [] && records == []
    {
      lastWritten, records, log := map[], [], [];
    }

    /**
     The event is recorded exactly if the clock has reached 30 and no record of its key lies less than
     30 s back. However the clock moves, records of one key stay 30 s apart, so that a window of T
     seconds never holds more than floor(T / 30) + 1 of them.
     */
    method Callback(e: Event)
      requires Valid()
      modifies this
      ensures Valid() && log == old(log) + [e]
      ensures records == old(records) + if e.at >= 30.0 && forall r <- old(records) | r.key == e.key :: e.at - r.at >= 30.0
                                        then [e] else []
      ensures forall i, j | 0 <= i < j < |records| && records[i].key == records[j].key :: records[j].at - records[i].at >= 30.0
      ensures forall key, from: real, length: real | length >= 0.0 ::
                |InWindow(records, key, from, length)| <= (length / 30.0).Floor + 1
    {
      hide Recorded, Written, InWindow;
      OneMore(log, e);
      RecordedIff(log, e);
      log := log + [e];
      RateOfRecords(log);
      if e.at - (if e.key in lastWritten then lastWritten[e.key] else 0.0) < DEDUP_SECONDS {
        return;
      }
      lastWritten := lastWritten[e.key := e.at];
      records := records + [e];
    }
  }
}
