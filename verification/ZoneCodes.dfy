/**
 Zone codes derived from SAME location codes (app_core/alert_filtering.py). A SAME code is PSSCCC:
 part of county, state, county (47 CFR 11.31(c)). The state table and the forecast-zone index are
 parameters.
 */
module ZoneCodes {
  import opened Wrappers
  import opened Sorting

  predicate IsDigit(c: char) { '0' <= c <= '9' }

  function UpperChar(c: char): char { if 'a' <= c <= 'z' then (c as int - 32) as char else c }

  function Upper(s: string): string { seq(|s|, i requires 0 <= i < |s| => UpperChar(s[i])) }

  datatype Geography = Geography(states: map<string, string>, forecastZones: string -> seq<string>)

  /** A whole county of a known state. */
  predicate CountyCode(g: Geography, digits: string) {
    && |digits| == 6 && digits[3..] != "000"
    && digits[1..3] in g.states && |g.states[digits[1..3]]| == 2
  }

  function CountyZone(g: Geography, digits: string): string
    requires CountyCode(g, digits)
  {
    Upper(g.states[digits[1..3]] + "C" + digits[3..])
  }

  function UpperEach(xs: seq<string>): seq<string> {
    if xs == [] then [] else UpperEach(xs[..|xs| - 1]) + [Upper(xs[|xs| - 1])]
  }

  /** The zones one location code stands for: its forecast zones, then its county zone. */
  function Candidates(g: Geography, raw: string): seq<string> {
    var digits := Filter(IsDigit, raw);
    if !CountyCode(g, digits) then [] else UpperEach(g.forecastZones(digits)) + [CountyZone(g, digits)]
  }

  function AllCandidates(g: Geography, raws: seq<string>): seq<string> {
    if raws == [] then [] else AllCandidates(g, raws[..|raws| - 1]) + Candidates(g, raws[|raws| - 1])
  }

  /** In the catalogue, if there is one. */
  function Known(catalogue: Option<set<string>>): string -> bool {
    (zone: string) => catalogue.None? || zone in catalogue.value
  }

  function FirstOccurrences(xs: seq<string>): seq<string> {
    if xs == [] then [] else
      var before, last := FirstOccurrences(xs[..|xs| - 1]), xs[|xs| - 1];
      if last in before then before else before + [last]
  }

  /** What the derivation returns. */
  function Derived(g: Geography, catalogue: Option<set<string>>, raws: seq<string>): seq<string> {
    FirstOccurrences(Filter(Known(catalogue), AllCandidates(g, raws)))
  }

  function FirstIndex(xs: seq<string>, x: string): nat
    requires x in xs
    ensures FirstIndex(xs, x) < |xs| && xs[FirstIndex(xs, x)] == x
    ensures forall i | 0 <= i < FirstIndex(xs, x) :: xs[i] != x
  {
    if xs[0] == x then 0 else 1 + FirstIndex(xs[1..], x)
  }

  /** FirstOccurrences keeps every element once, in the order in which they first appear. */
  lemma {:induction false} FirstOccurrencesKeepsOrder(xs: seq<string>)
    ensures var ys := FirstOccurrences(xs);
            && Distinct(ys)
            && (forall x :: x in ys <==> x in xs)
            && (forall i, j | 0 <= i < j < |ys| :: FirstIndex(xs, ys[i]) < FirstIndex(xs, ys[j]))
  {
    if xs != [] {
      var most, last := xs[..|xs| - 1], xs[|xs| - 1];
      FirstOccurrencesKeepsOrder(most);
      assert forall x :: x in xs <==> x in most || x == last;
      var ys := FirstOccurrences(xs);
      assert xs == most + [last];
      InOrder(most, last, FirstOccurrences(most), ys);
    }
  }

  /** Appending an element keeps the order of first appearance. */
  lemma InOrder(most: seq<string>, last: string, before: seq<string>, ys: seq<string>)
    requires forall x :: x in before <==> x in most
    requires forall i, j | 0 <= i < j < |before| :: FirstIndex(most, before[i]) < FirstIndex(most, before[j])
    requires ys == if last in before then before else before + [last]
    ensures forall i | 0 <= i < |ys| :: ys[i] in most + [last]
    ensures forall i, j | 0 <= i < j < |ys| :: FirstIndex(most + [last], ys[i]) < FirstIndex(most + [last], ys[j])
  {
    hide FirstIndex;
    forall i, j | 0 <= i < j < |ys| ensures FirstIndex(most + [last], ys[i]) < FirstIndex(most + [last], ys[j]) {
      assert ys[i] == before[i];
      SameFirstIndex(most, last, ys[i]);
      if j < |before| {
        SameFirstIndex(most, last, ys[j]);
      }
    }
  }

  lemma SameFirstIndex(xs: seq<string>, last: string, x: string)
    requires x in xs
    ensures x in xs + [last] && FirstIndex(xs + [last], x) == FirstIndex(xs, x)
  {
    assert (xs + [last])[FirstIndex(xs, x)] == x;
    var i, j := FirstIndex(xs + [last], x), FirstIndex(xs, x);
    assert i <= j;
    assert i < |xs| && xs[i] == x;
  }

  /** The part-of-county digit does not change the county zone. */
  lemma PartOfCountyIgnored(g: Geography, digits: string, digits': string)
    requires CountyCode(g, digits) && |digits'| == 6 && digits'[1..] == digits[1..]
    ensures CountyCode(g, digits') && CountyZone(g, digits') == CountyZone(g, digits)
  {
    assert digits'[1..3] == digits'[1..][..2] && digits[1..3] == digits[1..][..2];
    assert digits'[3..] == digits'[1..][2..] && digits[3..] == digits[1..][2..];
  }

  /** Provided the state abbreviations differ, two location codes share a county zone exactly if they name one county. */
  lemma SameZoneIffSameCounty(g: Geography, a: string, b: string)
    requires CountyCode(g, a) && CountyCode(g, b) && (forall c <- a + b :: IsDigit(c))
    requires forall s <- g.states, t <- g.states | Upper(g.states[s]) == Upper(g.states[t]) :: s == t
    ensures CountyZone(g, a) == CountyZone(g, b) <==> a[1..] == b[1..]
  {
    if a[1..] == b[1..] {
      PartOfCountyIgnored(g, a, b);
    }
    ZoneParts(g, a);
    ZoneParts(g, b);
    assert a[1..] == a[1..3] + a[3..] && b[1..] == b[1..3] + b[3..];
  }

  /** State and county can be read off a county zone. */
  lemma ZoneParts(g: Geography, digits: string)
    requires CountyCode(g, digits) && forall c <- digits :: IsDigit(c)
    ensures var zone := CountyZone(g, digits);
            |zone| == 6 && zone[..2] == Upper(g.states[digits[1..3]]) && zone[2] == 'C' && zone[3..] == digits[3..]
  {
    var plain := g.states[digits[1..3]] + "C" + digits[3..];
    assert Upper(plain) == CountyZone(g, digits);
    forall i | 0 <= i < 3 ensures CountyZone(g, digits)[3..][i] == digits[3..][i] {
      assert plain[3 + i] == digits[3..][i] == digits[3 + i];
      assert digits[3 + i] in digits;
    }
  }

  /** Upper case touches the letters a to z only, and shifts them by the distance between the cases. */
  lemma UpperCase(s: string)
    ensures |Upper(s)| == |s|
    ensures forall i | 0 <= i < |s| ::
              if 'a' <= s[i] <= 'z' then 'A' <= Upper(s)[i] <= 'Z' && Upper(s)[i] - 'A' == s[i] - 'a' else Upper(s)[i] == s[i]
  {
  }

  /**
   What one location code stands for. Codes with other than six digits, whole-state codes and codes of
   unknown states stand for nothing; the others for their forecast zones in the order of the index, in
   upper case, and then for one county zone.
   */
  lemma CandidatesOf(g: Geography, raw: string)
    ensures var digits, zones := Filter((c: char) => '0' <= c <= '9', raw), Candidates(g, raw);
            if |digits| == 6 && digits[3..] != "000" && digits[1..3] in g.states && |g.states[digits[1..3]]| == 2
            then && |zones| == |g.forecastZones(digits)| + 1
                 && (forall i | 0 <= i < |zones| - 1 :: zones[i] == Upper(g.forecastZones(digits)[i]))
                 && zones[|zones| - 1] == Upper(g.states[digits[1..3]]) + "C" + digits[3..]
            else zones == []
  {
    FilterSame(IsDigit, (c: char) => '0' <= c <= '9', raw);
    var digits := Filter(IsDigit, raw);
    if CountyCode(g, digits) {
      EachUpper(g.forecastZones(digits));
      assert forall c <- digits :: IsDigit(c);
      ZoneParts(g, digits);
      var zone := CountyZone(g, digits);
      assert zone == zone[..2] + [zone[2]] + zone[3..];
    }
  }

  lemma {:induction false} EachUpper(xs: seq<string>)
    ensures |UpperEach(xs)| == |xs| && forall i | 0 <= i < |xs| :: UpperEach(xs)[i] == Upper(xs[i])
  {
    if xs != [] {
      EachUpper(xs[..|xs| - 1]);
    }
  }

  /** The candidates of several codes are those of one code after the other. */
  lemma {:induction false} CandidatesInOrder(g: Geography, raws: seq<string>, more: seq<string>)
    ensures AllCandidates(g, []) == []
    ensures AllCandidates(g, raws + more) == AllCandidates(g, raws) + AllCandidates(g, more)
    ensures forall raw :: AllCandidates(g, [raw]) == Candidates(g, raw)
  {
    forall raw ensures AllCandidates(g, [raw]) == Candidates(g, raw) {
      assert [raw][..0] == [];
      assert [] + Candidates(g, raw) == Candidates(g, raw);
    }
    if more == [] {
      assert raws + more == raws;
    } else {
      assert (raws + more)[..|raws + more| - 1] == raws + more[..|more| - 1];
      CandidatesInOrder(g, raws, more[..|more| - 1]);
    }
  }

  lemma AddCandidate(p: string -> bool, before: seq<string>, x: string)
    ensures var was, now := FirstOccurrences(Filter(p, before)), FirstOccurrences(Filter(p, before + [x]));
            now == if p(x) && x !in was then was + [x] else was
  {
    FilterSnoc(p, before, x);
    var kept := Filter(p, before);
    assert (kept + [x])[..|kept|] == kept;
  }

  /** One candidate: skipped when already seen or not in the catalogue. */
  method Consider(catalogue: Option<set<string>>, derived: seq<string>, seen: set<string>, zone: string, ghost before: seq<string>)
    returns (derived': seq<string>, seen': set<string>)
    requires derived == FirstOccurrences(Filter(Known(catalogue), before)) && seen == (set z | z in derived)
    ensures derived' == FirstOccurrences(Filter(Known(catalogue), before + [zone])) && seen' == (set z | z in derived')
  {
    hide FirstOccurrences, Filter;
    AddCandidate(Known(catalogue), before, zone);
    if zone in seen || (catalogue.Some? && zone !in catalogue.value) {
      return derived, seen;
    }
    return derived + [zone], seen + {zone};
  }

  /** The body of the outer loop: one location code. */
  method DeriveOne(g: Geography, catalogue: Option<set<string>>, derived: seq<string>, seen: set<string>, raw: string, ghost before: seq<string>)
    returns (derived': seq<string>, seen': set<string>)
    requires derived == FirstOccurrences(Filter(Known(catalogue), before)) && seen == (set z | z in derived)
    ensures derived' == FirstOccurrences(Filter(Known(catalogue), before + Candidates(g, raw)))
    ensures seen' == (set z | z in derived')
  {
    hide FirstOccurrences, Filter, Known, UpperEach, Upper;
    derived', seen' := derived, seen;
    var digits := Filter(IsDigit, raw);
    if !CountyCode(g, digits) {
      assert before + [] == before;
      return;
    }
    var zones := g.forecastZones(digits);
    NoneYet(before);
    for j := 0 to |zones|
      invariant derived' == FirstOccurrences(Filter(Known(catalogue), before + UpperEach(zones[..j])))
      invariant seen' == (set z | z in derived')
    {
      OneMore(before, zones, j);
      derived', seen' := Consider(catalogue, derived', seen', Upper(zones[j]), before + UpperEach(zones[..j]));
    }
    assert zones[..|zones|] == zones;
    assert before + Candidates(g, raw) == before + UpperEach(zones) + [CountyZone(g, digits)];
    derived', seen' := Consider(catalogue, derived', seen', CountyZone(g, digits), before + UpperEach(zones));
  }

  lemma NoneYet(before: seq<string>)
    ensures before + UpperEach([]) == before
  {}

  lemma OneMore(before: seq<string>, zones: seq<string>, j: nat)
    requires j < |zones|
    ensures before + UpperEach(zones[..j + 1]) == before + UpperEach(zones[..j]) + [Upper(zones[j])]
  {
    assert zones[..j + 1][..j] == zones[..j];
  }

  lemma OneMoreCode(g: Geography, raws: seq<string>, i: nat)
    requires i < |raws|
    ensures AllCandidates(g, raws[..i + 1]) == AllCandidates(g, raws[..i]) + Candidates(g, raws[i])
  {
    assert raws[..i + 1][..i] == raws[..i];
  }

  /** The nested loops compute the first occurrences of the flattened, catalogued candidates. */
  method DeriveCountyZoneCodes(g: Geography, catalogue: Option<set<string>>, raws: seq<string>) returns (derived: seq<string>)
    ensures derived == Derived(g, catalogue, raws)
    ensures Distinct(derived) && forall z :: z in derived <==> z in AllCandidates(g, raws) && (catalogue.None? || z in catalogue.value)
  {
    derived := [];
    var seen: set<string> := {};
    for i := 0 to |raws|
      invariant derived == Derived(g, catalogue, raws[..i]) && seen == (set z | z in derived)
    {
      hide FirstOccurrences, Filter, Known, Candidates, AllCandidates;
      OneMoreCode(g, raws, i);
      derived, seen := DeriveOne(g, catalogue, derived, seen, raws[i], AllCandidates(g, raws[..i]));
    }
    assert raws[..|raws|] == raws;
    FirstOccurrencesKeepsOrder(Filter(Known(catalogue), AllCandidates(g, raws)));
  }

  /** With an empty catalogue nothing is derived; without a catalogue everything is. */
  lemma CatalogueBounds(g: Geography, raws: seq<string>)
    ensures Derived(g, Some({}), raws) == []
    ensures forall z :: z in Derived(g, None, raws) <==> z in AllCandidates(g, raws)
  {
    FirstOccurrencesKeepsOrder(Filter(Known(None), AllCandidates(g, raws)));
    NoneKept(Known(Some({})), AllCandidates(g, raws));
  }

  function Absent(from: seq<string>): string -> bool { (code: string) => code !in from }

  /** What the update makes of the given zone codes. */
  function Updated(zoneCodes: seq<string>, derived: seq<string>): seq<string> {
    zoneCodes + FirstOccurrences(Filter(Absent(zoneCodes), derived))
  }

  /** The update keeps the given codes as they are and appends, once each, the derived ones that are not among them. */
  method AppendDerivedZoneCodes(zoneCodes: seq<string>, derived: seq<string>) returns (codes: seq<string>)
    ensures codes == Updated(zoneCodes, derived)
  {
    hide Filter, FirstOccurrences;
    codes := zoneCodes;
    var existing := set c | c in zoneCodes;
    NothingAppended(zoneCodes);
    for i := 0 to |derived|
      invariant codes == Updated(zoneCodes, derived[..i])
      invariant existing == set c | c in codes
    {
      assert derived[..i + 1] == derived[..i] + [derived[i]];
      AddCandidate(Absent(zoneCodes), derived[..i], derived[i]);
      if derived[i] !in existing {
        codes := codes + [derived[i]];
        existing := existing + {derived[i]};
      }
    }
    assert derived[..|derived|] == derived;
  }

  lemma NothingAppended(zoneCodes: seq<string>)
    ensures Updated(zoneCodes, []) == zoneCodes
  {}

  /** The given codes stay a prefix, every derived code is present, and what is appended is new and distinct. */
  lemma UpdateKeepsTheGivenCodes(zoneCodes: seq<string>, derived: seq<string>)
    ensures var codes := Updated(zoneCodes, derived);
            && zoneCodes <= codes
            && (forall c :: c in codes <==> c in zoneCodes || c in derived)
            && (forall i | |zoneCodes| <= i < |codes| :: codes[i] !in codes[..i])
            && (Distinct(zoneCodes) ==> Distinct(codes))
  {
    hide Filter, FirstOccurrences;
    var kept := Filter(Absent(zoneCodes), derived);
    var added := FirstOccurrences(kept);
    FirstOccurrencesKeepsOrder(kept);
    var codes := Updated(zoneCodes, derived);
    forall i | |zoneCodes| <= i < |codes| ensures codes[i] !in codes[..i] {
      var k := i - |zoneCodes|;
      assert codes[i] == added[k] && added[k] in kept;
      DistinctPrefix(added, k);
      assert codes[..i] == zoneCodes + added[..k];
    }
    if Distinct(zoneCodes) {
      DisjointDistinct(zoneCodes, added);
    }
  }

  /** Saving the settings again with the same location codes appends nothing. */
  lemma UpdateIsIdempotent(zoneCodes: seq<string>, derived: seq<string>)
    ensures Updated(Updated(zoneCodes, derived), derived) == Updated(zoneCodes, derived)
  {
    UpdateKeepsTheGivenCodes(zoneCodes, derived);
    var codes := Updated(zoneCodes, derived);
    assert Filter(Absent(codes), derived) == [] by {
      NoneKept(Absent(codes), derived);
    }
  }

  lemma {:induction false} NoneKept(p: string -> bool, xs: seq<string>)
    requires forall x <- xs :: !p(x)
    ensures Filter(p, xs) == []
  {
    if xs != [] {
      NoneKept(p, xs[..|xs| - 1]);
    }
  }

  lemma DistinctPrefix(xs: seq<string>, i: nat)
    requires Distinct(xs) && i < |xs|
    ensures xs[i] !in xs[..i]
  {}

  lemma DisjointDistinct(xs: seq<string>, ys: seq<string>)
    requires Distinct(xs) && Distinct(ys) && forall y <- ys :: y !in xs
    ensures Distinct(xs + ys)
  {
    forall i, j | 0 <= i < j < |xs + ys| ensures (xs + ys)[i] != (xs + ys)[j] {
      if i < |xs| <= j {
        assert ys[j - |xs|] in ys;
      }
    }
  }
}
