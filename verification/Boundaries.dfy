/** Boundary type names and what is displayed for them (app_core/boundaries.py). */
module Boundaries {
  import opened Wrappers

  datatype BoundaryType = BoundaryType(key: string, display: string, group: string, color: string, aliases: seq<string>)

  const BOUNDARY_TYPE_CONFIG: seq<BoundaryType> := [
    BoundaryType("county", "Counties", "geographic", "#6c757d", ["counties"]),
    BoundaryType("township", "Townships", "geographic", "#28a745", ["townships"]),
    BoundaryType("villages", "Villages", "geographic", "#17a2b8", ["village"]),
    BoundaryType("fire", "Fire Districts", "service", "#dc3545", ["fire_districts"]),
    BoundaryType("ems", "EMS Districts", "service", "#007bff", ["ems_districts"]),
    BoundaryType("school", "School Districts", "service", "#ffc107", ["school_districts"]),
    BoundaryType("electric", "Electric Utilities", "infrastructure", "#fd7e14", ["electric_utilities"]),
    BoundaryType("telephone", "Telephone Service", "infrastructure", "#6f42c1", ["telephone_service"]),
    BoundaryType("railroads", "Railroads", "infrastructure", "#b45309", ["railroad", "rail", "railway", "railways", "rails"]),
    BoundaryType("rivers", "Rivers & Streams", "hydrography", "#0ea5e9",
                 ["river", "streams", "stream", "creeks", "creek", "waterways", "waterway"]),
    BoundaryType("waterbodies", "Lakes & Ponds", "hydrography", "#2563eb",
                 ["lakes", "lake", "ponds", "pond", "reservoirs", "reservoir"])]

  // ---------------------------------------------------------------------------
  // String rewriting
  // ---------------------------------------------------------------------------

  predicate IsAlnum(c: char) { 'a' <= c <= 'z' || '0' <= c <= '9' }

  predicate IsSpace(c: char) {
    c == ' ' || '\t' <= c <= '\r' || '\U{1C}' <= c <= '\U{1F}' || c == '\U{85}' || c == '\U{A0}' || c == '\U{1680}'
    || '\U{2000}' <= c <= '\U{200A}' || c == '\U{2028}' || c == '\U{2029}' || c == '\U{202F}' || c == '\U{205F}' || c == '\U{3000}'
  }

  /**
   Lower case of one character, as far as ASCII letters can come out of it: besides the capitals, only
   the Kelvin sign and the dotted capital I have one in their lower-case form.
   */
  function Lower(c: char): string {
    if 'A' <= c <= 'Z' then [(c as int + 32) as char]
    else if c == '\U{212A}' then "k"
    else if c == '\U{130}' then ['i', '\U{307}']
    else [c]
  }

  function LowerAll(s: string): string {
    if s == "" then "" else LowerAll(s[..|s| - 1]) + Lower(s[|s| - 1])
  }

  function DropLeft(p: char -> bool, s: string): string {
    if s != "" && p(s[0]) then DropLeft(p, s[1..]) else s
  }

  function DropRight(p: char -> bool, s: string): string {
    if s != "" && p(s[|s| - 1]) then DropRight(p, s[..|s| - 1]) else s
  }

  function Strip(p: char -> bool, s: string): string { DropRight(p, DropLeft(p, s)) }

  predicate EndsInUnderscore(s: string) { s != "" && s[|s| - 1] == '_' }

  /** re.sub(r"[^a-z0-9]+", "_", s) */
  function SquashOthers(s: string): string {
    if s == "" then "" else
      var before, last := SquashOthers(s[..|s| - 1]), s[|s| - 1];
      if IsAlnum(last) then before + [last]
      else if |s| > 1 && !IsAlnum(s[|s| - 2]) then before
      else before + "_"
  }

  /** re.sub(r"_+", "_", s) */
  function SquashUnderscores(s: string): string {
    if s == "" then "" else
      var before, last := SquashUnderscores(s[..|s| - 1]), s[|s| - 1];
      if last != '_' then before + [last]
      else if EndsInUnderscore(s[..|s| - 1]) then before
      else before + "_"
  }

  predicate IsUnderscore(c: char) { c == '_' }

  function Sanitize(value: string): string {
    Strip(IsUnderscore, SquashUnderscores(SquashOthers(LowerAll(Strip(IsSpace, value)))))
  }

  function Find(s: string, config: seq<BoundaryType>): Option<BoundaryType> {
    if config == [] then None
    else if s == config[0].key || s in config[0].aliases then Some(config[0])
    else Find(s, config[1..])
  }

  function NormalizeBoundaryType(value: Option<string>): string {
    if value.None? then "unknown" else
      var sanitized := Sanitize(value.value);
      if sanitized == "" then "unknown" else
        var found := Find(sanitized, BOUNDARY_TYPE_CONFIG);
        if found.Some? then found.value.key else sanitized
  }

  // ---------------------------------------------------------------------------
  // Normal forms
  // ---------------------------------------------------------------------------

  predicate NoDoubledUnderscore(s: string) {
    forall i | 0 <= i < |s| - 1 :: !(s[i] == '_' && s[i + 1] == '_')
  }

  predicate Plain(s: string) { forall c <- s :: IsAlnum(c) || c == '_' }

  /** Letters and digits in runs joined by single underscores. */
  predicate Canonical(s: string) {
    Plain(s) && NoDoubledUnderscore(s) && (s != "" ==> s[0] != '_' && s[|s| - 1] != '_')
  }

  lemma {:induction false} SquashedIsPlain(s: string)
    ensures Plain(SquashOthers(s)) && NoDoubledUnderscore(SquashOthers(s))
    ensures EndsInUnderscore(SquashOthers(s)) <==> s != "" && !IsAlnum(s[|s| - 1])
  {
    if s != "" {
      var most := s[..|s| - 1];
      SquashedIsPlain(most);
    }
  }

  /** The second collapse never finds anything to do. */
  lemma {:induction false} SecondCollapseIsRedundant(s: string)
    requires NoDoubledUnderscore(s)
    ensures SquashUnderscores(s) == s
  {
    if s != "" {
      SecondCollapseIsRedundant(s[..|s| - 1]);
      assert s == s[..|s| - 1] + [s[|s| - 1]];
    }
  }

  lemma StripEnds(p: char -> bool, s: string) returns (i: nat, j: nat)
    ensures i <= j <= |s| && Strip(p, s) == s[i..j]
    ensures Strip(p, s) != "" ==> !p(Strip(p, s)[0]) && !p(Strip(p, s)[|Strip(p, s)| - 1])
  {
    hide DropLeft, DropRight;
    i := LeftEnd(p, s);
    var length := RightEnd(p, s[i..]);
    j := i + length;
    assert s[i..][..length] == s[i..j];
    assert Strip(p, s) != "" ==> s[i..j][0] == s[i..][0];
  }

  lemma {:induction false} LeftEnd(p: char -> bool, s: string) returns (i: nat)
    ensures i <= |s| && DropLeft(p, s) == s[i..]
    ensures i < |s| ==> !p(s[i])
  {
    if s != "" && p(s[0]) {
      i := LeftEnd(p, s[1..]);
      assert s[1..][i..] == s[i + 1..];
      i := i + 1;
    } else {
      i := 0;
    }
  }

  lemma {:induction false} RightEnd(p: char -> bool, s: string) returns (j: nat)
    ensures j <= |s| && DropRight(p, s) == s[..j]
    ensures 0 < j ==> !p(s[j - 1])
  {
    if s != "" && p(s[|s| - 1]) {
      j := RightEnd(p, s[..|s| - 1]);
      assert s[..|s| - 1][..j] == s[..j];
    } else {
      j := |s|;
    }
  }

  lemma SanitizedIsCanonical(value: string)
    ensures Canonical(Sanitize(value))
  {
    hide LowerAll, SquashOthers, SquashUnderscores;
    var lowered := LowerAll(Strip(IsSpace, value));
    var squashed := SquashOthers(lowered);
    SquashedIsPlain(lowered);
    SecondCollapseIsRedundant(squashed);
    var i, j := StripEnds(IsUnderscore, squashed);
    SlicePlain(squashed, i, j);
  }

  lemma SlicePlain(s: string, i: nat, j: nat)
    requires i <= j <= |s| && Plain(s) && NoDoubledUnderscore(s)
    ensures Plain(s[i..j]) && NoDoubledUnderscore(s[i..j])
  {
    var t := s[i..j];
    forall k | 0 <= k < |t| - 1 ensures !(t[k] == '_' && t[k + 1] == '_') {
      assert t[k] == s[i + k] && t[k + 1] == s[i + k + 1];
    }
  }

  lemma LowerFixesOne(c: char)
    requires IsAlnum(c) || c == '_'
    ensures Lower(c) == [c]
  {
  }

  lemma {:induction false} LowerFixes(s: string)
    requires Plain(s)
    ensures LowerAll(s) == s
  {
    hide Lower;
    if s != "" {
      var most, last := s[..|s| - 1], s[|s| - 1];
      assert last in s && forall c <- most :: c in s;
      LowerFixes(most);
      LowerFixesOne(last);
      assert s == most + [last];
    }
  }

  lemma {:induction false} SquashFixes(s: string)
    requires Plain(s) && NoDoubledUnderscore(s)
    ensures SquashOthers(s) == s
  {
    if s != "" {
      assert s[|s| - 1] in s;
      assert |s| > 1 ==> s[|s| - 2] in s;
      assert forall c <- s[..|s| - 1] :: c in s;
      SquashFixes(s[..|s| - 1]);
      assert s == s[..|s| - 1] + [s[|s| - 1]];
    }
  }

  lemma StripFixes(p: char -> bool, s: string)
    requires s != "" ==> !p(s[0]) && !p(s[|s| - 1])
    ensures Strip(p, s) == s
  {
  }

  lemma SanitizeFixes(s: string)
    requires Canonical(s)
    ensures Sanitize(s) == s
  {
    if s != "" {
      assert s[0] in s && s[|s| - 1] in s;
    }
    StripFixes(IsSpace, s);
    LowerFixes(s);
    SquashFixes(s);
    SecondCollapseIsRedundant(s);
    StripFixes(IsUnderscore, s);
  }

  // ---------------------------------------------------------------------------
  // What the cleaning does
  // ---------------------------------------------------------------------------

  /** The runs of letters a to z and digits in a text. */
  function Words(s: string): (ws: seq<string>)
    ensures s != "" && ('a' <= s[|s| - 1] <= 'z' || '0' <= s[|s| - 1] <= '9') ==> ws != []
  {
    if s == "" then [] else
      var before, last := Words(s[..|s| - 1]), s[|s| - 1];
      if !('a' <= last <= 'z' || '0' <= last <= '9') then before
      else if |s| > 1 && ('a' <= s[|s| - 2] <= 'z' || '0' <= s[|s| - 2] <= '9')
      then before[..|before| - 1] + [before[|before| - 1] + [last]]
      else before + [[last]]
  }

  /** Words joined by underscores. */
  function Joined(ws: seq<string>): string {
    if ws == [] then "" else if |ws| == 1 then ws[0] else Joined(ws[..|ws| - 1]) + "_" + ws[|ws| - 1]
  }

  ghost predicate Worded(ws: seq<string>) {
    forall w <- ws :: w != "" && forall c <- w :: IsAlnum(c)
  }

  lemma {:induction false} WordsAreWords(s: string)
    ensures Worded(Words(s))
  {
    if s != "" {
      var before := Words(s[..|s| - 1]);
      WordsAreWords(s[..|s| - 1]);
      assert before != [] ==> before[|before| - 1] in before;
      forall w | w in Words(s) ensures w != "" && forall c <- w :: IsAlnum(c) {
        assert w in before || w == [s[|s| - 1]] || (before != [] && w == before[|before| - 1] + [s[|s| - 1]]);
      }
    }
  }

  lemma JoinedSnoc(ws: seq<string>, w: string)
    ensures Joined(ws + [w]) == if ws == [] then w else Joined(ws) + "_" + w
  {
    assert (ws + [w])[..|ws|] == ws;
  }

  lemma {:induction false} JoinedEnds(ws: seq<string>)
    requires Worded(ws) && ws != []
    ensures Joined(ws) != "" && IsAlnum(Joined(ws)[0]) && IsAlnum(Joined(ws)[|Joined(ws)| - 1])
  {
    var w := ws[|ws| - 1];
    assert w in ws;
    if |ws| > 1 {
      var most := ws[..|ws| - 1];
      forall v | v in most ensures v != "" && forall c <- v :: IsAlnum(c) {
        assert v in ws;
      }
      JoinedEnds(most);
    }
  }

  function Lead(marked: bool, t: string): string { if marked then "_" + t else t }

  function Trail(t: string, marked: bool): string { if marked then t + "_" else t }

  /** The words joined by underscores, with one more wherever the text does not begin or end with a word. */
  predicate MarkedWords(s: string, squashed: string) {
    if Words(s) == [] then squashed == (if s == "" then "" else "_") && (s != "" ==> !IsAlnum(s[0]))
    else s != "" && squashed == Trail(Lead(!IsAlnum(s[0]), Joined(Words(s))), !IsAlnum(s[|s| - 1]))
  }

  /** What one more character does to the words and to the first substitution. */
  lemma OneMore(most: string, last: char)
    ensures var s, before := most + [last], Words(most);
            && Words(s) == (if !IsAlnum(last) then before
                            else if most != "" && IsAlnum(most[|most| - 1])
                            then before[..|before| - 1] + [before[|before| - 1] + [last]]
                            else before + [[last]])
            && SquashOthers(s) == if IsAlnum(last) then SquashOthers(most) + [last]
                                  else Trail(SquashOthers(most), most == "" || IsAlnum(most[|most| - 1]))
  {
    var s := most + [last];
    assert s[..|s| - 1] == most && s[|s| - 1] == last;
  }

  lemma OtherMarked(most: string, last: char)
    requires MarkedWords(most, SquashOthers(most)) && !IsAlnum(last)
    ensures MarkedWords(most + [last], SquashOthers(most + [last]))
  {
    hide Words, SquashOthers, Joined;
    OneMore(most, last);
    assert most != "" ==> (most + [last])[0] == most[0];
  }

  lemma LetterMarked(most: string, last: char)
    requires MarkedWords(most, SquashOthers(most)) && IsAlnum(last) && most != "" && IsAlnum(most[|most| - 1])
    ensures MarkedWords(most + [last], SquashOthers(most + [last]))
  {
    hide Words, SquashOthers, Joined;
    OneMore(most, last);
    assert (most + [last])[0] == most[0];
    var ws := Words(most);
    LastWord(ws);
    JoinedLonger(ws[..|ws| - 1], ws[|ws| - 1], last);
    LeadLonger(!IsAlnum(most[0]), Joined(Words(most)), [last]);
  }

  lemma JoinedLonger(most: seq<string>, w: string, last: char)
    ensures Joined(most + [w + [last]]) == Joined(most + [w]) + [last]
  {
    hide Joined;
    JoinedSnoc(most, w);
    JoinedSnoc(most, w + [last]);
    Associates(Joined(most) + "_", w, [last]);
  }

  lemma LastWord(ws: seq<string>)
    requires ws != []
    ensures ws == ws[..|ws| - 1] + [ws[|ws| - 1]]
  {
  }

  lemma Associates(a: string, b: string, c: string)
    ensures a + (b + c) == a + b + c
  {
  }

  lemma LeadLonger(marked: bool, t: string, more: string)
    ensures Lead(marked, t) + more == Lead(marked, t + more)
  {
    assert "_" + t + more == "_" + (t + more);
  }

  lemma WordMarked(most: string, last: char)
    requires MarkedWords(most, SquashOthers(most)) && IsAlnum(last) && (most == "" || !IsAlnum(most[|most| - 1]))
    ensures MarkedWords(most + [last], SquashOthers(most + [last]))
  {
    hide Words, SquashOthers, Joined;
    var s, before := most + [last], Words(most);
    OneMore(most, last);
    assert most != "" ==> s[0] == most[0];
    JoinedSnoc(before, [last]);
    if before != [] {
      LeadLonger(!IsAlnum(s[0]), Joined(before), "_");
      LeadLonger(!IsAlnum(s[0]), Joined(before) + "_", [last]);
    }
  }

  lemma {:induction false} SquashedWords(s: string)
    ensures MarkedWords(s, SquashOthers(s))
  {
    if s != "" {
      var most, last := s[..|s| - 1], s[|s| - 1];
      assert s == most + [last];
      SquashedWords(most);
      if !IsAlnum(last) {
        OtherMarked(most, last);
      } else if most != "" && IsAlnum(most[|most| - 1]) {
        LetterMarked(most, last);
      } else {
        WordMarked(most, last);
      }
    }
  }

  lemma {:induction false} SkipLeft(a: string, s: string)
    requires forall c <- a :: !IsAlnum(c)
    ensures Words(a + s) == Words(s)
  {
    if s != "" {
      SkipLeft(a, s[..|s| - 1]);
      assert (a + s)[..|a + s| - 1] == a + s[..|s| - 1];
    } else if a != "" {
      assert a + s == a && a[|a| - 1] in a;
      assert a[..|a| - 1] + "" == a[..|a| - 1];
      SkipLeft(a[..|a| - 1], "");
    }
  }

  lemma {:induction false} SkipRight(s: string, b: string)
    requires forall c <- b :: !IsAlnum(c)
    ensures Words(s + b) == Words(s)
  {
    if b != "" {
      assert b[|b| - 1] in b;
      assert (s + b)[..|s + b| - 1] == s + b[..|b| - 1];
      SkipRight(s, b[..|b| - 1]);
    } else {
      assert s + b == s;
    }
  }

  lemma {:induction false} LowerConcat(s: string, t: string)
    ensures LowerAll(s + t) == LowerAll(s) + LowerAll(t)
  {
    hide Lower;
    if t == "" {
      assert s + t == s;
    } else {
      assert (s + t)[..|s + t| - 1] == s + t[..|t| - 1];
      LowerConcat(s, t[..|t| - 1]);
    }
  }

  lemma {:induction false} LowerSpaces(s: string)
    requires forall c <- s :: IsSpace(c)
    ensures LowerAll(s) == s
  {
    if s != "" {
      assert s[|s| - 1] in s && s == s[..|s| - 1] + [s[|s| - 1]];
      LowerSpaces(s[..|s| - 1]);
    }
  }

  lemma {:induction false} DroppedLeft(p: char -> bool, s: string) returns (a: string)
    ensures s == a + DropLeft(p, s) && forall c <- a :: p(c)
  {
    if s != "" && p(s[0]) {
      a := DroppedLeft(p, s[1..]);
      a := [s[0]] + a;
    } else {
      a := "";
    }
  }

  lemma {:induction false} DroppedRight(p: char -> bool, s: string) returns (b: string)
    ensures s == DropRight(p, s) + b && forall c <- b :: p(c)
  {
    if s != "" && p(s[|s| - 1]) {
      b := DroppedRight(p, s[..|s| - 1]);
      b := b + [s[|s| - 1]];
    } else {
      b := "";
    }
  }

  /** Stripping white space first makes no difference to the words. */
  lemma StrippingIsRedundant(value: string)
    ensures Words(LowerAll(Strip(IsSpace, value))) == Words(LowerAll(value))
  {
    hide LowerAll, DropLeft, DropRight, Words;
    var a := DroppedLeft(IsSpace, value);
    var rest := DropLeft(IsSpace, value);
    var b := DroppedRight(IsSpace, rest);
    var mid := DropRight(IsSpace, rest);
    LowerConcat(a, mid + b);
    LowerConcat(mid, b);
    LowerSpaces(a);
    LowerSpaces(b);
    assert forall c <- a + b :: !IsAlnum(c);
    assert value == a + (mid + b);
    SkipLeft(a, LowerAll(mid) + b);
    SkipRight(LowerAll(mid), b);
  }

  lemma StripMarks(t: string, first: bool, last: bool)
    requires t != "" && t[0] != '_' && t[|t| - 1] != '_'
    ensures Strip(IsUnderscore, Trail(Lead(first, t), last)) == t
  {
    hide DropLeft, DropRight;
    LeadLonger(first, t, "_");
    assert Trail(Lead(first, t), last) == Lead(first, Trail(t, last));
    MarkLeft(Trail(t, last), first);
    MarkRight(t, last);
  }

  lemma MarkLeft(t: string, first: bool)
    requires t != "" && t[0] != '_'
    ensures DropLeft(IsUnderscore, Lead(first, t)) == t
  {
    assert ("_" + t)[1..] == t;
  }

  lemma MarkRight(t: string, last: bool)
    requires t != "" && t[|t| - 1] != '_'
    ensures DropRight(IsUnderscore, Trail(t, last)) == t
  {
    assert (t + "_")[..|t|] == t;
  }

  /** Cleaning joins the words of the lower-cased text by single underscores, and does nothing else. */
  lemma CleaningJoinsTheWords(value: string)
    ensures Sanitize(value) == Joined(Words(LowerAll(value)))
  {
    hide Words, Joined, SquashOthers, SquashUnderscores, LowerAll;
    var lowered := LowerAll(Strip(IsSpace, value));
    StrippingIsRedundant(value);
    SquashedWords(lowered);
    SquashedIsPlain(lowered);
    SecondCollapseIsRedundant(SquashOthers(lowered));
    var ws := Words(lowered);
    if ws != [] {
      WordsAreWords(lowered);
      JoinedEnds(ws);
      StripMarks(Joined(ws), !IsAlnum(lowered[0]), !IsAlnum(lowered[|lowered| - 1]));
    } else {
      NoWords();
    }
  }

  lemma NoWords()
    ensures Joined([]) == "" && Strip(IsUnderscore, "_") == "" && Strip(IsUnderscore, "") == ""
  {
    assert "_"[1..] == "";
  }

  /** Lower case shifts the capitals A to Z; of the other characters two have an ASCII letter in their lower case. */
  lemma LowerCase(s: string, c: char)
    ensures LowerAll(s + [c]) == LowerAll(s) + LowerAll([c])
    ensures 'A' <= c <= 'Z' ==> |LowerAll([c])| == 1 && 'a' <= LowerAll([c])[0] <= 'z' && LowerAll([c])[0] - 'a' == c - 'A'
    ensures !('A' <= c <= 'Z') && c != '\U{212A}' && c != '\U{130}' ==> LowerAll([c]) == [c]
    ensures LowerAll("\U{212A}") == "k" && LowerAll("\U{130}") == "i\U{307}"
  {
    LowerConcat(s, [c]);
    assert [c][..0] == "" && "\U{212A}"[..0] == "" && "\U{130}"[..0] == "";
  }

  // ---------------------------------------------------------------------------
  // The table
  // ---------------------------------------------------------------------------

  predicate Names(b: BoundaryType, s: string) { s == b.key || s in b.aliases }

  /** Find returns the first entry that carries the name. */
  lemma {:induction false} FindsFirst(s: string, config: seq<BoundaryType>, i: nat)
    requires i < |config| && Names(config[i], s)
    requires forall j | 0 <= j < i :: !Names(config[j], s)
    ensures Find(s, config) == Some(config[i])
  {
    if i > 0 {
      FindsFirst(s, config[1..], i - 1);
    }
  }

  lemma {:induction false} FoundIsListed(s: string, config: seq<BoundaryType>)
    ensures Find(s, config).Some? ==> Find(s, config).value in config && Names(Find(s, config).value, s)
    ensures Find(s, config).None? ==> forall b <- config :: !Names(b, s)
  {
    if config != [] {
      FoundIsListed(s, config[1..]);
      assert config == [config[0]] + config[1..];
    }
  }

  /** No key of the table is an alias, or the key, of another entry. */
  lemma KeysNameOnlyThemselves(i: nat, j: nat)
    requires i < |BOUNDARY_TYPE_CONFIG| && j < |BOUNDARY_TYPE_CONFIG| && i != j
    ensures !Names(BOUNDARY_TYPE_CONFIG[j], BOUNDARY_TYPE_CONFIG[i].key)
  {
    hide BOUNDARY_TYPE_CONFIG;
    if j < 8 {
      KeyIsNoFewAlias(i, j);
    } else {
      KeyIsNoManyAlias(i, j);
    }
  }

  lemma KeyIsNoFewAlias(i: nat, j: nat)
    requires i < |BOUNDARY_TYPE_CONFIG| && j < 8 && i != j
    ensures !Names(BOUNDARY_TYPE_CONFIG[j], BOUNDARY_TYPE_CONFIG[i].key)
  {
  }

  lemma KeyIsNoManyAlias(i: nat, j: nat)
    requires i < |BOUNDARY_TYPE_CONFIG| && 8 <= j < |BOUNDARY_TYPE_CONFIG| && i != j
    ensures !Names(BOUNDARY_TYPE_CONFIG[j], BOUNDARY_TYPE_CONFIG[i].key)
  {
  }

  lemma KeysAreWords(i: nat)
    requires i < |BOUNDARY_TYPE_CONFIG|
    ensures BOUNDARY_TYPE_CONFIG[i].key != "" && forall c <- BOUNDARY_TYPE_CONFIG[i].key :: IsAlnum(c)
  {
  }

  lemma KeysAreCanonical(i: nat)
    requires i < |BOUNDARY_TYPE_CONFIG|
    ensures Canonical(BOUNDARY_TYPE_CONFIG[i].key) && BOUNDARY_TYPE_CONFIG[i].key != ""
  {
    hide BOUNDARY_TYPE_CONFIG;
    KeysAreWords(i);
    var key := BOUNDARY_TYPE_CONFIG[i].key;
    assert forall j | 0 <= j < |key| :: key[j] in key;
  }

  lemma FindKey(i: nat)
    requires i < |BOUNDARY_TYPE_CONFIG|
    ensures Find(BOUNDARY_TYPE_CONFIG[i].key, BOUNDARY_TYPE_CONFIG) == Some(BOUNDARY_TYPE_CONFIG[i])
  {
    forall j: nat | j < i ensures !Names(BOUNDARY_TYPE_CONFIG[j], BOUNDARY_TYPE_CONFIG[i].key) {
      KeysNameOnlyThemselves(i, j);
    }
    FindsFirst(BOUNDARY_TYPE_CONFIG[i].key, BOUNDARY_TYPE_CONFIG, i);
  }

  /** No two entries share a name. */
  lemma AliasesNameOneEntry(i: nat, j: nat, k: nat)
    requires i < |BOUNDARY_TYPE_CONFIG| && j < |BOUNDARY_TYPE_CONFIG| && i != j
    requires k < |BOUNDARY_TYPE_CONFIG[i].aliases|
    ensures !Names(BOUNDARY_TYPE_CONFIG[j], BOUNDARY_TYPE_CONFIG[i].aliases[k])
  {
    assert |BOUNDARY_TYPE_CONFIG| == 11;
    hide BOUNDARY_TYPE_CONFIG;
    if i < 8 {
      LandAliasesNameOneEntry(i, j, k);
    } else if i == 8 {
      RailAliasesNameOneEntry(j, k);
    } else if i == 9 {
      RiverAliasesNameOneEntry(j, k);
    } else {
      LakeAliasesNameOneEntry(j, k);
    }
  }

  lemma LandAliasesNameOneEntry(i: nat, j: nat, k: nat)
    requires i < 8 && j < |BOUNDARY_TYPE_CONFIG| && i != j && k < |BOUNDARY_TYPE_CONFIG[i].aliases|
    ensures !Names(BOUNDARY_TYPE_CONFIG[j], BOUNDARY_TYPE_CONFIG[i].aliases[k])
  {
  }

  lemma RailAliasesNameOneEntry(j: nat, k: nat)
    requires j < |BOUNDARY_TYPE_CONFIG| && j != 8 && k < |BOUNDARY_TYPE_CONFIG[8].aliases|
    ensures !Names(BOUNDARY_TYPE_CONFIG[j], BOUNDARY_TYPE_CONFIG[8].aliases[k])
  {
  }

  lemma RiverAliasesNameOneEntry(j: nat, k: nat)
    requires j < |BOUNDARY_TYPE_CONFIG| && j != 9 && k < |BOUNDARY_TYPE_CONFIG[9].aliases|
    ensures !Names(BOUNDARY_TYPE_CONFIG[j], BOUNDARY_TYPE_CONFIG[9].aliases[k])
  {
  }

  lemma LakeAliasesNameOneEntry(j: nat, k: nat)
    requires j < 10 && k < |BOUNDARY_TYPE_CONFIG[10].aliases|
    ensures !Names(BOUNDARY_TYPE_CONFIG[j], BOUNDARY_TYPE_CONFIG[10].aliases[k])
  {
  }

  /** Where the aliases of an entry have their one underscore, if any has. */
  function Joint(i: nat): nat {
    if i == 3 then 4 else if i == 4 then 3 else if i == 5 then 6 else if i == 6 then 8 else if i == 7 then 9 else 0
  }

  predicate WordPairAt(alias: string, j: nat, joint: nat)
    requires j < |alias|
  {
    IsAlnum(alias[j]) || (alias[j] == '_' && j == joint && 0 < j < |alias| - 1)
  }

  lemma AliasesAreWordPairs(i: nat, k: nat, j: nat)
    requires i < |BOUNDARY_TYPE_CONFIG| && k < |BOUNDARY_TYPE_CONFIG[i].aliases|
    requires j < |BOUNDARY_TYPE_CONFIG[i].aliases[k]|
    ensures WordPairAt(BOUNDARY_TYPE_CONFIG[i].aliases[k], j, Joint(i))
  {
    hide BOUNDARY_TYPE_CONFIG, Joint, WordPairAt;
    if i < 8 {
      FewAliasesAreWordPairs(i, k, j);
    } else {
      ManyAliasesAreWords(i, k, j);
    }
  }

  lemma FewAliasesAreWordPairs(i: nat, k: nat, j: nat)
    requires i < 8 && k < |BOUNDARY_TYPE_CONFIG[i].aliases| && j < |BOUNDARY_TYPE_CONFIG[i].aliases[k]|
    ensures WordPairAt(BOUNDARY_TYPE_CONFIG[i].aliases[k], j, Joint(i))
  {
  }

  lemma ManyAliasesAreWords(i: nat, k: nat, j: nat)
    requires 8 <= i < |BOUNDARY_TYPE_CONFIG| && k < |BOUNDARY_TYPE_CONFIG[i].aliases|
    requires j < |BOUNDARY_TYPE_CONFIG[i].aliases[k]|
    ensures WordPairAt(BOUNDARY_TYPE_CONFIG[i].aliases[k], j, Joint(i))
  {
  }

  lemma AliasesAreCanonical(i: nat, k: nat)
    requires i < |BOUNDARY_TYPE_CONFIG| && k < |BOUNDARY_TYPE_CONFIG[i].aliases|
    ensures Canonical(BOUNDARY_TYPE_CONFIG[i].aliases[k])
  {
    hide BOUNDARY_TYPE_CONFIG, Joint;
    var alias := BOUNDARY_TYPE_CONFIG[i].aliases[k];
    forall j: nat | j < |alias| ensures WordPairAt(alias, j, Joint(i)) {
      AliasesAreWordPairs(i, k, j);
    }
    WordPairIsCanonical(alias, Joint(i));
  }

  lemma WordPairIsCanonical(alias: string, joint: nat)
    requires forall j: nat | j < |alias| :: WordPairAt(alias, j, joint)
    ensures Canonical(alias)
  {
    forall c | c in alias ensures IsAlnum(c) || c == '_' {
      var j :| 0 <= j < |alias| && alias[j] == c;
      assert WordPairAt(alias, j, joint);
    }
    forall j | 0 <= j < |alias| - 1 ensures !(alias[j] == '_' && alias[j + 1] == '_') {
      assert WordPairAt(alias, j, joint) && WordPairAt(alias, j + 1, joint);
    }
    if alias != "" {
      assert WordPairAt(alias, 0, joint) && WordPairAt(alias, |alias| - 1, joint);
    }
  }

  lemma NothingIsCalledUnknown(i: nat)
    requires i < |BOUNDARY_TYPE_CONFIG|
    ensures !Names(BOUNDARY_TYPE_CONFIG[i], "unknown")
  {
  }

  lemma UnknownIsNotListed()
    ensures Canonical("unknown") && Find("unknown", BOUNDARY_TYPE_CONFIG).None?
  {
    hide Find, BOUNDARY_TYPE_CONFIG;
    FoundIsListed("unknown", BOUNDARY_TYPE_CONFIG);
    if Find("unknown", BOUNDARY_TYPE_CONFIG).Some? {
      var i :| 0 <= i < |BOUNDARY_TYPE_CONFIG| && Find("unknown", BOUNDARY_TYPE_CONFIG) == Some(BOUNDARY_TYPE_CONFIG[i]);
      NothingIsCalledUnknown(i);
    }
  }

  // ---------------------------------------------------------------------------
  // Main results
  // ---------------------------------------------------------------------------

  /** A normal form is never empty and has no leading, trailing or doubled underscore. */
  lemma NormalFormIsCanonical(value: Option<string>)
    ensures var n := NormalizeBoundaryType(value);
            && n != "" && n[0] != '_' && n[|n| - 1] != '_' && NoDoubledUnderscore(n) && Plain(n)
  {
    hide Find, Sanitize;
    UnknownIsNotListed();
    if value.Some? {
      SanitizedIsCanonical(value.value);
      FoundIsListed(Sanitize(value.value), BOUNDARY_TYPE_CONFIG);
      if Find(Sanitize(value.value), BOUNDARY_TYPE_CONFIG).Some? {
        var i :| 0 <= i < |BOUNDARY_TYPE_CONFIG| && Find(Sanitize(value.value), BOUNDARY_TYPE_CONFIG) == Some(BOUNDARY_TYPE_CONFIG[i]);
        KeysAreCanonical(i);
      }
    }
  }

  /** Normalising twice is normalising once. */
  lemma NormalizeIsIdempotent(value: Option<string>)
    ensures NormalizeBoundaryType(Some(NormalizeBoundaryType(value))) == NormalizeBoundaryType(value)
  {
    hide Find, Sanitize;
    UnknownIsNotListed();
    SanitizeFixes("unknown");
    if value.Some? && Sanitize(value.value) != "" {
      var s := Sanitize(value.value);
      SanitizedIsCanonical(value.value);
      FoundIsListed(s, BOUNDARY_TYPE_CONFIG);
      if Find(s, BOUNDARY_TYPE_CONFIG).Some? {
        var i :| 0 <= i < |BOUNDARY_TYPE_CONFIG| && Find(s, BOUNDARY_TYPE_CONFIG) == Some(BOUNDARY_TYPE_CONFIG[i]);
        KeysAreCanonical(i);
        FindKey(i);
        SanitizeFixes(BOUNDARY_TYPE_CONFIG[i].key);
      } else {
        SanitizeFixes(s);
      }
    }
  }

  lemma NamesOneEntry(s: string, i: nat, j: nat)
    requires i < |BOUNDARY_TYPE_CONFIG| && j < |BOUNDARY_TYPE_CONFIG|
    requires Names(BOUNDARY_TYPE_CONFIG[i], s) && Names(BOUNDARY_TYPE_CONFIG[j], s)
    ensures i == j
  {
    hide BOUNDARY_TYPE_CONFIG;
    if i != j {
      if s == BOUNDARY_TYPE_CONFIG[i].key {
        KeysNameOnlyThemselves(i, j);
      } else {
        var k :| 0 <= k < |BOUNDARY_TYPE_CONFIG[i].aliases| && BOUNDARY_TYPE_CONFIG[i].aliases[k] == s;
        AliasesNameOneEntry(i, j, k);
      }
    }
  }

  lemma NothingIsNameless(i: nat)
    requires i < |BOUNDARY_TYPE_CONFIG|
    ensures !Names(BOUNDARY_TYPE_CONFIG[i], "")
  {
  }

  /** A text normalises to a table key exactly if its cleaned form is that key or one of its aliases. */
  lemma NormalizesToKeyIff(value: string, i: nat)
    requires i < |BOUNDARY_TYPE_CONFIG|
    ensures NormalizeBoundaryType(Some(value)) == BOUNDARY_TYPE_CONFIG[i].key
       <==> Names(BOUNDARY_TYPE_CONFIG[i], Sanitize(value))
  {
    hide BOUNDARY_TYPE_CONFIG, Find, Sanitize;
    var s := Sanitize(value);
    NothingIsNameless(i);
    NothingIsCalledUnknown(i);
    FoundIsListed(s, BOUNDARY_TYPE_CONFIG);
    assert BOUNDARY_TYPE_CONFIG[i] in BOUNDARY_TYPE_CONFIG;
    if Find(s, BOUNDARY_TYPE_CONFIG).Some? {
      var j :| 0 <= j < |BOUNDARY_TYPE_CONFIG| && Find(s, BOUNDARY_TYPE_CONFIG) == Some(BOUNDARY_TYPE_CONFIG[j]);
      if Names(BOUNDARY_TYPE_CONFIG[i], s) {
        NamesOneEntry(s, i, j);
      } else if BOUNDARY_TYPE_CONFIG[j].key == BOUNDARY_TYPE_CONFIG[i].key {
        NamesOneEntry(BOUNDARY_TYPE_CONFIG[i].key, i, j);
      }
    }
  }

  /** Every alias in the table stands for its own entry. */
  lemma AliasNormalizesToItsKey(i: nat, k: nat)
    requires i < |BOUNDARY_TYPE_CONFIG| && k < |BOUNDARY_TYPE_CONFIG[i].aliases|
    ensures NormalizeBoundaryType(Some(BOUNDARY_TYPE_CONFIG[i].aliases[k])) == BOUNDARY_TYPE_CONFIG[i].key
  {
    hide BOUNDARY_TYPE_CONFIG, Sanitize;
    AliasesAreCanonical(i, k);
    SanitizeFixes(BOUNDARY_TYPE_CONFIG[i].aliases[k]);
    NormalizesToKeyIff(BOUNDARY_TYPE_CONFIG[i].aliases[k], i);
  }

  // ---------------------------------------------------------------------------
  // What is displayed
  // ---------------------------------------------------------------------------

  predicate IsLetter(c: char) { 'a' <= c <= 'z' }

  /** s.replace("_", " ").title(), for text of lower-case letters, digits and underscores */
  function Titled(s: string): string {
    if s == "" then "" else
      var before, last := Titled(s[..|s| - 1]), s[|s| - 1];
      if last == '_' then before + " "
      else if IsLetter(last) && !(|s| > 1 && IsLetter(s[|s| - 2])) then before + [(last as int - 32) as char]
      else before + [last]
  }

  function DisplayLabel(value: Option<string>): string {
    var n := NormalizeBoundaryType(value);
    var found := Lookup(n);
    if found.Some? then found.value.display
    else if n == "unknown" || n == "" then "Unknown Boundary"
    else Titled(n)
  }

  /** The entry under a key, as a dictionary lookup finds it. */
  function Lookup(key: string): Option<BoundaryType> { LookupIn(key, BOUNDARY_TYPE_CONFIG) }

  function LookupIn(key: string, config: seq<BoundaryType>): Option<BoundaryType> {
    if config == [] then None
    else if config[0].key == key then Some(config[0])
    else LookupIn(key, config[1..])
  }

  function Group(value: Option<string>): string {
    var found := Lookup(NormalizeBoundaryType(value));
    if found.Some? then found.value.group else "custom"
  }

  function Color(value: Option<string>): Option<string> {
    var found := Lookup(NormalizeBoundaryType(value));
    if found.Some? then Some(found.value.color) else None
  }

  /** Label, group and colour of a value are those of its normal form. */
  lemma DisplayAgreesWithNormalForm(value: Option<string>)
    ensures var n := Some(NormalizeBoundaryType(value));
            DisplayLabel(n) == DisplayLabel(value) && Group(n) == Group(value) && Color(n) == Color(value)
  {
    hide NormalizeBoundaryType, Lookup;
    NormalizeIsIdempotent(value);
  }

  /** A listed type shows what its entry says, however it was written. */
  lemma ListedTypeShowsItsEntry(value: string, i: nat)
    requires i < |BOUNDARY_TYPE_CONFIG| && Names(BOUNDARY_TYPE_CONFIG[i], Sanitize(value))
    ensures var b := BOUNDARY_TYPE_CONFIG[i];
            DisplayLabel(Some(value)) == b.display && Group(Some(value)) == b.group && Color(Some(value)) == Some(b.color)
  {
    hide BOUNDARY_TYPE_CONFIG, Sanitize, LookupIn;
    NormalizesToKeyIff(value, i);
    LooksUpKey(i);
  }

  lemma LooksUpKey(i: nat)
    requires i < |BOUNDARY_TYPE_CONFIG|
    ensures Lookup(BOUNDARY_TYPE_CONFIG[i].key) == Some(BOUNDARY_TYPE_CONFIG[i])
  {
    hide BOUNDARY_TYPE_CONFIG;
    forall j: nat | j < i ensures BOUNDARY_TYPE_CONFIG[j].key != BOUNDARY_TYPE_CONFIG[i].key {
      KeysNameOnlyThemselves(i, j);
    }
    LooksUpFirst(BOUNDARY_TYPE_CONFIG[i].key, BOUNDARY_TYPE_CONFIG, i);
  }

  lemma {:induction false} LooksUpFirst(key: string, config: seq<BoundaryType>, i: nat)
    requires i < |config| && config[i].key == key && forall j | 0 <= j < i :: config[j].key != key
    ensures LookupIn(key, config) == Some(config[i])
  {
    if i > 0 {
      LooksUpFirst(key, config[1..], i - 1);
    }
  }

  /** A type that no entry names is custom, without a colour, and is shown by its own words. */
  lemma UnlistedTypeShowsItself(value: string)
    requires forall b <- BOUNDARY_TYPE_CONFIG :: !Names(b, Sanitize(value))
    ensures Group(Some(value)) == "custom" && Color(Some(value)) == None
    ensures Sanitize(value) == "" || Sanitize(value) == "unknown" ==> DisplayLabel(Some(value)) == "Unknown Boundary"
    ensures Sanitize(value) != "" && Sanitize(value) != "unknown" ==> DisplayLabel(Some(value)) == Titled(Sanitize(value))
  {
    hide BOUNDARY_TYPE_CONFIG, Sanitize, Find, LookupIn;
    FoundIsListed(Sanitize(value), BOUNDARY_TYPE_CONFIG);
    UnknownIsNotListed();
    NotFoundNotLookedUp(Sanitize(value), BOUNDARY_TYPE_CONFIG);
    NotFoundNotLookedUp("unknown", BOUNDARY_TYPE_CONFIG);
  }

  /** No value at all is shown as unknown. */
  lemma NothingIsShownAsUnknown()
    ensures DisplayLabel(None) == "Unknown Boundary" && Group(None) == "custom" && Color(None) == None
  {
    hide BOUNDARY_TYPE_CONFIG, Find, LookupIn;
    UnknownIsNotListed();
    NotFoundNotLookedUp("unknown", BOUNDARY_TYPE_CONFIG);
  }

  lemma {:induction false} TitledLength(s: string)
    ensures |Titled(s)| == |s|
  {
    if s != "" {
      TitledLength(s[..|s| - 1]);
    }
  }

  /** Words begin with a capital, underscores become blanks, and nothing else changes. */
  lemma {:induction false} TitledWords(s: string, i: nat)
    requires i < |s|
    ensures |Titled(s)| == |s|
    ensures if s[i] == '_' then Titled(s)[i] == ' '
            else if 'a' <= s[i] <= 'z' && (i == 0 || !('a' <= s[i - 1] <= 'z'))
            then 'A' <= Titled(s)[i] <= 'Z' && Titled(s)[i] - 'A' == s[i] - 'a'
            else Titled(s)[i] == s[i]
  {
    TitledLength(s);
    TitledLength(s[..|s| - 1]);
    if i < |s| - 1 {
      TitledWords(s[..|s| - 1], i);
    }
  }

  // ---------------------------------------------------------------------------
  // Reading a label back
  // ---------------------------------------------------------------------------

  function Shown(c: char): char { if c == '_' then ' ' else c }

  function Spaced(s: string): string {
    if s == "" then "" else Spaced(s[..|s| - 1]) + [Shown(s[|s| - 1])]
  }

  /** The character that Titled puts for the last one of `s`. */
  function TitledLast(s: string): char
    requires s != ""
  {
    var last := s[|s| - 1];
    if last == '_' then ' '
    else if IsLetter(last) && !(|s| > 1 && IsLetter(s[|s| - 2])) then (last as int - 32) as char
    else last
  }

  lemma LowerTitledLast(s: string)
    requires s != "" && (IsAlnum(s[|s| - 1]) || s[|s| - 1] == '_')
    ensures Lower(TitledLast(s)) == [if s[|s| - 1] == '_' then ' ' else s[|s| - 1]]
    ensures s[|s| - 1] != '_' ==> !IsSpace(TitledLast(s))
  {
  }

  lemma LowerSnoc(s: string, c: char)
    ensures LowerAll(s + [c]) == LowerAll(s) + Lower(c)
  {
    assert (s + [c])[..|s|] == s;
  }

  lemma {:induction false} TitledLowersToSpaced(s: string)
    requires Plain(s)
    ensures LowerAll(Titled(s)) == Spaced(s)
    ensures |Titled(s)| == |s|
    ensures s != "" && s[0] != '_' ==> !IsSpace(Titled(s)[0])
    ensures s != "" && s[|s| - 1] != '_' ==> !IsSpace(Titled(s)[|s| - 1])
  {
    hide Lower, IsSpace;
    if s != "" {
      var most, last := s[..|s| - 1], s[|s| - 1];
      assert last in s && forall c <- most :: c in s;
      TitledLowersToSpaced(most);
      LowerTitledLast(s);
      assert Titled(s) == Titled(most) + [TitledLast(s)];
      LowerSnoc(Titled(most), TitledLast(s));
    }
  }

  lemma {:induction false} SquashUndoesSpacing(s: string)
    requires Plain(s) && NoDoubledUnderscore(s)
    ensures |Spaced(s)| == |s| && (s != "" ==> (IsAlnum(Spaced(s)[|s| - 1]) <==> s[|s| - 1] != '_'))
    ensures SquashOthers(Spaced(s)) == s
  {
    if s != "" {
      var most, last := s[..|s| - 1], s[|s| - 1];
      PlainPrefix(s);
      SquashUndoesSpacing(most);
      assert Spaced(s) == Spaced(most) + [Shown(last)];
      hide Spaced, SquashOthers, IsAlnum, Plain, NoDoubledUnderscore, Shown;
      SquashSnoc(Spaced(most), Shown(last));
      assert s == most + [last];
    }
  }

  lemma PlainPrefix(s: string)
    requires Plain(s) && NoDoubledUnderscore(s) && s != ""
    ensures var most, last := s[..|s| - 1], s[|s| - 1];
            && Plain(most) && NoDoubledUnderscore(most)
            && (IsAlnum(Shown(last)) <==> last != '_') && (last == '_' <==> Shown(last) == ' ') && (last != '_' ==> Shown(last) == last)
            && (last == '_' && most != "" ==> most[|most| - 1] != '_')
  {
    var most, last := s[..|s| - 1], s[|s| - 1];
    assert last in s && forall c <- most :: c in s;
  }

  lemma SquashSnoc(s: string, c: char)
    ensures SquashOthers(s + [c]) == SquashOthers(s) + if IsAlnum(c) then [c]
                                                       else if s != "" && !IsAlnum(s[|s| - 1]) then ""
                                                       else "_"
  {
    hide SquashOthers, IsAlnum;
    var t := s + [c];
    assert t != "" && t[..|t| - 1] == s && t[|t| - 1] == c;
    assert s != "" ==> t[|t| - 2] == s[|s| - 1];
    SquashLast(t);
  }

  lemma SquashLast(t: string)
    requires t != ""
    ensures SquashOthers(t) == SquashOthers(t[..|t| - 1]) + if IsAlnum(t[|t| - 1]) then [t[|t| - 1]]
                                                            else if |t| > 1 && !IsAlnum(t[|t| - 2]) then ""
                                                            else "_"
  {
    hide IsAlnum;
    var before := SquashOthers(t[..|t| - 1]);
    assert before + "" == before;
  }

  /** The label of a type that is not in the table normalises back to that type. */
  lemma CustomLabelReadsBack(value: Option<string>)
    requires Find(NormalizeBoundaryType(value), BOUNDARY_TYPE_CONFIG).None? && NormalizeBoundaryType(value) != "unknown"
    ensures NormalizeBoundaryType(Some(DisplayLabel(value))) == NormalizeBoundaryType(value)
  {
    hide Find, LowerAll, SquashOthers, SquashUnderscores, IsSpace, Titled, BOUNDARY_TYPE_CONFIG, LookupIn, Plain, NoDoubledUnderscore;
    var n := NormalizeBoundaryType(value);
    NormalFormIsCanonical(value);
    NotFoundNotLookedUp(n, BOUNDARY_TYPE_CONFIG);
    TitledLowersToSpaced(n);
    SquashUndoesSpacing(n);
    SecondCollapseIsRedundant(n);
    StripFixes(IsSpace, Titled(n));
    StripFixes(IsUnderscore, n);
  }

  lemma {:induction false} NotFoundNotLookedUp(s: string, config: seq<BoundaryType>)
    requires Find(s, config).None?
    ensures LookupIn(s, config).None?
  {
    if config != [] {
      NotFoundNotLookedUp(s, config[1..]);
    }
  }
}
