/**
 * Splitting a text into parts under a token budget: paragraphs, then sentences,
 * then lines, then runes. The counter is any function of the text.
 */
module Splitter {
  import opened Text
  import opened Seqs
  import opened Content

  type Counter = string -> int

  /** The rune classes that sentence splitting asks about, and case folding. */
  datatype RuneClasses = RuneClasses(
    isUpper: char -> bool,
    isDigit: char -> bool,
    isCJK: char -> bool,
    toLower: string -> string)

  /** What every level of the recursion is given. */
  datatype Setup = Setup(max: int, count: Counter, classes: RuneClasses) {
    predicate Fits(text: string) {
      count(text) <= max
    }

    /** Every rune of an erased text fits on its own. */
    ghost predicate RunesFit(erased: string) {
      forall r :: r in erased ==> Fits([r])
    }

    predicate Within(a: string, b: string, c: string) {
      count(TrimSpace(b)) <= count(TrimSpace(a + b + c))
    }

    /** No stretch of a text counts more than the text, outer white space aside. */
    ghost predicate Monotone() {
      forall a: string, b: string, c: string :: Within(a, b, c)
    }
  }

  // ----- runes -----

  /** The binary search over cut points, from the state (low, high, best). */
  function Bisect(fits: nat -> bool, low: nat, high: int, best: nat): (cut: nat)
    requires 1 <= low
    ensures cut == best || (low <= cut <= high && fits(cut))
    decreases high - low + 1
  {
    if low > high then best
    else
      var mid := (low + high) / 2;
      if fits(mid) then Bisect(fits, mid + 1, high, mid)
      else Bisect(fits, low, mid - 1, best)
  }

  function CutFits(s: Setup, runes: string): nat -> bool {
    (k: nat) => k <= |runes| && s.Fits(TrimSpace(runes[..k]))
  }

  function Cut(s: Setup, runes: string): (cut: nat)
    requires runes != ""
    ensures 1 <= cut <= |runes|
  {
    Bisect(CutFits(s, runes), 1, |runes|, 1)
  }

  function NonBlank(part: string): seq<string> {
    if part == "" then [] else [part]
  }

  function RuneParts(s: Setup, runes: string): seq<string>
    decreases |runes|
  {
    if runes == "" then []
    else
      var cut := Cut(s, runes);
      NonBlank(TrimSpace(runes[..cut])) + RuneParts(s, runes[cut..])
  }

  method SearchCut(fits: nat -> bool, length: nat) returns (best: nat)
    ensures best == Bisect(fits, 1, length, 1)
  {
    var low: nat, high: int := 1, length;
    best := 1;
    while low <= high
      invariant 1 <= low
      invariant Bisect(fits, low, high, best) == Bisect(fits, 1, length, 1)
      decreases high - low + 1
    {
      var mid := (low + high) / 2;
      if fits(mid) {
        best := mid;
        low := mid + 1;
      } else {
        high := mid - 1;
      }
    }
  }

  method BestCut(s: Setup, runes: string) returns (best: nat)
    requires runes != ""
    ensures best == Cut(s, runes)
  {
    best := SearchCut(CutFits(s, runes), |runes|);
  }

  /** splitRunesByTokenBudget. */
  method SplitRunesByTokenBudget(s: Setup, text: string) returns (parts: seq<string>)
    ensures parts == if s.max <= 0 || text == "" then [text] else RuneParts(s, text)
  {
    if s.max <= 0 || text == "" {
      return [text];
    }
    var runes := text;
    parts := [];
    while |runes| > 0
      invariant parts + RuneParts(s, runes) == RuneParts(s, text)
    {
      var best := BestCut(s, runes);
      var part := TrimSpace(runes[..best]);
      Assoc(parts, NonBlank(part), RuneParts(s, runes[best..]));
      parts := parts + NonBlank(part);
      runes := runes[best..];
    }
  }

  // ----- sentences, lines and paragraphs -----

  predicate IsSentenceBoundary(r: char) {
    r in ".!?;" || r == '\U{3002}' || r == '\U{FF01}' || r == '\U{FF1F}' || r == '\U{FF1B}'
  }

  const ABBREVIATIONS := {"mr.", "mrs.", "ms.", "dr.", "prof.", "sr.", "jr.", "vs.", "etc.", "e.g.", "i.e."}

  function TokenStart(runes: string, index: nat): (start: nat)
    requires index <= |runes|
    ensures start <= index
  {
    if index == 0 || IsSpace(runes[index - 1]) then index else TokenStart(runes, index - 1)
  }

  function PreviousToken(c: RuneClasses, runes: string, index: nat): string
    requires index < |runes|
  {
    c.toLower(TrimSpace(runes[TokenStart(runes, index)..index + 1]))
  }

  function SkipSpaces(runes: string, index: nat): (r: nat)
    requires index < |runes|
    ensures index <= r < |runes|
    decreases |runes| - index
  {
    if index + 1 < |runes| && IsSpace(runes[index + 1]) then SkipSpaces(runes, index + 1) else index
  }

  predicate ShouldSplitSentence(c: RuneClasses, runes: string, index: nat)
    requires index < |runes|
  {
    if && runes[index] == '.' && 0 < index && index + 1 < |runes|
       && c.isDigit(runes[index - 1]) && c.isDigit(runes[index + 1]) then false
    else if runes[index] == '.' && PreviousToken(c, runes, index) in ABBREVIATIONS then false
    else
      var last := SkipSpaces(runes, index);
      last + 1 >= |runes|
      || c.isUpper(runes[last + 1]) || c.isDigit(runes[last + 1]) || c.isCJK(runes[last + 1])
  }

  /** The cut test at every position of a text. */
  function SentenceEnds(c: RuneClasses, runes: string): nat -> bool {
    (i: nat) => i < |runes| && IsSentenceBoundary(runes[i]) && ShouldSplitSentence(c, runes, i)
  }

  function PiecesFrom(runes: string, ends: nat -> bool, start: nat, i: nat): seq<string>
    requires start <= i <= |runes|
    decreases |runes| - i
  {
    if i == |runes| then NonBlank(TrimSpace(runes[start..]))
    else if ends(i) then NonBlank(TrimSpace(runes[start..i + 1])) + PiecesFrom(runes, ends, i + 1, i + 1)
    else PiecesFrom(runes, ends, start, i + 1)
  }

  function SentenceUnits(c: RuneClasses, text: string): seq<string> {
    var runes := TrimSpace(text);
    PiecesFrom(runes, SentenceEnds(c, runes), 0, 0)
  }

  /** splitSentenceUnits: the loop over the runes. The text itself, its fallback when no unit is
      left, would be dead code: a text that is not blank has units that spell it. */
  method SplitSentenceUnits(c: RuneClasses, text: string) returns (units: seq<string>)
    ensures units == SentenceUnits(c, text)
  {
    var runes := TrimSpace(text);
    var ends := SentenceEnds(c, runes);
    units := [];
    var start, i := 0, 0;
    while i < |runes|
      invariant start <= i <= |runes|
      invariant units + PiecesFrom(runes, ends, start, i) == PiecesFrom(runes, ends, 0, 0)
    {
      if ends(i) {
        var part := TrimSpace(runes[start..i + 1]);
        Assoc(units, NonBlank(part), PiecesFrom(runes, ends, i + 1, i + 1));
        units := units + NonBlank(part);
        start := i + 1;
      }
      i := i + 1;
    }
    if start < |runes| {
      units := units + NonBlank(TrimSpace(runes[start..]));
    }
  }

  /** The trimmed members that are not blank. */
  function Units(raw: seq<string>): seq<string> {
    if raw == [] then [] else NonBlank(TrimSpace(raw[0])) + Units(raw[1..])
  }

  function LineUnits(text: string): seq<string> {
    Units(Split(text, "\n"))
  }

  function ParagraphUnits(text: string): seq<string> {
    Units(Split(TrimSpace(CollapseBlankLines(text)), "\n\n"))
  }

  lemma PieceConserves(runes: string, start: nat, cut: nat, rest: seq<string>)
    requires start <= cut <= |runes| && EraseAll(rest) == Erase(runes[cut..])
    ensures EraseAll(NonBlank(TrimSpace(runes[start..cut])) + rest) == Erase(runes[start..])
  {
    NonBlankErase(runes[start..cut]);
    EraseAllAppend(NonBlank(TrimSpace(runes[start..cut])), rest);
    EraseAppend(runes[start..cut], runes[cut..]);
    assert runes[start..] == runes[start..cut] + runes[cut..];
  }

  lemma {:induction false} PiecesConserve(runes: string, ends: nat -> bool, start: nat, i: nat)
    requires start <= i <= |runes|
    ensures EraseAll(PiecesFrom(runes, ends, start, i)) == Erase(runes[start..])
    decreases |runes| - i
  {
    if i == |runes| {
      NonBlankErase(runes[start..]);
    } else if ends(i) {
      PiecesConserve(runes, ends, i + 1, i + 1);
      PieceConserves(runes, start, i + 1, PiecesFrom(runes, ends, i + 1, i + 1));
    } else {
      PiecesConserve(runes, ends, start, i + 1);
    }
  }

  lemma SentenceUnitsConserve(c: RuneClasses, text: string)
    ensures EraseAll(SentenceUnits(c, text)) == Erase(text)
  {
    var runes := TrimSpace(text);
    PiecesConserve(runes, SentenceEnds(c, runes), 0, 0);
    assert runes[0..] == runes;
    EraseTrim(text);
  }

  lemma NonBlankErase(part: string)
    ensures EraseAll(NonBlank(TrimSpace(part))) == Erase(part)
  {
    EraseTrim(part);
    EraseAllOne(TrimSpace(part));
  }

  lemma {:induction false} UnitsConserve(raw: seq<string>)
    ensures EraseAll(Units(raw)) == EraseAll(raw)
    ensures TotalLength(Units(raw)) <= TotalLength(raw) && |Units(raw)| <= |raw|
  {
    if raw != [] {
      UnitsConserve(raw[1..]);
      NonBlankErase(raw[0]);
      EraseAllAppend(NonBlank(TrimSpace(raw[0])), Units(raw[1..]));
      if TrimSpace(raw[0]) == "" {
        assert Units(raw) == Units(raw[1..]);
      } else {
        assert Units(raw)[1..] == Units(raw[1..]);
      }
    }
  }

  lemma LineUnitsFacts(text: string)
    ensures EraseAll(LineUnits(text)) == Erase(text)
    ensures TotalLength(LineUnits(text)) <= |text|
    ensures |LineUnits(text)| > 1 ==> TotalLength(LineUnits(text)) < |text|
  {
    EraseSpaces("\n");
    EraseSplit(text, "\n");
    SplitShrinks(text, "\n");
    UnitsConserve(Split(text, "\n"));
  }

  lemma ParagraphUnitsConserve(text: string)
    ensures EraseAll(ParagraphUnits(text)) == Erase(text)
  {
    EraseSpaces("\n\n");
    EraseCollapse(text);
    EraseTrim(CollapseBlankLines(text));
    EraseSplit(TrimSpace(CollapseBlankLines(text)), "\n\n");
    UnitsConserve(Split(TrimSpace(CollapseBlankLines(text)), "\n\n"));
  }

  // ----- the greedy packer and its mutual recursion with the oversized unit -----

  function Candidate(current: seq<string>, sep: string): string {
    TrimSpace(Join(current, sep))
  }

  function Flushed(current: seq<string>, sep: string): seq<string> {
    if current == [] then [] else [Candidate(current, sep)]
  }

  function Flag(preferSentences: bool): nat {
    if preferSentences then 1 else 0
  }

  /** combineUnitsByBudget from the state where `current` is open and `units` are still to come. */
  function Pack(s: Setup, units: seq<string>, current: seq<string>, preferSentences: bool, sep: string): seq<string>
    decreases Flag(preferSentences), TotalLength(units), 1, |units|
  {
    if units == [] then Flushed(current, sep)
    else
      var unit, rest := TrimSpace(units[0]), units[1..];
      if unit == "" then Pack(s, rest, current, preferSentences, sep)
      else if current != [] && s.Fits(Candidate(current + [unit], sep)) then
        Pack(s, rest, current + [unit], preferSentences, sep)
      else if s.Fits(unit) then
        Flushed(current, sep) + Pack(s, rest, [unit], preferSentences, sep)
      else
        Flushed(current, sep) + SplitOversized(s, unit, preferSentences) + Pack(s, rest, [], preferSentences, sep)
  }

  /** splitOversizedUnit. */
  function SplitOversized(s: Setup, unit: string, preferSentences: bool): seq<string>
    decreases Flag(preferSentences), |unit|, 0, 0
  {
    LineUnitsFacts(unit);
    var sentences := if preferSentences then SentenceUnits(s.classes, unit) else [];
    if |sentences| > 1 then Pack(s, sentences, [], false, " ")
    else
      var lines := LineUnits(unit);
      if |lines| > 1 then Pack(s, lines, [], false, "\n")
      else if s.max <= 0 || unit == "" then [unit]
      else RuneParts(s, unit)
  }

  method CombineUnitsByBudget(s: Setup, units: seq<string>, preferSentences: bool, sep: string)
    returns (parts: seq<string>)
    ensures parts == Pack(s, units, [], preferSentences, sep)
    decreases Flag(preferSentences), TotalLength(units), 1
  {
    parts := [];
    var current: seq<string> := [];
    var todo := units;
    while |todo| > 0
      invariant TotalLength(todo) <= TotalLength(units)
      invariant parts + Pack(s, todo, current, preferSentences, sep) == Pack(s, units, [], preferSentences, sep)
    {
      var unit := TrimSpace(todo[0]);
      todo := todo[1..];
      if unit != "" {
        if current != [] && s.Fits(Candidate(current + [unit], sep)) {
          current := current + [unit];
        } else if s.Fits(unit) {
          Assoc(parts, Flushed(current, sep), Pack(s, todo, [unit], preferSentences, sep));
          parts := parts + Flushed(current, sep);
          current := [unit];
        } else {
          var pieces := SplitOversizedUnit(s, unit, preferSentences);
          Assoc(parts, Flushed(current, sep) + pieces, Pack(s, todo, [], preferSentences, sep));
          Assoc(parts, Flushed(current, sep), pieces);
          parts := parts + Flushed(current, sep) + pieces;
          current := [];
        }
      }
    }
    parts := parts + Flushed(current, sep);
  }

  method SplitOversizedUnit(s: Setup, unit: string, preferSentences: bool) returns (parts: seq<string>)
    ensures parts == SplitOversized(s, unit, preferSentences)
    decreases Flag(preferSentences), |unit|, 0
  {
    LineUnitsFacts(unit);
    if preferSentences {
      var sentences := SplitSentenceUnits(s.classes, unit);
      if |sentences| > 1 {
        parts := CombineUnitsByBudget(s, sentences, false, " ");
        return;
      }
    }
    var lines := LineUnits(unit);
    if |lines| > 1 {
      parts := CombineUnitsByBudget(s, lines, false, "\n");
    } else {
      parts := SplitRunesByTokenBudget(s, unit);
    }
  }

  // ----- nothing is lost -----

  lemma {:induction false} RunePartsConserve(s: Setup, runes: string)
    ensures EraseAll(RuneParts(s, runes)) == Erase(runes)
    decreases |runes|
  {
    if runes != "" {
      var cut := Cut(s, runes);
      RunePartsConserve(s, runes[cut..]);
      NonBlankErase(runes[..cut]);
      EraseAllAppend(NonBlank(TrimSpace(runes[..cut])), RuneParts(s, runes[cut..]));
      EraseAppend(runes[..cut], runes[cut..]);
      assert runes == runes[..cut] + runes[cut..];
    }
  }

  lemma FlushedConserves(current: seq<string>, sep: string)
    requires Erase(sep) == ""
    ensures EraseAll(Flushed(current, sep)) == EraseAll(current)
  {
    EraseJoin(current, sep);
    EraseTrim(Join(current, sep));
    EraseAllOne(Candidate(current, sep));
  }

  lemma OpenConserves(current: seq<string>, unit: string)
    ensures EraseAll(current + [unit]) == EraseAll(current) + Erase(unit)
  {
    EraseAllAppend(current, [unit]);
    EraseAllOne(unit);
  }

  lemma ThreeConserve(a: seq<string>, b: seq<string>, c: seq<string>)
    ensures EraseAll(a + b + c) == EraseAll(a) + EraseAll(b) + EraseAll(c)
  {
    EraseAllAppend(a + b, c);
    EraseAllAppend(a, b);
  }

  lemma {:induction false} PackConserves(s: Setup, units: seq<string>, current: seq<string>, preferSentences: bool,
                                         sep: string)
    requires Erase(sep) == ""
    ensures EraseAll(Pack(s, units, current, preferSentences, sep)) == EraseAll(current) + EraseAll(units)
    decreases Flag(preferSentences), TotalLength(units), 1, |units|
  {
    FlushedConserves(current, sep);
    if units != [] {
      var unit, rest := TrimSpace(units[0]), units[1..];
      EraseTrim(units[0]);
      Assoc(EraseAll(current), Erase(unit), EraseAll(rest));
      if unit == "" {
        PackConserves(s, rest, current, preferSentences, sep);
        assert EraseAll(units) == EraseAll(rest);
      } else if current != [] && s.Fits(Candidate(current + [unit], sep)) {
        PackConserves(s, rest, current + [unit], preferSentences, sep);
        OpenConserves(current, unit);
      } else if s.Fits(unit) {
        PackConserves(s, rest, [unit], preferSentences, sep);
        EraseAllOne(unit);
        EraseAllAppend(Flushed(current, sep), Pack(s, rest, [unit], preferSentences, sep));
        assert EraseAll(Pack(s, units, current, preferSentences, sep)) ==
          EraseAll(current) + (Erase(unit) + EraseAll(rest));
      } else {
        PackConserves(s, rest, [], preferSentences, sep);
        OversizedConserves(s, unit, preferSentences);
        ThreeConserve(Flushed(current, sep), SplitOversized(s, unit, preferSentences),
          Pack(s, rest, [], preferSentences, sep));
        assert EraseAll([]) + EraseAll(rest) == EraseAll(rest);
      }
    }
  }

  lemma {:induction false} OversizedConserves(s: Setup, unit: string, preferSentences: bool)
    ensures EraseAll(SplitOversized(s, unit, preferSentences)) == Erase(unit)
    decreases Flag(preferSentences), |unit|, 0, 0
  {
    LineUnitsFacts(unit);
    EraseSpaces(" ");
    EraseSpaces("\n");
    EraseAllOne(unit);
    var sentences := if preferSentences then SentenceUnits(s.classes, unit) else [];
    if |sentences| > 1 {
      SentenceUnitsConserve(s.classes, unit);
      PackConserves(s, sentences, [], false, " ");
    } else if |LineUnits(unit)| > 1 {
      PackConserves(s, LineUnits(unit), [], false, "\n");
    } else {
      RunePartsConserve(s, unit);
    }
  }

  // ----- every part is within the budget -----

  ghost predicate AllFit(s: Setup, parts: seq<string>) {
    forall p :: p in parts ==> s.Fits(p)
  }

  /** Trimmed parts with something in them. */
  ghost predicate Solid(parts: seq<string>) {
    forall p :: p in parts ==> p != "" && Trimmed(p)
  }

  lemma {:induction false} RunePartsFit(s: Setup, runes: string)
    requires s.RunesFit(Erase(runes))
    ensures AllFit(s, RuneParts(s, runes))
    decreases |runes|
  {
    if runes != "" {
      var cut := Cut(s, runes);
      EraseAppend(runes[..cut], runes[cut..]);
      assert runes == runes[..cut] + runes[cut..];
      RunePartsFit(s, runes[cut..]);
      if cut == 1 {
        OneRuneFits(s, runes[..1]);
      }
    }
  }

  lemma OneRuneFits(s: Setup, rune: string)
    requires |rune| == 1 && s.RunesFit(Erase(rune))
    ensures TrimSpace(rune) == "" || s.Fits(TrimSpace(rune))
  {
    var part := TrimSpace(rune);
    if part != "" {
      EraseTrim(rune);
      TrimSpaceTrims(rune);
      assert part == [part[0]];
      EraseMember(part, part[0]);
      assert part[0] in Erase(rune);
    }
  }

  lemma {:induction false} RunePartsSolid(s: Setup, runes: string)
    ensures Solid(RuneParts(s, runes))
    decreases |runes|
  {
    if runes != "" {
      var cut := Cut(s, runes);
      RunePartsSolid(s, runes[cut..]);
      TrimSpaceTrims(runes[..cut]);
    }
  }

  /** The open units are trimmed and together within the budget. */
  ghost predicate Open(s: Setup, current: seq<string>, sep: string) {
    current != [] ==> s.Fits(Candidate(current, sep)) && Candidate(current, sep) != ""
  }

  lemma CandidateFacts(current: seq<string>, sep: string)
    ensures Trimmed(Candidate(current, sep))
    ensures Erase(sep) == "" && EraseAll(current) != "" ==> Candidate(current, sep) != ""
  {
    TrimSpaceTrims(Join(current, sep));
    if Erase(sep) == "" {
      EraseJoin(current, sep);
      EraseTrim(Join(current, sep));
    }
  }

  /** What the budget asks of parts: within it, trimmed and not empty. */
  ghost predicate Good(s: Setup, parts: seq<string>) {
    AllFit(s, parts) && Solid(parts)
  }

  lemma GoodAppend(s: Setup, a: seq<string>, b: seq<string>)
    requires Good(s, a) && Good(s, b)
    ensures Good(s, a + b)
  {}

  lemma FlushedGood(s: Setup, current: seq<string>, sep: string)
    requires Open(s, current, sep)
    ensures Good(s, Flushed(current, sep))
  {
    TrimSpaceTrims(Join(current, sep));
  }

  lemma OpenGrows(s: Setup, current: seq<string>, unit: string, sep: string)
    requires Erase(sep) == "" && Erase(unit) != "" && s.Fits(Candidate(current + [unit], sep))
    ensures Open(s, current + [unit], sep)
  {
    OpenConserves(current, unit);
    CandidateFacts(current + [unit], sep);
  }

  lemma SingleCandidate(unit: string, sep: string)
    requires Trimmed(unit)
    ensures Candidate([unit], sep) == unit
  {
    TrimmedStays(unit);
  }

  lemma {:induction false} PackFits(s: Setup, units: seq<string>, current: seq<string>, preferSentences: bool,
                                    sep: string)
    requires s.max > 0 && Erase(sep) == ""
    requires Open(s, current, sep) && s.RunesFit(EraseAll(units))
    ensures Good(s, Pack(s, units, current, preferSentences, sep))
    decreases Flag(preferSentences), TotalLength(units), 1, |units|
  {
    if units == [] {
      FlushedGood(s, current, sep);
    } else {
      var unit, rest := TrimSpace(units[0]), units[1..];
      EraseTrim(units[0]);
      TrimSpaceTrims(units[0]);
      if unit == "" {
        PackFits(s, rest, current, preferSentences, sep);
      } else if current != [] && s.Fits(Candidate(current + [unit], sep)) {
        OpenGrows(s, current, unit, sep);
        PackFits(s, rest, current + [unit], preferSentences, sep);
      } else if s.Fits(unit) {
        SingleCandidate(unit, sep);
        FlushedGood(s, current, sep);
        PackFits(s, rest, [unit], preferSentences, sep);
        GoodAppend(s, Flushed(current, sep), Pack(s, rest, [unit], preferSentences, sep));
      } else {
        FlushedGood(s, current, sep);
        OversizedFits(s, unit, preferSentences);
        GoodAppend(s, Flushed(current, sep), SplitOversized(s, unit, preferSentences));
        PackFits(s, rest, [], preferSentences, sep);
        GoodAppend(s, Flushed(current, sep) + SplitOversized(s, unit, preferSentences),
          Pack(s, rest, [], preferSentences, sep));
      }
    }
  }

  lemma {:induction false} OversizedFits(s: Setup, unit: string, preferSentences: bool)
    requires s.max > 0 && unit != "" && s.RunesFit(Erase(unit))
    ensures Good(s, SplitOversized(s, unit, preferSentences))
    decreases Flag(preferSentences), |unit|, 0, 0
  {
    LineUnitsFacts(unit);
    EraseSpaces(" ");
    EraseSpaces("\n");
    var sentences := if preferSentences then SentenceUnits(s.classes, unit) else [];
    if |sentences| > 1 {
      SentenceUnitsConserve(s.classes, unit);
      PackFits(s, sentences, [], false, " ");
    } else if |LineUnits(unit)| > 1 {
      PackFits(s, LineUnits(unit), [], false, "\n");
    } else {
      RunePartsFit(s, unit);
      RunePartsSolid(s, unit);
    }
  }

  // ----- the whole text and the whole fragment -----

  /** splitTextByTokenBudget. */
  function SplitText(s: Setup, text: string, preferSentences: bool): seq<string> {
    var body := TrimSpace(ReplaceAll(text, "\r\n", "\n"));
    if body == "" || s.max <= 0 || s.Fits(body) then [body]
    else Pack(s, ParagraphUnits(body), [], preferSentences, "\n\n")
  }

  lemma SplitTextFacts(s: Setup, text: string, preferSentences: bool)
    requires s.max > 0 && !Blank(text)
    ensures EraseAll(SplitText(s, text, preferSentences)) == Erase(text)
    ensures s.RunesFit(Erase(text)) ==>
      Good(s, SplitText(s, text, preferSentences))
  {
    var raw := ReplaceAll(text, "\r\n", "\n");
    var body := TrimSpace(raw);
    EraseSpaces("\r\n");
    EraseSpaces("\n");
    EraseSpaces("\n\n");
    EraseReplaceAll(text, "\r\n", "\n");
    EraseTrim(raw);
    EraseTrim(text);
    TrimSpaceTrims(raw);
    EraseAllOne(body);
    ParagraphUnitsConserve(body);
    PackConserves(s, ParagraphUnits(body), [], preferSentences, "\n\n");
    if s.RunesFit(Erase(text)) && !s.Fits(body) {
      PackFits(s, ParagraphUnits(body), [], preferSentences, "\n\n");
    }
  }

  method SplitTextByTokenBudget(s: Setup, text: string, preferSentences: bool) returns (parts: seq<string>)
    ensures parts == SplitText(s, text, preferSentences)
  {
    var body := TrimSpace(ReplaceAll(text, "\r\n", "\n"));
    if body == "" || s.max <= 0 || s.Fits(body) {
      return [body];
    }
    parts := CombineUnitsByBudget(s, ParagraphUnits(body), preferSentences, "\n\n");
  }

  predicate Structured(kind: string) {
    TrimSpace(kind) in {"code", "json", "table"}
  }

  /** rebuildFragments. */
  function Rebuild(fragment: Fragment, parts: seq<string>): seq<Fragment> {
    if parts == [] then []
    else RebuildOne(fragment, parts[0]) + Rebuild(fragment, parts[1..])
  }

  /** The fragment with one part as its content; a blank part is dropped. */
  function RebuildOne(fragment: Fragment, part: string): seq<Fragment> {
    if Blank(part) then [] else [fragment.(content := TrimSpace(part))]
  }

  method RebuildFragments(fragment: Fragment, parts: seq<string>) returns (out: seq<Fragment>)
    ensures out == Rebuild(fragment, parts)
  {
    out := [];
    var todo := parts;
    while |todo| > 0
      invariant out + Rebuild(fragment, todo) == Rebuild(fragment, parts)
    {
      Assoc(out, RebuildOne(fragment, todo[0]), Rebuild(fragment, todo[1..]));
      out := out + RebuildOne(fragment, todo[0]);
      todo := todo[1..];
    }
  }

  method SplitFragmentByTokenBudget(s: Setup, fragment: Fragment) returns (out: seq<Fragment>)
    ensures out == SplitFragment(s, fragment)
  {
    var content := TrimSpace(fragment.content);
    if content == "" {
      return [];
    }
    if s.max <= 0 || s.Fits(content) {
      return [fragment.(content := content)];
    }
    var parts := SplitTextByTokenBudget(s, content, !Structured(fragment.kind));
    out := RebuildFragments(fragment, parts);
  }

  /** SplitFragmentByTokenBudget. */
  function SplitFragment(s: Setup, fragment: Fragment): seq<Fragment> {
    var content := TrimSpace(fragment.content);
    if content == "" then []
    else if s.max <= 0 || s.Fits(content) then [fragment.(content := content)]
    else Rebuild(fragment, SplitText(s, content, !Structured(fragment.kind)))
  }

  lemma {:induction false} RebuildFacts(fragment: Fragment, parts: seq<string>)
    ensures EraseAll(Contents(Rebuild(fragment, parts))) == EraseAll(parts)
    ensures forall f :: f in Rebuild(fragment, parts) ==>
      f.content != "" && Trimmed(f.content) && f.kind == fragment.kind && f.language == fragment.language
  {
    if parts != [] {
      var head := RebuildOne(fragment, parts[0]);
      RebuildFacts(fragment, parts[1..]);
      ContentsAppend(head, Rebuild(fragment, parts[1..]));
      assert Contents(head) == NonBlank(TrimSpace(parts[0]));
      EraseAllAppend(Contents(head), Contents(Rebuild(fragment, parts[1..])));
      NonBlankErase(parts[0]);
      TrimSpaceTrims(parts[0]);
    }
  }

  lemma {:induction false} RebuildFits(s: Setup, fragment: Fragment, parts: seq<string>)
    requires Good(s, parts)
    ensures forall f :: f in Rebuild(fragment, parts) ==> s.Fits(f.content)
  {
    if parts != [] {
      assert parts[0] in parts && forall p :: p in parts[1..] ==> p in parts;
      TrimmedStays(parts[0]);
      RebuildFits(s, fragment, parts[1..]);
    }
  }

  /** Splitting a fragment keeps its kind and language and loses no rune; the parts are trimmed and not empty. */
  lemma SplitFragmentKeeps(s: Setup, fragment: Fragment)
    ensures EraseAll(Contents(SplitFragment(s, fragment))) == Erase(fragment.content)
    ensures forall f :: f in SplitFragment(s, fragment) ==>
      f.content != "" && Trimmed(f.content) && f.kind == fragment.kind && f.language == fragment.language
  {
    var content := TrimSpace(fragment.content);
    EraseTrim(fragment.content);
    TrimSpaceTrims(fragment.content);
    if content != "" {
      TrimIdempotent(fragment.content);
      if s.max <= 0 || s.Fits(content) {
        EraseAllOne(content);
        assert Contents(SplitFragment(s, fragment)) == [content];
      } else {
        SplitTextFacts(s, content, !Structured(fragment.kind));
        RebuildFacts(fragment, SplitText(s, content, !Structured(fragment.kind)));
      }
    }
  }

  /** Every part is within the budget when every rune that is not white space fits on its own. */
  lemma SplitFragmentFits(s: Setup, fragment: Fragment)
    requires s.max > 0 && s.RunesFit(Erase(fragment.content))
    ensures forall f :: f in SplitFragment(s, fragment) ==> s.Fits(f.content)
  {
    var content := TrimSpace(fragment.content);
    EraseTrim(fragment.content);
    if content != "" && !s.Fits(content) {
      TrimIdempotent(fragment.content);
      SplitTextFacts(s, content, !Structured(fragment.kind));
      RebuildFits(s, fragment, SplitText(s, content, !Structured(fragment.kind)));
    }
  }

  lemma {:induction false} ContentsMember(fragments: seq<Fragment>, i: nat)
    requires i < |Contents(fragments)|
    ensures |Contents(fragments)| == |fragments| && Contents(fragments)[i] == fragments[i].content
  {
    if i > 0 {
      ContentsMember(fragments[1..], i - 1);
    } else if |fragments| > 1 {
      ContentsMember(fragments[1..], 0);
    }
  }

  lemma RuneOfPartFits(s: Setup, part: string, r: char)
    requires s.Monotone() && Trimmed(part) && s.Fits(part) && r in part && !IsSpace(r)
    ensures s.Fits([r])
  {
    var k :| 0 <= k < |part| && part[k] == r;
    assert part == part[..k] + [r] + part[k + 1..];
    assert s.Within(part[..k], [r], part[k + 1..]);
    TrimmedStays([r]);
    TrimmedStays(part);
  }

  /** For a monotone counter the budget is met exactly when every rune that is not white space fits on its own. */
  lemma SplitFragmentFitsExactly(s: Setup, fragment: Fragment)
    requires s.max > 0 && s.Monotone()
    ensures (forall f :: f in SplitFragment(s, fragment) ==> s.Fits(f.content)) <==> s.RunesFit(Erase(fragment.content))
  {
    var parts := SplitFragment(s, fragment);
    if s.RunesFit(Erase(fragment.content)) {
      SplitFragmentFits(s, fragment);
    }
    if forall f :: f in parts ==> s.Fits(f.content) {
      SplitFragmentKeeps(s, fragment);
      forall r | r in Erase(fragment.content)
        ensures s.Fits([r])
      {
        EraseAllMember(Contents(parts), r);
        EraseMember(fragment.content, r);
        var i :| 0 <= i < |Contents(parts)| && r in Contents(parts)[i];
        ContentsMember(parts, i);
        assert parts[i] in parts;
        RuneOfPartFits(s, parts[i].content, r);
      }
    }
  }

  // ----- the binary search finds the longest fitting prefix, so rune splitting is optimal -----

  lemma {:induction false} BisectIsLongest(fits: nat -> bool, low: nat, high: int, best: nat, k: nat)
    requires 1 <= low && low <= k <= high
    requires forall i: nat :: i <= k ==> fits(i)
    ensures k <= Bisect(fits, low, high, best)
    decreases high - low + 1
  {
    var mid := (low + high) / 2;
    if fits(mid) {
      if k > mid {
        BisectIsLongest(fits, mid + 1, high, mid, k);
      }
    } else {
      BisectIsLongest(fits, low, mid - 1, best, k);
    }
  }

  /** For a monotone counter no longer prefix than the one cut off fits. */
  lemma CutIsLongest(s: Setup, runes: string, k: nat)
    requires s.Monotone() && 1 <= k <= |runes| && s.Fits(TrimSpace(runes[..k]))
    ensures k <= Cut(s, runes)
  {
    var fits := CutFits(s, runes);
    forall i: nat | i <= k
      ensures fits(i)
    {
      assert runes[..k] == "" + runes[..i] + runes[i..k];
      assert s.Within("", runes[..i], runes[i..k]);
    }
    BisectIsLongest(fits, 1, |runes|, 1, k);
  }

  /** The number of cuts rune splitting makes, blank stretches included. */
  function Cuts(s: Setup, runes: string): nat
    decreases |runes|
  {
    if runes == "" then 0 else 1 + Cuts(s, runes[Cut(s, runes)..])
  }

  lemma {:induction false} PartsAtMostCuts(s: Setup, runes: string)
    ensures |RuneParts(s, runes)| <= Cuts(s, runes)
    decreases |runes|
  {
    if runes != "" {
      PartsAtMostCuts(s, runes[Cut(s, runes)..]);
    }
  }

  ghost predicate Divides(s: Setup, division: seq<string>, text: string) {
    Flatten(division) == text && forall d :: d in division ==> s.Fits(TrimSpace(d))
  }

  lemma DropFirst(s: Setup, division: seq<string>, runes: string, p: nat)
    requires division != [] && p <= |runes| && Divides(s, division, runes[p..])
    ensures var q := p + |division[0]|;
      q <= |runes| && division[0] == runes[p..q] && s.Fits(TrimSpace(division[0])) &&
        Divides(s, division[1..], runes[q..])
  {
    var d, q := division[0], p + |division[0]|;
    assert d == Flatten(division)[..|d|];
    assert Flatten(division[1..]) == Flatten(division)[|d|..];
    assert runes[p..][|d|..] == runes[q..];
    assert forall e :: e in division[1..] ==> e in division;
  }

  /** A stretch that fits and reaches past g from before it: the cut made at g reaches as far. */
  lemma CutReaches(s: Setup, runes: string, p: nat, g: nat, q: nat)
    requires s.Monotone() && p <= g < q <= |runes| && s.Fits(TrimSpace(runes[p..q]))
    ensures g + Cut(s, runes[g..]) >= q
  {
    var rest := runes[g..];
    assert runes[p..q] == runes[p..g] + rest[..q - g] + "";
    assert s.Within(runes[p..g], rest[..q - g], "");
    CutIsLongest(s, rest, q - g);
  }

  /** Greedy cutting from position g never falls behind a division of runes[p..] with p <= g. */
  lemma {:induction false} CutsAreFewest(s: Setup, runes: string, p: nat, g: nat, division: seq<string>)
    requires s.Monotone() && p <= g <= |runes| && Divides(s, division, runes[p..])
    ensures Cuts(s, runes[g..]) <= |division|
    decreases |division|
  {
    if division != [] {
      var q := p + |division[0]|;
      DropFirst(s, division, runes, p);
      if q <= g {
        CutsAreFewest(s, runes, q, g, division[1..]);
      } else {
        var next := g + Cut(s, runes[g..]);
        CutReaches(s, runes, p, g, q);
        assert runes[g..][Cut(s, runes[g..])..] == runes[next..];
        CutsAreFewest(s, runes, q, next, division[1..]);
      }
    }
  }

  /** For a monotone counter no division of a text into fitting stretches has fewer members. */
  lemma RuneSplittingIsOptimal(s: Setup, division: seq<string>)
    requires s.Monotone()
    requires forall d :: d in division ==> s.Fits(TrimSpace(d))
    ensures |RuneParts(s, Flatten(division))| <= |division|
  {
    var runes := Flatten(division);
    assert runes[0..] == runes;
    CutsAreFewest(s, runes, 0, 0, division);
    PartsAtMostCuts(s, runes);
  }
}
