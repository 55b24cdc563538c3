/** What packing under a budget means: greedy groups of consecutive units, each joined with the separator. */
module Packing {
  import opened Text
  import opened Seqs
  import opened Splitter
  import Compaction

  // ----- greedy groups -----

  /** A unit that is over the budget on its own, and is split further. */
  predicate Oversized(s: Setup, group: seq<string>) {
    |group| == 1 && !s.Fits(group[0])
  }

  /** What becomes of a group: one part, or the pieces of its only unit. */
  function GroupParts(s: Setup, group: seq<string>, preferSentences: bool, sep: string): seq<string> {
    if Oversized(s, group) then SplitOversized(s, group[0], preferSentences) else [Candidate(group, sep)]
  }

  function PartsOf(s: Setup, groups: seq<seq<string>>, preferSentences: bool, sep: string): seq<string> {
    if groups == [] then []
    else GroupParts(s, groups[0], preferSentences, sep) + PartsOf(s, groups[1..], preferSentences, sep)
  }

  /** The units of a group fit together, however many of them are taken from the front. */
  ghost predicate Together(s: Setup, group: seq<string>, sep: string) {
    && group != []
    && (|group| > 1 ==> s.Fits(group[0]))
    && (forall k :: 2 <= k <= |group| ==> s.Fits(Candidate(group[..k], sep)))
  }

  /** There is no room for the next unit. */
  predicate Closed(s: Setup, group: seq<string>, next: string, sep: string) {
    Oversized(s, group) || !s.Fits(Candidate(group + [next], sep))
  }

  /** The units in order, in groups that fit, each of which is closed to the unit behind it. */
  ghost predicate Greedy(s: Setup, units: seq<string>, groups: seq<seq<string>>, sep: string) {
    && Flatten(groups) == units
    && (forall i :: 0 <= i < |groups| ==> Together(s, groups[i], sep))
    && (forall i :: 0 < i < |groups| && groups[i] != [] ==> Closed(s, groups[i - 1], groups[i][0], sep))
  }

  lemma GreedyCons(s: Setup, group: seq<string>, units: seq<string>, groups: seq<seq<string>>, sep: string)
    requires Together(s, group, sep) && Greedy(s, units, groups, sep)
    requires units != [] ==> Closed(s, group, units[0], sep)
    ensures Greedy(s, group + units, [group] + groups, sep)
  {
    var all := [group] + groups;
    assert all[1..] == groups;
    if groups != [] {
      assert Together(s, groups[0], sep) && groups[0][0] == units[0];
    }
    forall i | 0 < i < |all|
      ensures Together(s, all[i], sep) && Closed(s, all[i - 1], all[i][0], sep)
    {
      assert all[i] == groups[i - 1] && Together(s, groups[i - 1], sep);
      assert i > 1 ==> all[i - 1] == groups[i - 2];
    }
  }

  lemma PartsCons(s: Setup, group: seq<string>, groups: seq<seq<string>>, preferSentences: bool, sep: string)
    ensures PartsOf(s, [group] + groups, preferSentences, sep)
      == GroupParts(s, group, preferSentences, sep) + PartsOf(s, groups, preferSentences, sep)
  {
    assert ([group] + groups)[1..] == groups;
  }

  lemma OneGroup(s: Setup, group: seq<string>, sep: string)
    requires Together(s, group, sep)
    ensures Greedy(s, group, [group], sep)
  {
    assert [group][1..] == [];
    assert Flatten([group]) == group + Flatten([]);
  }

  /** The open units of the packer: a group that fits and is not oversized. */
  ghost predicate OpenGroup(s: Setup, current: seq<string>, sep: string) {
    current != [] ==> Together(s, current, sep) && !Oversized(s, current)
  }

  lemma OpenMore(s: Setup, current: seq<string>, unit: string, sep: string)
    requires current != [] && OpenGroup(s, current, sep) && s.Fits(Candidate(current + [unit], sep))
    ensures OpenGroup(s, current + [unit], sep)
  {
    var more := current + [unit];
    forall k | 2 <= k <= |more|
      ensures s.Fits(Candidate(more[..k], sep))
    {
      if k < |more| {
        assert more[..k] == current[..k];
      } else {
        assert more[..k] == more;
      }
    }
  }

  /** The open units are closed to the next one and flushed in front of the groups that follow. */
  lemma FlushFirst(s: Setup, current: seq<string>, units: seq<string>, groups0: seq<seq<string>>, preferSentences: bool,
                   sep: string)
    returns (groups: seq<seq<string>>)
    requires OpenGroup(s, current, sep) && Greedy(s, units, groups0, sep)
    requires current != [] ==> units == [] || !s.Fits(Candidate(current + [units[0]], sep))
    ensures Greedy(s, current + units, groups, sep)
    ensures PartsOf(s, groups, preferSentences, sep) ==
      Flushed(current, sep) + PartsOf(s, groups0, preferSentences, sep)
  {
    if current == [] {
      groups := groups0;
      assert current + units == units;
    } else {
      groups := [current] + groups0;
      GreedyCons(s, current, units, groups0, sep);
      PartsCons(s, current, groups0, preferSentences, sep);
    }
  }

  lemma UnitsHead(units: seq<string>)
    requires units != []
    ensures Units(units) == NonBlank(TrimSpace(units[0])) + Units(units[1..])
  {}

  lemma Single(s: Setup, unit: string, sep: string)
    ensures Together(s, [unit], sep)
  {}

  lemma JoinedUnits(s: Setup, units: seq<string>, current: seq<string>, unit: string, groups: seq<seq<string>>,
                    sep: string)
    requires units != [] && Units(units) == [unit] + Units(units[1..])
    requires Greedy(s, (current + [unit]) + Units(units[1..]), groups, sep)
    ensures Greedy(s, current + Units(units), groups, sep)
  {
    Assoc(current, [unit], Units(units[1..]));
  }

  lemma LastGroup(s: Setup, current: seq<string>, preferSentences: bool, sep: string) returns (groups: seq<seq<string>>)
    requires OpenGroup(s, current, sep)
    ensures Greedy(s, current, groups, sep) && PartsOf(s, groups, preferSentences, sep) == Flushed(current, sep)
  {
    if current == [] {
      groups := [];
    } else {
      groups := [current];
      OneGroup(s, current, sep);
      PartsCons(s, current, [], preferSentences, sep);
    }
  }

  lemma {:induction false} GreedyGroups(s: Setup, units: seq<string>, current: seq<string>, preferSentences: bool,
                                        sep: string)
    returns (groups: seq<seq<string>>)
    requires OpenGroup(s, current, sep)
    ensures Greedy(s, current + Units(units), groups, sep)
    ensures Pack(s, units, current, preferSentences, sep) == PartsOf(s, groups, preferSentences, sep)
    decreases |units|, 1
  {
    if units == [] {
      groups := LastGroup(s, current, preferSentences, sep);
      assert current + Units(units) == current;
    } else {
      var unit, rest := TrimSpace(units[0]), units[1..];
      UnitsHead(units);
      if unit == "" {
        assert Units(units) == Units(rest);
        groups := GreedyGroups(s, rest, current, preferSentences, sep);
      } else if current != [] && s.Fits(Candidate(current + [unit], sep)) {
        assert Units(units) == [unit] + Units(rest);
        OpenMore(s, current, unit, sep);
        groups := GreedyGroups(s, rest, current + [unit], preferSentences, sep);
        JoinedUnits(s, units, current, unit, groups, sep);
      } else {
        assert Units(units) == [unit] + Units(rest);
        groups := GreedyAfterFlush(s, unit, rest, current, preferSentences, sep);
        Assoc(Flushed(current, sep), SplitOversized(s, unit, preferSentences), Pack(s, rest, [], preferSentences, sep));
      }
    }
  }

  /** There is no room for the next unit: the open units are flushed. */
  lemma GreedyAfterFlush(s: Setup, unit: string, rest: seq<string>, current: seq<string>, preferSentences: bool,
                         sep: string)
    returns (groups: seq<seq<string>>)
    requires OpenGroup(s, current, sep)
    requires current != [] ==> !s.Fits(Candidate(current + [unit], sep))
    ensures Greedy(s, current + ([unit] + Units(rest)), groups, sep)
    ensures PartsOf(s, groups, preferSentences, sep) == Flushed(current, sep) +
      if s.Fits(unit) then Pack(s, rest, [unit], preferSentences, sep)
      else SplitOversized(s, unit, preferSentences) + Pack(s, rest, [], preferSentences, sep)
    decreases |rest|, 2
  {
    if s.Fits(unit) {
      Single(s, unit, sep);
      var later := GreedyGroups(s, rest, [unit], preferSentences, sep);
      groups := FittingFirst(s, current, unit, Units(rest), later, preferSentences, sep);
    } else {
      var later := GreedyGroups(s, rest, [], preferSentences, sep);
      groups := OversizedFirst(s, current, unit, Units(rest), later, preferSentences, sep);
      Assoc(Flushed(current, sep), SplitOversized(s, unit, preferSentences), PartsOf(s, later, preferSentences, sep));
    }
  }

  lemma FittingFirst(s: Setup, current: seq<string>, unit: string, units: seq<string>, later: seq<seq<string>>,
                     preferSentences: bool, sep: string)
    returns (groups: seq<seq<string>>)
    requires OpenGroup(s, current, sep) && Greedy(s, [unit] + units, later, sep)
    requires current != [] ==> !s.Fits(Candidate(current + [unit], sep))
    ensures Greedy(s, current + ([unit] + units), groups, sep)
    ensures PartsOf(s, groups, preferSentences, sep) == Flushed(current, sep) + PartsOf(s, later, preferSentences, sep)
  {
    groups := FlushFirst(s, current, [unit] + units, later, preferSentences, sep);
  }

  lemma OversizedFirst(s: Setup, current: seq<string>, unit: string, units: seq<string>, later: seq<seq<string>>,
                       preferSentences: bool, sep: string)
    returns (groups: seq<seq<string>>)
    requires OpenGroup(s, current, sep) && Greedy(s, [] + units, later, sep) && !s.Fits(unit)
    requires current != [] ==> !s.Fits(Candidate(current + [unit], sep))
    ensures Greedy(s, current + ([unit] + units), groups, sep)
    ensures PartsOf(s, groups, preferSentences, sep)
      == Flushed(current, sep) + SplitOversized(s, unit, preferSentences) + PartsOf(s, later, preferSentences, sep)
  {
    Single(s, unit, sep);
    assert [] + units == units;
    GreedyCons(s, [unit], units, later, sep);
    PartsCons(s, [unit], later, preferSentences, sep);
    groups := FlushFirst(s, current, [unit] + units, [[unit]] + later, preferSentences, sep);
    Assoc(Flushed(current, sep), SplitOversized(s, unit, preferSentences), PartsOf(s, later, preferSentences, sep));
  }

  /** Some greedy grouping of the units that are not blank, trimmed, gives the parts. */
  ghost predicate PackedGreedily(s: Setup, units: seq<string>, parts: seq<string>, preferSentences: bool, sep: string) {
    exists groups :: Greedy(s, units, groups, sep) && parts == PartsOf(s, groups, preferSentences, sep)
  }

  /** Packing joins the units of a greedy grouping, and there is no other such grouping. */
  lemma PackIsGreedy(s: Setup, units: seq<string>, preferSentences: bool, sep: string)
    ensures PackedGreedily(s, Units(units), Pack(s, units, [], preferSentences, sep), preferSentences, sep)
  {
    var groups := GreedyGroups(s, units, [], preferSentences, sep);
    assert [] + Units(units) == Units(units);
  }

  // ----- one greedy grouping -----

  /** When the first group is not the last, it is closed to the unit behind it. */
  lemma NextIsClosed(s: Setup, units: seq<string>, groups: seq<seq<string>>, sep: string)
    requires Greedy(s, units, groups, sep) && groups != [] && |groups[0]| < |units|
    ensures Closed(s, groups[0], units[|groups[0]|], sep)
  {
    assert Flatten(groups) == groups[0] + Flatten(groups[1..]);
    assert Together(s, groups[1], sep);
    assert units[|groups[0]|] == Flatten(groups[1..])[0] == groups[1][0];
  }

  lemma {:induction false} FlattenLong(groups: seq<seq<string>>)
    requires forall i :: 0 <= i < |groups| ==> groups[i] != []
    ensures |groups| <= |Flatten(groups)|
  {
    if groups != [] {
      FlattenLong(groups[1..]);
    }
  }

  lemma FirstGroupNoLonger(s: Setup, a: seq<seq<string>>, b: seq<seq<string>>, units: seq<string>, sep: string)
    requires Greedy(s, units, a, sep) && Greedy(s, units, b, sep) && units != []
    ensures a != [] && b != [] && |a[0]| <= |b[0]|
  {
    assert Together(s, a[0], sep) && Together(s, b[0], sep);
    if |b[0]| < |a[0]| {
      var n := |b[0]|;
      assert b[0] == units[..n] && a[0] == units[..|a[0]|];
      assert a[0][..n + 1] == b[0] + [units[n]];
      assert !Closed(s, b[0], units[n], sep);
      NextIsClosed(s, units, b, sep);
    }
  }

  lemma {:induction false} GreedyIsUnique(s: Setup, units: seq<string>, a: seq<seq<string>>, b: seq<seq<string>>,
                                          sep: string)
    requires Greedy(s, units, a, sep) && Greedy(s, units, b, sep)
    ensures a == b
    decreases |a|
  {
    if units == [] {
      FlattenLong(a);
      FlattenLong(b);
    } else {
      FirstGroupNoLonger(s, a, b, units, sep);
      FirstGroupNoLonger(s, b, a, units, sep);
      var n := |a[0]|;
      assert a[0] == units[..n] && b[0] == units[..n];
      assert Flatten(a[1..]) == units[n..] && Flatten(b[1..]) == units[n..];
      GreedyTail(s, units, a, sep);
      GreedyTail(s, units, b, sep);
      GreedyIsUnique(s, units[n..], a[1..], b[1..], sep);
    }
  }

  lemma GreedyTail(s: Setup, units: seq<string>, groups: seq<seq<string>>, sep: string)
    requires Greedy(s, units, groups, sep) && groups != []
    ensures |groups[0]| <= |units| && Greedy(s, units[|groups[0]|..], groups[1..], sep)
  {
    var rest := groups[1..];
    assert Flatten(groups) == groups[0] + Flatten(rest);
    assert units[|groups[0]|..] == Flatten(rest);
    forall i | 0 <= i < |rest|
      ensures Together(s, rest[i], sep) && (i > 0 && rest[i] != [] ==> Closed(s, rest[i - 1], rest[i][0], sep))
    {
      assert rest[i] == groups[i + 1];
      assert i > 0 ==> rest[i - 1] == groups[i];
    }
  }

  // ----- greedy packing uses the fewest parts -----

  lemma {:induction false} JoinAppend(a: seq<string>, b: seq<string>, sep: string)
    requires a != [] && b != []
    ensures Join(a + b, sep) == Join(a, sep) + sep + Join(b, sep)
  {
    if |a| == 1 {
      assert (a + b)[1..] == b;
    } else {
      assert (a + b)[1..] == a[1..] + b;
      JoinAppend(a[1..], b, sep);
      Assoc(a[0] + sep, Join(a[1..], sep), sep);
      Assoc(a[0] + sep, Join(a[1..], sep) + sep, Join(b, sep));
    }
  }

  /** A stretch of units that fits together contains only stretches that do. */
  lemma StretchFits(s: Setup, a: seq<string>, b: seq<string>, c: seq<string>, sep: string)
    requires s.Monotone() && b != [] && s.Fits(Candidate(a + b + c, sep))
    ensures s.Fits(Candidate(b, sep))
  {
    var x := if a == [] then "" else Join(a, sep) + sep;
    var y := if c == [] then "" else sep + Join(c, sep);
    JoinAround(a, b, c, sep);
    assert s.Within(x, Join(b, sep), y);
  }

  lemma JoinAround(a: seq<string>, b: seq<string>, c: seq<string>, sep: string)
    requires b != []
    ensures Join(a + b + c, sep)
      == (if a == [] then "" else Join(a, sep) + sep) + Join(b, sep) + (if c == [] then "" else sep + Join(c, sep))
  {
    if a == [] {
      assert a + b == b;
    } else {
      JoinAppend(a, b, sep);
    }
    if c == [] {
      assert a + b + c == a + b;
    } else {
      JoinAppend(a + b, c, sep);
      Assoc(Join(a + b, sep), sep, Join(c, sep));
    }
  }

  ghost predicate AllTogether(s: Setup, groups: seq<seq<string>>, sep: string) {
    forall group :: group in groups ==> s.Fits(Candidate(group, sep))
  }

  /** When the greedy group has no room for `next`, another grouping's first group ends in front of it. */
  lemma FirstGroupEnds(s: Setup, skipped: seq<string>, group: seq<string>, next: string, rest: seq<string>,
                       others: seq<seq<string>>, sep: string)
    requires s.Monotone() && group != [] && !s.Fits(Candidate(group + [next], sep))
    requires Flatten(others) == skipped + group + ([next] + rest) && AllTogether(s, others, sep)
    ensures others != [] && |others[0]| <= |skipped| + |group|
  {
    assert others[0] in others;
    assert others[0] == Flatten(others)[..|others[0]|];
    if |others[0]| > |skipped| + |group| {
      var tail := others[0][|skipped| + |group| + 1..];
      assert others[0] == skipped + (group + [next]) + tail;
      StretchFits(s, skipped, group + [next], tail, sep);
    }
  }

  /** Greedy groups that start no earlier than the first of the other groups keep pace with them. */
  lemma {:induction false} GreedyKeepsPace(s: Setup, skipped: seq<string>, units: seq<string>, groups: seq<seq<string>>,
                                           others: seq<seq<string>>, sep: string)
    requires s.Monotone() && Greedy(s, units, groups, sep) && forall u :: u in units ==> s.Fits(u)
    requires Flatten(others) == skipped + units && AllTogether(s, others, sep)
    ensures |groups| <= |others|
    decreases |groups|
  {
    if groups != [] {
      var n := |groups[0]|;
      assert Together(s, groups[0], sep);
      GreedyTail(s, units, groups, sep);
      assert units == groups[0] + units[n..];
      assert groups[0][0] in units;
      if |groups| > 1 {
        assert Together(s, groups[1], sep) && Closed(s, groups[0], groups[1][0], sep);
        assert units[n..] == [groups[1][0]] + units[n + 1..];
        Assoc(skipped, groups[0], units[n..]);
        FirstGroupEnds(s, skipped, groups[0], groups[1][0], units[n + 1..], others, sep);
        var m := |others[0]|;
        assert others[0] == Flatten(others)[..m] && Flatten(others[1..]) == Flatten(others)[m..];
        assert Flatten(others[1..]) == (skipped + groups[0])[m..] + units[n..];
        assert forall u :: u in units[n..] ==> u in units;
        GreedyKeepsPace(s, (skipped + groups[0])[m..], units[n..], groups[1..], others[1..], sep);
      }
    }
  }

  lemma {:induction false} FittingGroups(s: Setup, groups: seq<seq<string>>, preferSentences: bool, sep: string)
    requires forall u :: u in Flatten(groups) ==> s.Fits(u)
    ensures |PartsOf(s, groups, preferSentences, sep)| == |groups|
  {
    if groups != [] {
      assert Flatten(groups) == groups[0] + Flatten(groups[1..]);
      FittingGroups(s, groups[1..], preferSentences, sep);
      assert forall u :: u in groups[0] ==> s.Fits(u);
    }
  }

  /** For a monotone counter and units that fit: no grouping of them within the budget has fewer groups than packing
      makes parts. */
  lemma PackingIsOptimal(s: Setup, units: seq<string>, preferSentences: bool, others: seq<seq<string>>, sep: string)
    requires s.Monotone() && forall u :: u in Units(units) ==> s.Fits(u)
    requires Flatten(others) == Units(units) && AllTogether(s, others, sep)
    ensures |Pack(s, units, [], preferSentences, sep)| <= |others|
  {
    var groups := GreedyGroups(s, units, [], preferSentences, sep);
    assert [] + Units(units) == Units(units);
    GreedyKeepsPace(s, [], Units(units), groups, others, sep);
    FittingGroups(s, groups, preferSentences, sep);
  }

  // ----- whole texts and oversized units -----

  lemma {:induction false} UnitsStay(raw: seq<string>)
    ensures Units(Units(raw)) == Units(raw)
  {
    if raw != [] {
      UnitsStay(raw[1..]);
      TrimIdempotent(raw[0]);
      PieceIsUnit(TrimSpace(raw[0]), Units(raw[1..]));
    }
  }

  lemma {:induction false} PiecesAreUnits(runes: string, ends: nat -> bool, start: nat, i: nat)
    requires start <= i <= |runes|
    ensures Units(PiecesFrom(runes, ends, start, i)) == PiecesFrom(runes, ends, start, i)
    decreases |runes| - i
  {
    if i < |runes| {
      var next := if ends(i) then i + 1 else start;
      PiecesAreUnits(runes, ends, next, i + 1);
      if ends(i) {
        TrimIdempotent(runes[start..i + 1]);
        PieceIsUnit(TrimSpace(runes[start..i + 1]), PiecesFrom(runes, ends, i + 1, i + 1));
      }
    } else {
      TrimIdempotent(runes[start..]);
      PieceIsUnit(TrimSpace(runes[start..]), []);
      assert NonBlank(TrimSpace(runes[start..])) + [] == NonBlank(TrimSpace(runes[start..]));
    }
  }

  lemma PieceIsUnit(piece: string, rest: seq<string>)
    requires TrimSpace(piece) == piece && Units(rest) == rest
    ensures Units(NonBlank(piece) + rest) == NonBlank(piece) + rest
  {
    if piece == "" {
      assert NonBlank(piece) + rest == rest;
    } else {
      assert (NonBlank(piece) + rest)[1..] == rest;
    }
  }

  /** A text within the budget is one part; of any other the paragraphs are packed, with a blank line between them. */
  lemma SplitTextIsGreedy(s: Setup, text: string, preferSentences: bool)
    ensures var body, parts := TrimSpace(ReplaceAll(text, "\r\n", "\n")), SplitText(s, text, preferSentences);
      if body == "" || s.max <= 0 || s.Fits(body) then parts == [body]
      else PackedGreedily(s, ParagraphUnits(body), parts, preferSentences, "\n\n")
  {
    var body := TrimSpace(ReplaceAll(text, "\r\n", "\n"));
    UnitsStay(Split(TrimSpace(CollapseBlankLines(body)), "\n\n"));
    PackIsGreedy(s, ParagraphUnits(body), preferSentences, "\n\n");
  }

  /** An oversized unit: its sentences are packed with a blank, otherwise its lines with a line end, otherwise it is cut
      between runes. */
  lemma OversizedIsGreedy(s: Setup, unit: string, preferSentences: bool)
    requires s.max > 0
    ensures var sentences, lines := SentenceUnits(s.classes, unit), LineUnits(unit);
      var parts := SplitOversized(s, unit, preferSentences);
      if preferSentences && |sentences| > 1 then PackedGreedily(s, sentences, parts, false, " ")
      else if |lines| > 1 then PackedGreedily(s, lines, parts, false, "\n")
      else unit != "" ==> parts == RuneParts(s, unit)
  {
    var runes := TrimSpace(unit);
    PiecesAreUnits(runes, SentenceEnds(s.classes, runes), 0, 0);
    PackIsGreedy(s, SentenceUnits(s.classes, unit), false, " ");
    UnitsStay(Split(unit, "\n"));
    PackIsGreedy(s, LineUnits(unit), false, "\n");
  }

  /** For a monotone counter and paragraphs that fit, no grouping of the paragraphs within the budget has fewer
      parts. */
  lemma SplitTextIsOptimal(s: Setup, text: string, preferSentences: bool, others: seq<seq<string>>)
    requires s.Monotone() && others != [] && AllTogether(s, others, "\n\n")
    requires Flatten(others) == ParagraphUnits(TrimSpace(ReplaceAll(text, "\r\n", "\n")))
    requires forall u :: u in Flatten(others) ==> s.Fits(u)
    ensures |SplitText(s, text, preferSentences)| <= |others|
  {
    var body := TrimSpace(ReplaceAll(text, "\r\n", "\n"));
    if !(body == "" || s.max <= 0 || s.Fits(body)) {
      UnitsStay(Split(TrimSpace(CollapseBlankLines(body)), "\n\n"));
      assert Units(ParagraphUnits(body)) == ParagraphUnits(body);
      PackingIsOptimal(s, ParagraphUnits(body), preferSentences, others, "\n\n");
    }
  }

  // ----- lines and paragraphs come back -----

  /** No two line ends stand side by side. */
  predicate NoGap(s: string) {
    forall i :: 0 < i < |s| ==> !(s[i - 1] == '\n' && s[i] == '\n')
  }

  predicate IsParagraph(s: string) {
    s != "" && Trimmed(s) && NoGap(s)
  }

  lemma {:induction false} CollapsePast(front: string, rest: string)
    requires NoGap(front) && (front != "" ==> front[|front| - 1] != '\n')
    ensures CollapseBlankLines(front + rest) == front + CollapseBlankLines(rest)
  {
    if front == "" {
      assert front + rest == rest;
    } else {
      var tail := front[1..];
      assert (front + rest)[1..] == tail + rest && (front + rest)[0] == front[0];
      CollapsePast(tail, rest);
      CollapseHead(front + rest);
      Assoc([front[0]], tail, CollapseBlankLines(rest));
      assert front == [front[0]] + tail;
    }
  }

  lemma CollapseHead(s: string)
    requires s != "" && (s[0] == '\n' ==> |s| > 1 && s[1] != '\n')
    ensures CollapseBlankLines(s) == [s[0]] + CollapseBlankLines(s[1..])
  {
    if s[0] == '\n' {
      assert NewlineRun(s[1..]) == 0 && NewlineRun(s) == 1 && s[..1] == [s[0]];
    }
  }

  lemma CollapseGap(rest: string)
    requires rest != "" && rest[0] != '\n'
    ensures CollapseBlankLines("\n\n" + rest) == "\n\n" + CollapseBlankLines(rest)
  {
    var s := "\n\n" + rest;
    assert s[1..] == "\n" + rest && s[1..][1..] == rest && s[2..] == rest;
    assert NewlineRun(rest) == 0 && NewlineRun(s[1..]) == 1 && NewlineRun(s) == 2;
    assert s[..2] == "\n\n";
  }

  lemma {:induction false} FirstGap(front: string, rest: string)
    requires NoGap(front) && (front != "" ==> front[|front| - 1] != '\n')
    ensures Index(front + ("\n\n" + rest), "\n\n") == |front|
  {
    var s := front + ("\n\n" + rest);
    if front == "" {
      assert HasPrefix(s, "\n\n");
    } else {
      assert s[1..] == front[1..] + ("\n\n" + rest) && s[0] == front[0];
      FirstGap(front[1..], rest);
      assert !HasPrefix(s, "\n\n") by {
        if |front| > 1 {
          assert s[1] == front[1];
        }
      }
    }
  }

  lemma {:induction false} NoGapNoIndex(s: string)
    requires NoGap(s)
    ensures Index(s, "\n\n") < 0
  {
    if s != "" {
      NoGapNoIndex(s[1..]);
      assert |s| > 1 ==> s[..2] == [s[0], s[1]];
      assert "\n\n" == ['\n', '\n'];
    }
  }

  /** The text joins these paragraphs, and splitting finds them again. */
  predicate Joins(text: string, paragraphs: seq<string>) {
    && text == Join(paragraphs, "\n\n") && text != "" && Trimmed(text)
    && CollapseBlankLines(text) == text && Split(text, "\n\n") == paragraphs
  }

  lemma {:induction false} JoinedParagraphs(paragraphs: seq<string>)
    requires paragraphs != [] && forall p :: p in paragraphs ==> IsParagraph(p)
    ensures Joins(Join(paragraphs, "\n\n"), paragraphs)
  {
    var p, rest := paragraphs[0], paragraphs[1..];
    assert p in paragraphs && IsParagraph(p) && forall q :: q in rest ==> q in paragraphs;
    if |paragraphs| == 1 {
      assert paragraphs == [p];
      OneJoined(p);
    } else {
      JoinedParagraphs(rest);
      assert paragraphs == [p] + rest;
      OneMoreJoined(p, rest, Join(rest, "\n\n"));
    }
  }

  lemma OneJoined(p: string)
    requires IsParagraph(p)
    ensures Joins(Join([p], "\n\n"), [p])
  {
    OnlyParagraph(p);
  }

  lemma OneMoreJoined(p: string, rest: seq<string>, more: string)
    requires IsParagraph(p) && rest != [] && Joins(more, rest)
    ensures Joins(Join([p] + rest, "\n\n"), [p] + rest)
  {
    var all := [p] + rest;
    assert all[1..] == rest && all[0] == p;
    JoinFirst(all, "\n\n");
    OneMoreParagraph(p, more);
  }

  lemma JoinFirst(parts: seq<string>, sep: string)
    requires |parts| > 1
    ensures Join(parts, sep) == parts[0] + (sep + Join(parts[1..], sep))
  {
    Assoc(parts[0], sep, Join(parts[1..], sep));
  }

  lemma OnlyParagraph(p: string)
    requires IsParagraph(p)
    ensures CollapseBlankLines(p) == p && Split(p, "\n\n") == [p]
  {
    CollapsePast(p, "");
    assert p + "" == p;
    NoGapNoIndex(p);
  }

  lemma OneMoreParagraph(p: string, more: string)
    requires IsParagraph(p) && more != "" && Trimmed(more) && CollapseBlankLines(more) == more
    ensures var text := p + ("\n\n" + more);
      && text != "" && Trimmed(text) && CollapseBlankLines(text) == text
      && Split(text, "\n\n") == [p] + Split(more, "\n\n")
  {
    var text := p + ("\n\n" + more);
    CollapsePast(p, "\n\n" + more);
    CollapseGap(more);
    FirstGap(p, more);
    assert text[0] == p[0] && text[|text| - 1] == more[|more| - 1];
    assert text[..|p|] == p && text[|p| + 2..] == more;
  }

  lemma {:induction false} SolidUnits(units: seq<string>)
    requires forall u :: u in units ==> u != "" && Trimmed(u)
    ensures Units(units) == units
  {
    if units != [] {
      assert units[0] in units && forall u :: u in units[1..] ==> u in units;
      SolidUnits(units[1..]);
      TrimmedStays(units[0]);
    }
  }

  /** Paragraphs with blank lines between them are the paragraphs that are packed. */
  lemma ParagraphsComeBack(paragraphs: seq<string>)
    requires paragraphs != [] && forall p :: p in paragraphs ==> IsParagraph(p)
    ensures ParagraphUnits(Join(paragraphs, "\n\n")) == paragraphs
  {
    JoinedParagraphs(paragraphs);
    TrimmedStays(Join(paragraphs, "\n\n"));
    forall u | u in paragraphs
      ensures u != "" && Trimmed(u)
    {
      assert IsParagraph(u);
    }
    SolidUnits(paragraphs);
  }

  /** Trimmed lines, one below the other, are the lines that are packed. */
  lemma LinesComeBack(lines: seq<string>)
    requires lines != [] && forall line :: line in lines ==> line != "" && Trimmed(line) && '\n' !in line
    ensures LineUnits(Join(lines, "\n")) == lines
  {
    Compaction.SplitJoined(lines);
    SolidUnits(lines);
  }
}
