/** Safe compaction of log-like text: repeated lines and runs of blank lines go. */
module Compaction {
  import opened Text
  import opened Seqs

  /** strings.TrimRight with blanks and tabs. */
  function TrimEnd(line: string): string {
    if line != "" && (line[|line| - 1] == ' ' || line[|line| - 1] == '\t') then TrimEnd(line[..|line| - 1]) else line
  }

  /** The loop of safeCompactContent from a state with the last kept line and the length of the current blank run. */
  function CompactLines(lines: seq<string>, previous: string, blanks: nat): seq<string> {
    if lines == [] then []
    else
      var line := TrimEnd(lines[0]);
      if Blank(line) then
        if blanks + 1 > 1 then CompactLines(lines[1..], previous, blanks + 1)
        else [line] + CompactLines(lines[1..], line, blanks + 1)
      else if line == previous then CompactLines(lines[1..], previous, 0)
      else [line] + CompactLines(lines[1..], line, 0)
  }

  function SafeCompactContent(content: string): string {
    TrimSpace(Join(CompactLines(Split(content, "\n"), "", 0), "\n"))
  }

  method ComputeSafeCompactContent(content: string) returns (r: string)
    ensures r == SafeCompactContent(content)
  {
    var todo := Split(content, "\n");
    var out: seq<string>, previous: string, blanks: nat := [], "", 0;
    while |todo| > 0
      invariant out + CompactLines(todo, previous, blanks) == CompactLines(Split(content, "\n"), "", 0)
    {
      var trimmed := TrimEnd(todo[0]);
      todo := todo[1..];
      var skip := false;
      if Blank(trimmed) {
        blanks := blanks + 1;
        skip := blanks > 1;
      } else {
        blanks := 0;
      }
      if !skip && !(trimmed == previous && !Blank(trimmed)) {
        Assoc(out, [trimmed], CompactLines(todo, trimmed, blanks));
        out := out + [trimmed];
        previous := trimmed;
      }
    }
    assert out + [] == out;
    r := TrimSpace(Join(out, "\n"));
  }

  lemma {:induction false} TrimEndTwice(line: string)
    ensures TrimEnd(TrimEnd(line)) == TrimEnd(line)
  {
    if line != "" && (line[|line| - 1] == ' ' || line[|line| - 1] == '\t') {
      TrimEndTwice(line[..|line| - 1]);
    }
  }

  lemma {:induction false} LongerBlankRun(lines: seq<string>, previous: string, blanks: nat)
    requires blanks >= 1
    ensures CompactLines(lines, previous, blanks) == CompactLines(lines, previous, blanks + 1)
  {
    if lines != [] && Blank(TrimEnd(lines[0])) {
      LongerBlankRun(lines[1..], previous, blanks + 1);
    }
  }

  /** As long as lines stay lines, compacting twice is compacting once. */
  lemma {:induction false} CompactLinesTwice(lines: seq<string>, previous: string, blanks: nat)
    requires !Blank(previous) ==> blanks == 0
    ensures CompactLines(CompactLines(lines, previous, blanks), previous, blanks) ==
      CompactLines(lines, previous, blanks)
  {
    if lines != [] {
      var line, rest := TrimEnd(lines[0]), lines[1..];
      TrimEndTwice(lines[0]);
      if Blank(line) && blanks + 1 > 1 {
        CompactLinesTwice(rest, previous, blanks + 1);
        LongerBlankRun(CompactLines(rest, previous, blanks + 1), previous, blanks);
      } else if !Blank(line) && line == previous {
        CompactLinesTwice(rest, previous, 0);
      } else {
        var next := if Blank(line) then blanks + 1 else 0;
        CompactLinesTwice(rest, line, next);
        assert ([line] + CompactLines(rest, line, next))[1..] == CompactLines(rest, line, next);
      }
    }
  }

  function SafeCompacter(): string -> string {
    (content: string) => SafeCompactContent(content)
  }

  // ----- which line lists compaction leaves as they are -----

  /** A blank line does not follow a blank one, and no other line repeats the one above it. */
  predicate Follows(above: string, line: string) {
    if Blank(line) then !Blank(above) else above != line
  }

  ghost predicate Compacted(lines: seq<string>) {
    && (forall i :: 0 <= i < |lines| ==> TrimEnd(lines[i]) == lines[i])
    && (forall i :: 0 < i < |lines| ==> Follows(lines[i - 1], lines[i]))
  }

  predicate Starts(lines: seq<string>, previous: string, blanks: nat) {
    lines != [] ==> if Blank(lines[0]) then blanks == 0 else lines[0] != previous
  }

  function Weight(lines: seq<string>): nat {
    if lines == [] then 0 else |lines[0]| + 1 + Weight(lines[1..])
  }

  lemma {:induction false} TrimEndShrinks(line: string)
    ensures |TrimEnd(line)| <= |line| && (|TrimEnd(line)| == |line| ==> TrimEnd(line) == line)
  {
    if line != "" && (line[|line| - 1] == ' ' || line[|line| - 1] == '\t') {
      TrimEndShrinks(line[..|line| - 1]);
    }
  }

  lemma {:induction false} CompactingShrinks(lines: seq<string>, previous: string, blanks: nat)
    ensures var out := CompactLines(lines, previous, blanks); out == lines || Weight(out) < Weight(lines)
  {
    if lines != [] {
      var line, rest := TrimEnd(lines[0]), lines[1..];
      TrimEndShrinks(lines[0]);
      if Blank(line) && blanks + 1 > 1 {
        CompactingShrinks(rest, previous, blanks + 1);
      } else if !Blank(line) && line == previous {
        CompactingShrinks(rest, previous, 0);
      } else {
        var next := if Blank(line) then blanks + 1 else 0;
        CompactingShrinks(rest, line, next);
        assert ([line] + CompactLines(rest, line, next))[1..] == CompactLines(rest, line, next);
      }
    }
  }

  lemma CompactedCons(line: string, rest: seq<string>)
    ensures Compacted([line] + rest) <==>
      TrimEnd(line) == line && Compacted(rest) && (rest != [] ==> Follows(line, rest[0]))
  {
    var all := [line] + rest;
    if Compacted(all) {
      forall i | 0 <= i < |rest|
        ensures TrimEnd(rest[i]) == rest[i] && Follows(all[i], rest[i])
      {
        assert all[i + 1] == rest[i];
      }
    }
    if TrimEnd(line) == line && Compacted(rest) && (rest != [] ==> Follows(line, rest[0])) {
      forall i | 0 < i < |all|
        ensures TrimEnd(all[i]) == all[i] && Follows(all[i - 1], all[i])
      {
        assert all[i] == rest[i - 1];
        assert i > 1 ==> all[i - 1] == rest[i - 2];
      }
    }
  }

  /** Compaction keeps a line list exactly when it is compacted and starts with a line that may follow what was
      before. */
  lemma {:induction false} CompactLinesStayExactly(lines: seq<string>, previous: string, blanks: nat)
    ensures CompactLines(lines, previous, blanks) == lines <==> Compacted(lines) && Starts(lines, previous, blanks)
  {
    if lines != [] {
      var line, rest := TrimEnd(lines[0]), lines[1..];
      assert lines == [lines[0]] + rest;
      CompactedCons(lines[0], rest);
      if Blank(line) && blanks + 1 > 1 {
        CompactingShrinks(rest, previous, blanks + 1);
      } else if !Blank(line) && line == previous {
        CompactingShrinks(rest, previous, 0);
      } else {
        var next := if Blank(line) then blanks + 1 else 0;
        CompactLinesStayExactly(rest, line, next);
        assert ([line] + CompactLines(rest, line, next))[1..] == CompactLines(rest, line, next);
      }
    }
  }

  // ----- which lines stay -----

  function TrimmedLines(lines: seq<string>): seq<string> {
    seq(|lines|, i requires 0 <= i < |lines| => TrimEnd(lines[i]))
  }

  /** Which of these lines stay, but for the first: that depends on the line above. */
  function StayingBelow(lines: seq<string>): seq<bool> {
    if |lines| <= 1 then [] else [Follows(lines[0], lines[1])] + StayingBelow(lines[1..])
  }

  /** Which of these lines stay behind a given state, on which the first one depends. */
  function StayingFrom(lines: seq<string>, previous: string, blanks: nat): (keep: seq<bool>)
    ensures |keep| == |lines|
  {
    if lines == [] then []
    else
      StayingCount(lines);
      [Starts(lines, previous, blanks)] + StayingBelow(lines)
  }

  lemma {:induction false} StayingCount(lines: seq<string>)
    requires lines != []
    ensures |StayingBelow(lines)| == |lines| - 1
    ensures forall i :: 0 < i < |lines| ==> StayingBelow(lines)[i - 1] == Follows(lines[i - 1], lines[i])
  {
    if |lines| > 1 {
      StayingCount(lines[1..]);
    }
  }

  /** Which lines of a text stay: the first, every line that is not blank and differs from the line above it, and every
      blank line below one that is not blank. */
  function Staying(lines: seq<string>): seq<bool> {
    seq(|lines|, i requires 0 <= i < |lines| => i == 0 || Follows(lines[i - 1], lines[i]))
  }

  lemma StayingTail(lines: seq<string>, previous: string, blanks: nat, next: string, run: nat)
    requires lines != []
    requires |lines| > 1 ==> (Starts(lines[1..], next, run) <==> Follows(lines[0], lines[1]))
    ensures StayingFrom(lines, previous, blanks)[1..] == StayingFrom(lines[1..], next, run)
  {}

  lemma {:induction false} CompactLinesSelect(lines: seq<string>, previous: string, blanks: nat)
    requires blanks >= 1 ==> Blank(previous)
    ensures var trimmed := TrimmedLines(lines);
      CompactLines(lines, previous, blanks) == Selected(trimmed, StayingFrom(trimmed, previous, blanks))
  {
    if lines != [] {
      var trimmed, line, rest := TrimmedLines(lines), TrimEnd(lines[0]), lines[1..];
      assert trimmed[1..] == TrimmedLines(rest) && trimmed[0] == line;
      if Blank(line) && blanks + 1 > 1 {
        StayingTail(trimmed, previous, blanks, previous, blanks + 1);
        CompactLinesSelect(rest, previous, blanks + 1);
      } else if !Blank(line) && line == previous {
        StayingTail(trimmed, previous, blanks, previous, 0);
        CompactLinesSelect(rest, previous, 0);
      } else {
        var run := if Blank(line) then blanks + 1 else 0;
        StayingTail(trimmed, previous, blanks, line, run);
        CompactLinesSelect(rest, line, run);
      }
    }
  }

  /** Of any line list exactly the staying lines are left, trimmed on their right and in order. */
  lemma CompactionKeepsExactly(lines: seq<string>)
    ensures var trimmed := TrimmedLines(lines);
      CompactLines(lines, "", 0) == Selected(trimmed, Staying(trimmed))
  {
    var trimmed := TrimmedLines(lines);
    CompactLinesSelect(lines, "", 0);
    if lines != [] {
      StayingCount(trimmed);
    }
    assert StayingFrom(trimmed, "", 0) == Staying(trimmed);
  }

  // ----- lines and text -----

  lemma {:induction false} JoinLinesAppend(a: seq<string>, b: seq<string>)
    requires a != [] && b != []
    ensures Join(a + b, "\n") == Join(a, "\n") + "\n" + Join(b, "\n")
  {
    if |a| == 1 {
      assert (a + b)[1..] == b;
    } else {
      assert (a + b)[1..] == a[1..] + b;
      JoinLinesAppend(a[1..], b);
      Assoc(a[0] + "\n", Join(a[1..], "\n"), "\n");
      Assoc(a[0] + "\n", Join(a[1..], "\n") + "\n", Join(b, "\n"));
    }
  }

  ghost predicate AreLines(lines: seq<string>) {
    forall i :: 0 <= i < |lines| ==> '\n' !in lines[i]
  }

  lemma {:induction false} NoneInside(s: string)
    ensures Index(s, "\n") < 0 <==> '\n' !in s
    ensures Index(s, "\n") >= 0 ==> '\n' !in s[..Index(s, "\n")]
  {
    if s != "" && s[0] != '\n' {
      NoneInside(s[1..]);
      var i := Index(s[1..], "\n");
      assert i >= 0 ==> s[..i + 1] == [s[0]] + s[1..][..i];
      assert s == [s[0]] + s[1..];
    }
  }

  lemma {:induction false} SplitIsLines(s: string)
    ensures AreLines(Split(s, "\n"))
    decreases |s|
  {
    NoneInside(s);
    var i := Index(s, "\n");
    if i >= 0 {
      SplitIsLines(s[i + 1..]);
    }
  }

  lemma SplitFirstLine(line: string, rest: string)
    requires '\n' !in line
    ensures Split(line + "\n" + rest, "\n") == [line] + Split(rest, "\n")
  {
    var s := line + "\n" + rest;
    assert HasPrefix(s[|line|..], "\n");
    IndexIsFirst(s, "\n", |line|);
    var i := Index(s, "\n");
    assert s[i..][0] == s[i];
    forall k | 0 <= k < |line|
      ensures s[k] != '\n'
    {
      assert s[k] == line[k] && line[k] in line;
    }
    assert s[..i] == line && s[i + 1..] == rest;
  }

  lemma {:induction false} SplitJoined(lines: seq<string>)
    requires lines != [] && AreLines(lines)
    ensures Split(Join(lines, "\n"), "\n") == lines
  {
    if |lines| == 1 {
      NoneInside(lines[0]);
    } else {
      SplitJoined(lines[1..]);
      SplitFirstLine(lines[0], Join(lines[1..], "\n"));
    }
  }

  lemma {:induction false} TrimLeftAcross(a: string, b: string)
    ensures TrimLeft(a + b) == if TrimLeft(a) == "" then TrimLeft(b) else TrimLeft(a) + b
  {
    if a == "" {
      assert a + b == b;
    } else {
      assert (a + b)[1..] == a[1..] + b;
      if IsSpace(a[0]) {
        TrimLeftAcross(a[1..], b);
      }
    }
  }

  lemma {:induction false} TrimRightAcross(a: string, b: string)
    ensures TrimRight(a + b) == if TrimRight(b) == "" then TrimRight(a) else a + TrimRight(b)
    decreases |b|
  {
    if b == "" {
      assert a + b == a;
    } else {
      assert (a + b)[..|a + b| - 1] == a + b[..|b| - 1];
      if IsSpace(b[|b| - 1]) {
        TrimRightAcross(a, b[..|b| - 1]);
      }
    }
  }

  lemma BlankSides(s: string)
    ensures Blank(s) <==> TrimLeft(s) == ""
    ensures Blank(s) <==> TrimRight(s) == ""
  {
    EraseTrim(s);
    EraseTrimLeft(s);
    EraseTrimRight(s);
    TrimLeftFacts(s);
    TrimRightFacts(s);
    if TrimLeft(s) != "" {
      EraseMember(TrimLeft(s), TrimLeft(s)[0]);
    }
    if TrimRight(s) != "" {
      EraseMember(TrimRight(s), TrimRight(s)[|TrimRight(s)| - 1]);
    }
  }

  /** The lines from the first that is not blank on, that one trimmed on its left. */
  function DropFront(lines: seq<string>): seq<string> {
    if lines == [] then []
    else if Blank(lines[0]) then DropFront(lines[1..])
    else [TrimLeft(lines[0])] + lines[1..]
  }

  /** The lines up to the last that is not blank, that one trimmed on its right. */
  function DropBack(lines: seq<string>): seq<string> {
    if lines == [] then []
    else
      var n := |lines| - 1;
      if Blank(lines[n]) then DropBack(lines[..n]) else lines[..n] + [TrimRight(lines[n])]
  }

  function Outer(lines: seq<string>): seq<string> {
    DropBack(DropFront(lines))
  }

  lemma {:induction false} TrimFrontJoin(lines: seq<string>)
    ensures TrimLeft(Join(lines, "\n")) == Join(DropFront(lines), "\n")
  {
    if lines != [] {
      BlankSides(lines[0]);
      if |lines| > 1 {
        var rest := Join(lines[1..], "\n");
        TrimLeftAcross(lines[0], "\n");
        TrimLeftAcross(lines[0] + "\n", rest);
        assert "\n"[1..] == "";
        TrimFrontJoin(lines[1..]);
        assert ([TrimLeft(lines[0])] + lines[1..])[1..] == lines[1..];
      }
    }
  }

  lemma {:induction false} TrimBackJoin(lines: seq<string>)
    ensures TrimRight(Join(lines, "\n")) == Join(DropBack(lines), "\n")
  {
    if lines != [] {
      var n := |lines| - 1;
      var init, last := lines[..n], lines[n];
      BlankSides(last);
      if n == 0 {
        assert init == [];
      } else {
        assert lines == init + [last];
        JoinLinesAppend(init, [last]);
        JoinLinesAppend(init, [TrimRight(last)]);
        TrimRightAcross(Join(init, "\n") + "\n", last);
        TrimRightAcross(Join(init, "\n"), "\n");
        assert "\n"[..0] == "";
        TrimBackJoin(init);
      }
    }
  }

  lemma OuterJoin(lines: seq<string>)
    ensures TrimSpace(Join(lines, "\n")) == Join(Outer(lines), "\n")
  {
    TrimFrontJoin(lines);
    TrimBackJoin(DropFront(lines));
  }

  lemma {:induction false} WeightIsLength(lines: seq<string>)
    requires lines != []
    ensures |Join(lines, "\n")| + 1 == Weight(lines)
  {
    if |lines| > 1 {
      WeightIsLength(lines[1..]);
    }
  }

  // ----- what outer trimming does to a compacted list -----

  lemma {:induction false} LineSet(lines: seq<string>, previous: string, blanks: nat)
    requires AreLines(lines)
    ensures AreLines(CompactLines(lines, previous, blanks))
  {
    if lines != [] {
      TrimEndPrefix(lines[0]);
      LineSet(lines[1..], previous, blanks + 1);
      LineSet(lines[1..], previous, 0);
      LineSet(lines[1..], TrimEnd(lines[0]), blanks + 1);
      LineSet(lines[1..], TrimEnd(lines[0]), 0);
    }
  }

  lemma {:induction false} TrimEndPrefix(line: string)
    ensures TrimEnd(line) <= line
  {
    if line != "" && (line[|line| - 1] == ' ' || line[|line| - 1] == '\t') {
      TrimEndPrefix(line[..|line| - 1]);
    }
  }

  /** The front is one line that is not blank, and behind it the list is as it was. */
  ghost predicate Headed(lines: seq<string>) {
    lines != [] ==>
      && !Blank(lines[0]) && TrimEnd(lines[0]) == lines[0] && '\n' !in lines[0]
      && Compacted(lines[1..]) && AreLines(lines[1..])
  }

  lemma LeftTrimmedLine(line: string)
    requires !Blank(line) && TrimEnd(line) == line && '\n' !in line
    ensures var l := TrimLeft(line); !Blank(l) && TrimEnd(l) == l && '\n' !in l
  {
    var l := TrimLeft(line);
    TrimLeftFacts(line);
    BlankSides(line);
    BlankSides(l);
    assert forall c :: c in l ==> c in line;
    assert l[|l| - 1] == line[|line| - 1];
    TrimEndShrinks(line[..|line| - 1]);
  }

  lemma RightTrimmedLine(line: string)
    requires !Blank(line) && '\n' !in line
    ensures var l := TrimRight(line); !Blank(l) && TrimEnd(l) == l && '\n' !in l
  {
    var l := TrimRight(line);
    TrimRightFacts(line);
    BlankSides(line);
    BlankSides(l);
    assert forall c :: c in l ==> c in line;
  }

  lemma {:induction false} DropFrontHeads(lines: seq<string>)
    requires Compacted(lines) && AreLines(lines)
    ensures Headed(DropFront(lines))
  {
    if lines != [] {
      assert lines == [lines[0]] + lines[1..];
      CompactedCons(lines[0], lines[1..]);
      if Blank(lines[0]) {
        DropFrontHeads(lines[1..]);
      } else {
        LeftTrimmedLine(lines[0]);
      }
    }
  }

  lemma {:induction false} DropBackShape(lines: seq<string>)
    requires lines != [] && !Blank(lines[0])
    ensures var out := DropBack(lines);
      var n := |out| - 1;
      0 <= n < |lines| && out == lines[..n] + [TrimRight(lines[n])] && !Blank(lines[n])
  {
    var n := |lines| - 1;
    if Blank(lines[n]) {
      DropBackShape(lines[..n]);
    }
  }

  predicate EndsDiffer(lines: seq<string>) {
    |lines| <= 1 || (lines[0] != lines[1] && lines[|lines| - 2] != lines[|lines| - 1])
  }

  /** Behind a head, every line but the last follows the one above it. */
  lemma OuterLines(lines: seq<string>)
    requires lines != [] && Headed(lines)
    ensures var out := DropBack(lines);
      && out != [] && AreLines(out) && Starts(out, "", 0) && !Blank(out[0]) && !Blank(out[|out| - 1])
      && (forall i :: 0 <= i < |out| ==> TrimEnd(out[i]) == out[i])
      && (forall i :: 1 < i < |out| - 1 ==> Follows(out[i - 1], out[i]))
  {
    DropBackShape(lines);
    var out := DropBack(lines);
    var n := |out| - 1;
    forall i | 0 <= i < |lines|
      ensures TrimEnd(lines[i]) == lines[i] && '\n' !in lines[i]
      ensures i > 1 ==> Follows(lines[i - 1], lines[i])
    {
      assert i > 0 ==> lines[i] == lines[1..][i - 1];
      assert i > 1 ==> lines[i - 1] == lines[1..][i - 2];
    }
    RightTrimmedLine(lines[n]);
    assert forall i :: 0 <= i < n ==> out[i] == lines[i];
  }

  /** Trimming the text of a compacted list leaves a compacted list exactly when neither end repeats its neighbour. */
  lemma OuterCompactedExactly(out: seq<string>)
    requires out != [] && !Blank(out[0]) && !Blank(out[|out| - 1])
    requires forall i :: 0 <= i < |out| ==> TrimEnd(out[i]) == out[i]
    requires forall i :: 1 < i < |out| - 1 ==> Follows(out[i - 1], out[i])
    ensures Compacted(out) <==> EndsDiffer(out)
  {
    if |out| > 1 {
      assert Follows(out[0], out[1]) <==> out[0] != out[1];
      assert Follows(out[|out| - 2], out[|out| - 1]) <==> out[|out| - 2] != out[|out| - 1];
    }
  }

  /** A text of trimmed lines is kept exactly when its line list is. */
  lemma TextStaysExactly(lines: seq<string>)
    requires lines != [] && AreLines(lines) && Trimmed(Join(lines, "\n")) && !Blank(lines[0])
    ensures SafeCompactContent(Join(lines, "\n")) == Join(lines, "\n") <==> CompactLines(lines, "", 0) == lines
  {
    var out := CompactLines(lines, "", 0);
    SplitJoined(lines);
    TrimmedStays(Join(lines, "\n"));
    CompactingShrinks(lines, "", 0);
    if out != lines {
      TrimEndKeepsText(lines[0]);
      assert out != [];
      WeightIsLength(out);
      WeightIsLength(lines);
    }
  }

  lemma {:induction false} TrimEndKeepsText(line: string)
    ensures Blank(TrimEnd(line)) <==> Blank(line)
    ensures Erase(TrimEnd(line)) == Erase(line)
  {
    EraseTrim(line);
    EraseTrim(TrimEnd(line));
    if line != "" && (line[|line| - 1] == ' ' || line[|line| - 1] == '\t') {
      TrimEndKeepsText(line[..|line| - 1]);
      EraseAppend(line[..|line| - 1], [line[|line| - 1]]);
      assert line == line[..|line| - 1] + [line[|line| - 1]];
    }
  }

  /** The lines that are left of a text, outer white space trimmed. */
  function LinesLeft(content: string): seq<string> {
    Outer(CompactLines(Split(content, "\n"), "", 0))
  }

  lemma LinesLeftFacts(content: string)
    ensures SafeCompactContent(content) == Join(LinesLeft(content), "\n")
    ensures LinesLeft(content) != [] ==>
      && AreLines(LinesLeft(content)) && !Blank(LinesLeft(content)[0])
      && (CompactLines(LinesLeft(content), "", 0) == LinesLeft(content) <==> EndsDiffer(LinesLeft(content)))
  {
    var lines := CompactLines(Split(content, "\n"), "", 0);
    OuterJoin(lines);
    SplitIsLines(content);
    LineSet(Split(content, "\n"), "", 0);
    CompactLinesTwice(Split(content, "\n"), "", 0);
    CompactLinesStayExactly(lines, "", 0);
    DropFrontHeads(lines);
    var front := DropFront(lines);
    if front != [] {
      OuterLines(front);
      OuterCompactedExactly(DropBack(front));
      CompactLinesStayExactly(DropBack(front), "", 0);
    }
  }

  /** The lines of a compacted text are the staying lines of the text, outer blank lines and outer white space
      trimmed; without any the text is empty. */
  lemma SafeCompactKeepsExactly(content: string)
    ensures var trimmed := TrimmedLines(Split(content, "\n"));
      var left := Outer(Selected(trimmed, Staying(trimmed)));
      if left == [] then SafeCompactContent(content) == "" else Split(SafeCompactContent(content), "\n") == left
  {
    CompactionKeepsExactly(Split(content, "\n"));
    LinesLeftFacts(content);
    if LinesLeft(content) != [] {
      SplitJoined(LinesLeft(content));
    }
  }

  lemma NothingStays()
    ensures SafeCompactContent("") == ""
  {
    assert Split("", "\n") == [""] && [""][1..] == [];
    assert CompactLines([""], "", 0) == [""] + CompactLines([], "", 1);
  }

  /** On text, compacting twice is compacting once exactly when trimming has not made an end equal to its neighbour. */
  lemma SafeCompactStaysExactly(content: string)
    ensures SafeCompactContent(SafeCompactContent(content)) == SafeCompactContent(content) <==>
      EndsDiffer(LinesLeft(content))
  {
    var lines := LinesLeft(content);
    LinesLeftFacts(content);
    if lines == [] {
      NothingStays();
    } else {
      TrimSpaceTrims(Join(CompactLines(Split(content, "\n"), "", 0), "\n"));
      TextStaysExactly(lines);
    }
  }

  lemma SplitTwo(a: string, b: string)
    requires '\n' !in a && '\n' !in b
    ensures Split(a + "\n" + b, "\n") == [a, b]
  {
    SplitFirstLine(a, b);
    NoneInside(b);
  }

  lemma TwoLinesStay(a: string, b: string)
    requires TrimEnd(a) == a && TrimEnd(b) == b && a != b && !Blank(a) && !Blank(b)
    ensures CompactLines([a, b], "", 0) == [a, b]
  {
    assert [a, b][1..] == [b] && [b][1..] == [];
    assert CompactLines([b], a, 0) == [b] + CompactLines([], b, 0);
  }

  lemma OuterOfTwo(a: string, b: string)
    requires !Blank(a) && !Blank(b)
    ensures Outer([a, b]) == [TrimLeft(a), TrimRight(b)]
  {
    assert DropFront([a, b]) == [TrimLeft(a)] + [b];
    assert [TrimLeft(a), b][..1] == [TrimLeft(a)];
    assert DropBack([TrimLeft(a), b]) == [TrimLeft(a)] + [TrimRight(b)];
  }

  /** Two different lines whose trimmed forms agree: the text that is left repeats its line. */
  lemma RepeatAppears(a: string, b: string, line: string)
    requires '\n' !in a && '\n' !in b && TrimEnd(a) == a && TrimEnd(b) == b && a != b
    requires line != "" && TrimLeft(a) == line && TrimRight(b) == line
    ensures SafeCompactContent(a + "\n" + b) == line + "\n" + line
    ensures LinesLeft(a + "\n" + b) == [line, line]
  {
    SplitTwo(a, b);
    BlankSides(a);
    BlankSides(b);
    TwoLinesStay(a, b);
    OuterOfTwo(a, b);
    LinesLeftFacts(a + "\n" + b);
    assert [line, line][1..] == [line] && Join([line], "\n") == line;
    assert Join([line, line], "\n") == line + "\n" + line;
  }

  lemma RepeatGoes(line: string)
    requires '\n' !in line && Trimmed(line) && line != ""
    ensures SafeCompactContent(line + "\n" + line) == line
  {
    SplitTwo(line, line);
    TrimmedStays(line);
    assert [line, line][1..] == [line] && [line][1..] == [];
    assert CompactLines([line], line, 0) == CompactLines([], line, 0);
    assert CompactLines([line, line], "", 0) == [line] + [];
  }

  /** Both ends can fail: a blank in front of the first line, and a carriage return behind the last. */
  lemma SafeCompactNotIdempotent()
    ensures SafeCompactContent(" a" + "\n" + "a") == "a" + "\n" + "a"
    ensures SafeCompactContent("a" + "\n" + "a\r") == "a" + "\n" + "a"
    ensures SafeCompactContent("a" + "\n" + "a") == "a"
  {
    assert " a"[1..] == "a" && "a\r"[..1] == "a";
    assert TrimLeft(" a") == TrimLeft("a") == "a" && TrimRight("a\r") == TrimRight("a") == "a";
    RepeatAppears(" a", "a", "a");
    RepeatAppears("a", "a\r", "a");
    RepeatGoes("a");
  }
}
