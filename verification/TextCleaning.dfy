/** Cleaning text line by line: code, white space and line endings. */
module TextCleaning {
  import opened Options
  import opened Text
  import opened Seqs
  import opened Compaction

  // ----- cleaning every line, then the outer white space -----

  function Linewise(clean: string -> string, text: string): string {
    TrimSpace(Join(Map(clean, Split(text, "\n")), "\n"))
  }

  /** A line that cleaning leaves as it is. */
  predicate Tidy(clean: string -> string, line: string) {
    clean(line) == line && '\n' !in line
  }

  /** What a line cleaner must keep to: a cleaned line is tidy, and stays so when its outer white space goes. */
  ghost predicate CleansLines(clean: string -> string) {
    && (forall line: string :: '\n' !in line ==> Tidy(clean, clean(line)))
    && (forall line: string :: Tidy(clean, line) ==> Tidy(clean, TrimLeft(line)) && Tidy(clean, TrimRight(line)))
  }

  ghost predicate AllTidy(clean: string -> string, lines: seq<string>) {
    forall i :: 0 <= i < |lines| ==> Tidy(clean, lines[i])
  }

  /** The lines that are left of a text. */
  function LinesOf(clean: string -> string, text: string): seq<string> {
    Outer(Map(clean, Split(text, "\n")))
  }

  lemma {:induction false} FrontTidy(clean: string -> string, lines: seq<string>)
    requires CleansLines(clean) && AllTidy(clean, lines)
    ensures AllTidy(clean, DropFront(lines))
  {
    if lines != [] && Blank(lines[0]) {
      FrontTidy(clean, lines[1..]);
    }
  }

  lemma {:induction false} BackTidy(clean: string -> string, lines: seq<string>)
    requires CleansLines(clean) && AllTidy(clean, lines)
    ensures AllTidy(clean, DropBack(lines))
  {
    if lines != [] && Blank(lines[|lines| - 1]) {
      BackTidy(clean, lines[..|lines| - 1]);
    }
  }

  lemma LinewiseLines(clean: string -> string, text: string)
    requires CleansLines(clean)
    ensures Linewise(clean, text) == Join(LinesOf(clean, text), "\n") && AllTidy(clean, LinesOf(clean, text))
  {
    var raw := Split(text, "\n");
    SplitIsLines(text);
    MapAt(clean, raw);
    OuterJoin(Map(clean, raw));
    FrontTidy(clean, Map(clean, raw));
    BackTidy(clean, DropFront(Map(clean, raw)));
  }

  lemma TidyMap(clean: string -> string, lines: seq<string>)
    requires AllTidy(clean, lines)
    ensures Map(clean, lines) == lines
  {
    MapAt(clean, lines);
  }

  /** Tidy lines without outer white space are left as they are. */
  lemma TidyTextStays(clean: string -> string, lines: seq<string>)
    requires AllTidy(clean, lines) && Trimmed(Join(lines, "\n"))
    requires lines != []
    ensures Linewise(clean, Join(lines, "\n")) == Join(lines, "\n")
  {
    assert forall i :: 0 <= i < |lines| ==> Tidy(clean, lines[i]);
    SplitJoined(lines);
    TidyMap(clean, lines);
    TrimmedStays(Join(lines, "\n"));
  }

  lemma NothingStays(clean: string -> string)
    requires CleansLines(clean)
    ensures Linewise(clean, "") == Join(LinesOf(clean, ""), "\n")
    ensures clean("") == "" ==> Linewise(clean, "") == ""
  {
    LinewiseLines(clean, "");
    assert Split("", "\n") == [""] && [""][1..] == [];
    assert Map(clean, [""]) == [clean("")] + Map(clean, []);
    TrimmedStays("");
  }

  /** Line by line, cleaning twice is cleaning once. */
  lemma LinewiseTwice(clean: string -> string, text: string)
    requires CleansLines(clean) && clean("") == ""
    ensures Linewise(clean, Linewise(clean, text)) == Linewise(clean, text)
  {
    LinewiseLines(clean, text);
    TrimSpaceTrims(Join(Map(clean, Split(text, "\n")), "\n"));
    if LinesOf(clean, text) == [] {
      NothingStays(clean);
    } else {
      TidyTextStays(clean, LinesOf(clean, text));
    }
  }

  // ----- line endings -----

  function LineEndings(text: string): string {
    ReplaceAll(text, "\r\n", "\n")
  }

  predicate EndsInReturn(line: string) {
    line != "" && line[|line| - 1] == '\r'
  }

  /** Some line but the last ends in a carriage return. */
  ghost predicate ReturnInside(lines: seq<string>) {
    exists i :: 0 <= i < |lines| - 1 && EndsInReturn(lines[i])
  }

  lemma FoundBehind(front: string, s: string, sub: string)
    requires Index(s, sub) >= 0
    ensures Index(front + s, sub) >= 0
  {
    var k := Index(s, sub);
    assert (front + s)[|front| + k..] == s[k..];
    IndexIsFirst(front + s, sub, |front| + k);
  }

  lemma ReturnAtEnd(line: string, rest: string)
    requires EndsInReturn(line)
    ensures Index(line + "\n" + rest, "\r\n") >= 0
  {
    var s, k := line + "\n" + rest, |line| - 1;
    assert s[k..] == "\r\n" + rest;
    IndexIsFirst(s, "\r\n", k);
  }

  /** A carriage return in front of a line end stands at the end of a line. */
  lemma ReturnPlace(line: string, rest: string, k: nat)
    requires '\n' !in line && !EndsInReturn(line) && k + 1 < |line + "\n" + rest|
    requires (line + "\n" + rest)[k] == '\r' && (line + "\n" + rest)[k + 1] == '\n'
    ensures k > |line|
  {
    var s := line + "\n" + rest;
    forall j | 0 <= j < |line|
      ensures s[j] != '\n'
    {
      assert s[j] == line[j] && line[j] in line;
    }
    assert line != "" ==> s[|line| - 1] == line[|line| - 1];
    assert s[|line|] == '\n';
  }

  lemma ReturnFound(line: string, rest: string)
    requires '\n' !in line && Index(line + "\n" + rest, "\r\n") >= 0 && !EndsInReturn(line)
    ensures Index(rest, "\r\n") >= 0
  {
    var s := line + "\n" + rest;
    var k := Index(s, "\r\n");
    assert s[k..][0] == s[k] && s[k..][1] == s[k + 1];
    ReturnPlace(line, rest, k);
    assert s[k..] == rest[k - |line| - 1..];
    IndexIsFirst(rest, "\r\n", k - |line| - 1);
  }

  lemma NoReturnAlone(line: string)
    ensures Index(line, "\r\n") >= 0 ==> '\n' in line && '\r' in line
  {
    var k := Index(line, "\r\n");
    if k >= 0 {
      assert line[k..][1] == line[k + 1] && line[k..][0] == line[k];
    }
  }

  /** Joined lines hold a carriage return before a line end exactly when a line but the last ends in one. */
  lemma {:induction false} ReturnsExactly(lines: seq<string>)
    requires lines != [] && AreLines(lines)
    ensures Index(Join(lines, "\n"), "\r\n") >= 0 <==> ReturnInside(lines)
  {
    if |lines| == 1 {
      NoReturnAlone(lines[0]);
    } else {
      var line, rest := lines[0], lines[1..];
      ReturnsExactly(rest);
      if EndsInReturn(line) {
        ReturnAtEnd(line, Join(rest, "\n"));
        assert ReturnInside(lines);
      } else {
        if Index(Join(rest, "\n"), "\r\n") >= 0 {
          FoundBehind(line + "\n", Join(rest, "\n"), "\r\n");
        }
        if Index(Join(lines, "\n"), "\r\n") >= 0 {
          ReturnFound(line, Join(rest, "\n"));
        }
        assert ReturnInside(lines) <==> ReturnInside(rest) by {
          assert forall i :: 0 < i < |lines| ==> lines[i] == rest[i - 1];
          assert forall i :: 0 <= i < |rest| ==> rest[i] == lines[i + 1];
        }
      }
    }
  }

  lemma {:induction false} ReplaceShrinks(s: string, from: string, to: string)
    requires |to| < |from|
    ensures |ReplaceAll(s, from, to)| <= |s|
    ensures if Index(s, from) < 0 then ReplaceAll(s, from, to) == s else |ReplaceAll(s, from, to)| < |s|
    decreases |s|
  {
    var i := Index(s, from);
    if i >= 0 {
      var rest := s[i + |from|..];
      ReplaceShrinks(rest, from, to);
      CutAround(s, from, i);
      assert Split(s, from)[1..] == Split(rest, from);
    }
  }

  // ----- code -----

  function EndTrimmer(): string -> string {
    line => TrimEnd(line)
  }

  /** normalizeCodeContent. */
  function NormalizeCode(content: string): string {
    Linewise(EndTrimmer(), LineEndings(content))
  }

  method ComputeNormalizeCode(content: string) returns (r: string)
    ensures r == NormalizeCode(content)
  {
    var lines := MapEach(EndTrimmer(), Split(LineEndings(content), "\n"));
    r := TrimSpace(Join(lines, "\n"));
  }

  lemma {:induction false} TrimRightDropsEnd(line: string)
    ensures TrimEnd(TrimRight(line)) == TrimRight(line)
  {
    if line != "" && IsSpace(line[|line| - 1]) {
      TrimRightDropsEnd(line[..|line| - 1]);
    }
  }

  lemma TrimLeftKeepsEnd(line: string)
    requires TrimEnd(line) == line
    ensures TrimEnd(TrimLeft(line)) == TrimLeft(line)
  {
    var l := TrimLeft(line);
    TrimLeftFacts(line);
    if l != "" {
      assert l[|l| - 1] == line[|line| - 1];
      TrimEndShrinks(line[..|line| - 1]);
    }
  }

  lemma SidesAreInside(line: string)
    ensures forall c :: c in TrimLeft(line) || c in TrimRight(line) || c in TrimEnd(line) ==> c in line
  {
    TrimLeftFacts(line);
    TrimRightFacts(line);
    TrimEndPrefix(line);
  }

  lemma EndTrimmerCleansLines()
    ensures CleansLines(EndTrimmer())
  {
    forall line: string
      ensures '\n' !in line ==> Tidy(EndTrimmer(), TrimEnd(line))
      ensures Tidy(EndTrimmer(), line) ==> Tidy(EndTrimmer(), TrimLeft(line)) && Tidy(EndTrimmer(), TrimRight(line))
    {
      TrimEndTwice(line);
      SidesAreInside(line);
      TrimRightDropsEnd(line);
      if TrimEnd(line) == line {
        TrimLeftKeepsEnd(line);
      }
    }
  }

  /** The lines of cleaned code. */
  function CodeLines(content: string): seq<string> {
    LinesOf(EndTrimmer(), LineEndings(content))
  }

  lemma {:induction false} TotalOfMap(lines: seq<string>)
    ensures Weight(Map(EndTrimmer(), lines)) <= Weight(lines)
  {
    if lines != [] {
      TotalOfMap(lines[1..]);
      TrimEndShrinks(lines[0]);
    }
  }

  /** Cleaning code never makes it longer, and shorter when there is a line ending to replace. */
  lemma CodeShrinks(content: string)
    ensures |NormalizeCode(content)| <= |content|
    ensures Index(content, "\r\n") >= 0 ==> |NormalizeCode(content)| < |content|
  {
    var text := LineEndings(content);
    var lines := Split(text, "\n");
    ReplaceShrinks(content, "\r\n", "\n");
    SplitJoin(text, "\n");
    WeightIsLength(lines);
    MapAt(EndTrimmer(), lines);
    WeightIsLength(Map(EndTrimmer(), lines));
    TotalOfMap(lines);
  }

  /** Cleaning code twice is cleaning it once exactly when no line of the cleaned code but the last ends in a carriage
      return; otherwise the second pass makes it shorter. */
  lemma CodeStaysExactly(content: string)
    ensures NormalizeCode(NormalizeCode(content)) == NormalizeCode(content) <==> !ReturnInside(CodeLines(content))
    ensures ReturnInside(CodeLines(content)) ==> |NormalizeCode(NormalizeCode(content))| < |NormalizeCode(content)|
  {
    var once, lines := NormalizeCode(content), CodeLines(content);
    EndTrimmerCleansLines();
    LinewiseLines(EndTrimmer(), LineEndings(content));
    CodeShrinks(once);
    ReplaceShrinks(once, "\r\n", "\n");
    if lines == [] {
      NoReturnAlone("");
      LinewiseTwice(EndTrimmer(), LineEndings(content));
    } else {
      assert forall i :: 0 <= i < |lines| ==> Tidy(EndTrimmer(), lines[i]);
      ReturnsExactly(lines);
      LinewiseTwice(EndTrimmer(), LineEndings(content));
    }
  }

  lemma ReturnIndex(a: string, b: string)
    requires '\n' !in a
    ensures Index(a + "\r\n" + b, "\r\n") == |a|
  {
    var s := a + "\r\n" + b;
    assert s[|a|..] == "\r\n" + b;
    IndexIsFirst(s, "\r\n", |a|);
    var k := Index(s, "\r\n");
    assert s[k..][1] == s[k + 1];
    forall j | 0 <= j <= |a|
      ensures s[j] != '\n'
    {
      assert j < |a| ==> s[j] == a[j] && a[j] in a;
    }
  }

  lemma ReplaceOnce(a: string, b: string)
    requires '\n' !in a && '\n' !in b
    ensures LineEndings(a + "\r\n" + b) == a + "\n" + b
  {
    var s := a + "\r\n" + b;
    ReturnIndex(a, b);
    assert s[..|a|] == a && s[|a| + 2..] == b;
    NoReturnAlone(b);
    assert Split(b, "\r\n") == [b];
    assert Split(s, "\r\n") == [a] + [b];
    assert [a, b][1..] == [b] && Join([b], "\n") == b;
    assert Join([a, b], "\n") == a + "\n" + b;
  }

  lemma TwoCodeLines(a: string, b: string)
    requires '\n' !in a && '\n' !in b && TrimEnd(a) == a && TrimEnd(b) == b
    requires a != "" && b != "" && !IsSpace(a[0]) && !IsSpace(b[|b| - 1])
    ensures NormalizeCode(a + "\r\n" + b) == a + "\n" + b
  {
    ReplaceOnce(a, b);
    SplitTwo(a, b);
    assert [a, b][1..] == [b] && [b][1..] == [];
    assert Map(EndTrimmer(), [b]) == [b] + Map(EndTrimmer(), []);
    assert Map(EndTrimmer(), [a, b]) == [a] + [b];
    assert Join([a, b], "\n") == a + "\n" + b;
    TrimmedStays(a + "\n" + b);
  }

  /** Two carriage returns in front of a line end: each pass takes one. */
  lemma CodeNotIdempotent()
    ensures NormalizeCode("a\r" + "\r\n" + "b") == "a\r" + "\n" + "b" == "a" + "\r\n" + "b"
    ensures NormalizeCode("a" + "\r\n" + "b") == "a" + "\n" + "b"
  {
    TwoCodeLines("a\r", "b");
    TwoCodeLines("a", "b");
  }

  // ----- white space -----

  /** The length of the first word. */
  function WordEnd(s: string): (n: nat)
    ensures n <= |s| && (n < |s| ==> IsSpace(s[n])) && forall i :: 0 <= i < n ==> !IsSpace(s[i])
    ensures s != "" && !IsSpace(s[0]) ==> n > 0
  {
    if s == "" || IsSpace(s[0]) then 0 else 1 + WordEnd(s[1..])
  }

  /** strings.Fields. */
  function Fields(s: string): seq<string>
    decreases |s|
  {
    TrimLeftFacts(s);
    var t := TrimLeft(s);
    if t == "" then [] else [t[..WordEnd(t)]] + Fields(t[WordEnd(t)..])
  }

  predicate IsWord(w: string) {
    w != "" && forall i :: 0 <= i < |w| ==> !IsSpace(w[i])
  }

  ghost predicate AllWords(words: seq<string>) {
    forall i :: 0 <= i < |words| ==> IsWord(words[i])
  }

  lemma {:induction false} FieldsAreWords(s: string)
    ensures AllWords(Fields(s))
    decreases |s|
  {
    TrimLeftFacts(s);
    var t := TrimLeft(s);
    if t != "" {
      FieldsAreWords(t[WordEnd(t)..]);
    }
  }

  lemma {:induction false} FieldInside(s: string, i: nat, c: char)
    requires i < |Fields(s)| && c in Fields(s)[i]
    ensures c in s
    decreases |s|
  {
    TrimLeftFacts(s);
    var t := TrimLeft(s);
    if i > 0 {
      FieldInside(t[WordEnd(t)..], i - 1, c);
    }
  }

  function CollapseLine(line: string): string {
    Join(Fields(line), " ")
  }

  lemma WordEndAt(w: string, rest: string)
    requires IsWord(w) && (rest != "" ==> IsSpace(rest[0]))
    ensures WordEnd(w + rest) == |w|
  {
    var s := w + rest;
    assert forall i :: 0 <= i < |w| ==> s[i] == w[i];
    assert rest != "" ==> s[|w|] == rest[0];
  }

  lemma {:induction false} FieldsOfJoined(words: seq<string>)
    requires AllWords(words)
    ensures Fields(Join(words, " ")) == words
  {
    if |words| == 1 {
      WordEndAt(words[0], "");
      assert words[0] + "" == words[0];
    } else if words != [] {
      var rest := " " + Join(words[1..], " ");
      FieldsOfJoined(words[1..]);
      WordEndAt(words[0], rest);
      assert Join(words, " ") == words[0] + rest;
      assert (words[0] + rest)[|words[0]|..] == rest;
      assert rest[1..] == Join(words[1..], " ");
      assert Fields(rest) == Fields(Join(words[1..], " "));
    }
  }

  lemma {:induction false} JoinedWordsTrimmed(words: seq<string>)
    requires AllWords(words)
    ensures Trimmed(Join(words, " ")) && (words != [] ==> Join(words, " ") != "")
  {
    if |words| > 1 {
      JoinedWordsTrimmed(words[1..]);
    }
  }

  lemma {:induction false} JoinedInside(words: seq<string>, c: char)
    ensures c in Join(words, " ") ==> c == ' ' || exists i :: 0 <= i < |words| && c in words[i]
  {
    if |words| > 1 && c in Join(words, " ") && c != ' ' && c !in words[0] {
      JoinedInside(words[1..], c);
      var i :| 0 <= i < |words[1..]| && c in words[1..][i];
      assert c in words[i + 1];
    }
  }

  /** A collapsed line holds runes of the line that are no white space, and blanks. */
  lemma CollapsedRunes(line: string, c: char)
    ensures c in CollapseLine(line) ==> c == ' ' || (c in line && !IsSpace(c))
  {
    FieldsAreWords(line);
    JoinedInside(Fields(line), c);
    if c in CollapseLine(line) && c != ' ' {
      var i :| 0 <= i < |Fields(line)| && c in Fields(line)[i];
      assert IsWord(Fields(line)[i]);
      FieldInside(line, i, c);
    }
  }

  lemma CollapseFacts(line: string)
    ensures CollapseLine(CollapseLine(line)) == CollapseLine(line) && Trimmed(CollapseLine(line))
    ensures '\n' !in CollapseLine(line) && '\r' !in CollapseLine(line)
  {
    FieldsAreWords(line);
    FieldsOfJoined(Fields(line));
    JoinedWordsTrimmed(Fields(line));
    CollapsedRunes(line, '\n');
    CollapsedRunes(line, '\r');
  }

  function Collapser(): string -> string {
    line => CollapseLine(line)
  }

  lemma CollapserCleansLines()
    ensures CleansLines(Collapser()) && Collapser()("") == ""
  {
    forall line: string
      ensures '\n' !in line ==> Tidy(Collapser(), CollapseLine(line))
      ensures Tidy(Collapser(), line) ==> Tidy(Collapser(), TrimLeft(line)) && Tidy(Collapser(), TrimRight(line))
    {
      CollapseFacts(line);
      if CollapseLine(line) == line {
        TrimmedSides(line);
      }
    }
  }

  lemma TrimmedSides(s: string)
    requires Trimmed(s)
    ensures TrimLeft(s) == s == TrimRight(s)
  {}

  /** NormalizeWhitespace. */
  function NormalizeWhitespace(text: string): string {
    Linewise(Collapser(), text)
  }

  method ComputeNormalizeWhitespace(text: string) returns (r: string)
    ensures r == NormalizeWhitespace(text)
  {
    var lines := MapEach(Collapser(), Split(text, "\n"));
    r := TrimSpace(Join(lines, "\n"));
  }

  lemma {:induction false} JoinedLineRunes(lines: seq<string>, c: char)
    requires c != '\n' && forall i :: 0 <= i < |lines| ==> c !in lines[i]
    ensures c !in Join(lines, "\n")
  {
    if |lines| > 1 {
      JoinedLineRunes(lines[1..], c);
    }
  }

  lemma {:induction false} SplitRunes(s: string, c: char, i: nat)
    requires i < |Split(s, "\n")| && c in Split(s, "\n")[i]
    ensures c in s
    decreases |s|
  {
    var k := Index(s, "\n");
    if k >= 0 && i > 0 {
      SplitRunes(s[k + 1..], c, i - 1);
    }
  }

  lemma TrimmedInside(s: string, c: char)
    ensures c in TrimSpace(s) ==> c in s
  {
    SidesAreInside(s);
    SidesAreInside(TrimLeft(s));
  }

  /** What stands in text with normal white space stands in the text, or is a blank or a line end; no other white space
      does. */
  lemma NormalizedRunes(text: string, c: char)
    requires c != '\n' && c != ' ' && (c !in text || IsSpace(c))
    ensures c !in NormalizeWhitespace(text)
  {
    var raw := Split(text, "\n");
    MapAt(Collapser(), raw);
    forall i | 0 <= i < |raw|
      ensures c !in Map(Collapser(), raw)[i]
    {
      CollapsedRunes(raw[i], c);
      if c in raw[i] {
        SplitRunes(text, c, i);
      }
    }
    JoinedLineRunes(Map(Collapser(), raw), c);
    TrimmedInside(Join(Map(Collapser(), raw), "\n"), c);
  }

  lemma NormalizedStays(text: string)
    ensures var s := NormalizeWhitespace(text);
      NormalizeWhitespace(s) == s && TrimSpace(s) == s && LineEndings(s) == s
  {
    var s := NormalizeWhitespace(text);
    CollapserCleansLines();
    LinewiseTwice(Collapser(), text);
    TrimIdempotent(Join(Map(Collapser(), Split(text, "\n")), "\n"));
    NormalizedRunes(text, '\r');
    NoReturnAlone(s);
    ReplaceShrinks(s, "\r\n", "\n");
  }

  // ----- the profiles of the text sanitiser -----

  /** The active turn: line endings, outer space, white space. */
  function ActiveText(text: string): string {
    NormalizeWhitespace(TrimSpace(LineEndings(text)))
  }

  lemma ActiveTextTwice(text: string)
    ensures ActiveText(ActiveText(text)) == ActiveText(text)
  {
    NormalizedStays(TrimSpace(LineEndings(text)));
  }

  /** Stable text: the same, with identifiers masked before white space is normalised. */
  function StableText(mask: string -> string, text: string): string {
    NormalizeWhitespace(mask(TrimSpace(LineEndings(text))))
  }

  /** A second pass changes nothing exactly when masking what is left changes white space at most. */
  lemma StableTextStaysExactly(mask: string -> string, text: string)
    ensures var s := StableText(mask, text);
      StableText(mask, s) == s <==> NormalizeWhitespace(mask(s)) == s
  {
    NormalizedStays(mask(TrimSpace(LineEndings(text))));
  }

  // ----- source labels -----

  function Slashes(text: string): string {
    ReplaceAll(text, "\\", "/")
  }

  /** NormalizeSourceLabel; `url` reads an absolute URL and gives it back without query and fragment. */
  function SourceLabel(url: string -> Option<string>, value: string): string {
    var t := Slashes(TrimSpace(value));
    if Blank(value) then ""
    else match url(t)
      case Some(s) => TrimSpace(s)
      case None => NormalizeWhitespace(t)
  }

  lemma LabelIsTrimmed(url: string -> Option<string>, value: string)
    ensures Trimmed(SourceLabel(url, value))
    ensures Blank(value) ==> SourceLabel(url, value) == ""
  {
    var t := Slashes(TrimSpace(value));
    match url(t)
    case Some(s) => TrimSpaceTrims(s);
    case None => TrimSpaceTrims(Join(Map(Collapser(), Split(t, "\n")), "\n"));
  }

  lemma {:induction false} AbsentStays(s: string, c: char, to: string)
    requires c !in s
    ensures ReplaceAll(s, [c], to) == s
  {
    FoundRune(s, c);
  }

  lemma FoundRune(s: string, c: char)
    ensures Index(s, [c]) >= 0 ==> c in s
  {
    var k := Index(s, [c]);
    if k >= 0 {
      assert s[k..][0] == s[k];
    }
  }

  lemma {:induction false} ReplacedIsGone(s: string, c: char, to: string)
    requires c !in to
    ensures c !in ReplaceAll(s, [c], to)
    decreases |s|
  {
    var k := Index(s, [c]);
    if k < 0 {
      RuneFound(s, c);
    } else {
      var rest := s[k + 1..];
      ReplacedIsGone(rest, c, to);
      assert Split(s, [c])[1..] == Split(rest, [c]);
      FirstRune(s, c);
    }
  }

  lemma RuneFound(s: string, c: char)
    ensures c in s ==> Index(s, [c]) >= 0
  {
    if c in s {
      var k :| 0 <= k < |s| && s[k] == c;
      assert s[k..][0] == c;
      IndexIsFirst(s, [c], k);
    }
  }

  lemma {:induction false} FirstRune(s: string, c: char)
    ensures Index(s, [c]) >= 0 ==> c !in s[..Index(s, [c])]
  {
    if s != "" && s[0] != c {
      FirstRune(s[1..], c);
      var i := Index(s[1..], [c]);
      assert i >= 0 ==> s[..i + 1] == [s[0]] + s[1..][..i];
    }
  }

  /** A label that was no URL stays unless normal white space makes it one that is spelled differently. */
  lemma PlainLabelStaysExactly(url: string -> Option<string>, value: string)
    requires !Blank(value) && url(Slashes(TrimSpace(value))).None?
    ensures var w := SourceLabel(url, value);
      SourceLabel(url, w) == w <==> w == "" || url(w).None? || TrimSpace(url(w).value) == w
  {
    var t := Slashes(TrimSpace(value));
    var w := NormalizeWhitespace(t);
    NormalizedStays(t);
    ReplacedIsGone(TrimSpace(value), '\\', "/");
    NormalizedRunes(t, '\\');
    AbsentStays(w, '\\', "/");
  }
}
