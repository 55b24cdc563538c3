/** Cutting a body fragment into titles and paragraphs, line by line. */
module Segmentation {
  import opened Options
  import opened Text
  import opened Seqs
  import opened Content

  /** Boilerplate (given all lines, for their frequencies), heading and word-count rules; their patterns are left
      open. */
  datatype Rules = Rules(
    boilerplate: (string, seq<string>) -> bool,
    heading: string -> Option<string>,
    fewWords: string -> bool)

  /** What becomes of a line. */
  datatype Role = BlankLine | Boilerplate | Underline | Title(text: string) | Body(text: string)

  predicate IsUnderline(line: string) {
    var trimmed := TrimSpace(line);
    |trimmed| >= 3 && forall i :: 0 <= i < |trimmed| ==> trimmed[i] == '=' || trimmed[i] == '-'
  }

  predicate LooksHeading(rules: Rules, line: string) {
    rules.heading(line).Some? || rules.fewWords(line)
  }

  /** The line at i is a heading underlined by the next line. */
  predicate IsUnderlined(rules: Rules, lines: seq<string>, i: nat)
    requires i < |lines|
  {
    i + 1 < |lines| && IsUnderline(lines[i + 1]) && LooksHeading(rules, TrimSpace(lines[i]))
  }

  /** The role of every line from i on: one role a line. */
  function Roles(rules: Rules, lines: seq<string>, i: nat): (roles: seq<Role>)
    requires i <= |lines|
    ensures |roles| == |lines| - i
    decreases |lines| - i
  {
    if i == |lines| then []
    else
      var line := TrimSpace(lines[i]);
      if line == "" then [BlankLine] + Roles(rules, lines, i + 1)
      else if rules.boilerplate(line, lines) then [Boilerplate] + Roles(rules, lines, i + 1)
      else if IsUnderlined(rules, lines, i) then [Title(line), Underline] + Roles(rules, lines, i + 2)
      else if rules.heading(line).Some? then [Title(rules.heading(line).value)] + Roles(rules, lines, i + 1)
      else [Body(line)] + Roles(rules, lines, i + 1)
  }

  // ----- the fragments built from the roles -----

  function FlushParagraph(paragraph: seq<string>, body: seq<string>): seq<string> {
    if paragraph == [] then body else body + [TrimSpace(Join(paragraph, " "))]
  }

  function FlushBody(body: seq<string>, language: string): seq<Fragment> {
    var content := TrimSpace(Join(body, "\n\n"));
    if body == [] || content == "" then [] else [Fragment("body", content, language)]
  }

  /** The fragments from a state with an open paragraph and open body paragraphs. */
  function Build(roles: seq<Role>, paragraph: seq<string>, body: seq<string>, language: string): seq<Fragment>
    decreases |roles|
  {
    if roles == [] then FlushBody(FlushParagraph(paragraph, body), language)
    else
      match roles[0]
      case BlankLine => Build(roles[1..], [], FlushParagraph(paragraph, body), language)
      case Boilerplate => Build(roles[1..], paragraph, body, language)
      case Underline => Build(roles[1..], paragraph, body, language)
      case Title(text) =>
        FlushBody(FlushParagraph(paragraph, body), language) + [Fragment("title", text, language)]
          + Build(roles[1..], [], [], language)
      case Body(text) => Build(roles[1..], paragraph + [text], body, language)
  }

  function CountTitles(roles: seq<Role>): nat {
    if roles == [] then 0 else (if roles[0].Title? then 1 else 0) + CountTitles(roles[1..])
  }

  function CountBoilerplate(roles: seq<Role>): nat {
    if roles == [] then 0 else (if roles[0].Boilerplate? then 1 else 0) + CountBoilerplate(roles[1..])
  }

  /** What a loop has to know about the roles from i on when it moves from i to next. */
  ghost predicate Advances(rules: Rules, lines: seq<string>, i: nat, next: nat, titles: nat, boilerplate: nat) {
    && i < next <= |lines|
    && CountTitles(Roles(rules, lines, i)) == titles + CountTitles(Roles(rules, lines, next))
    && CountBoilerplate(Roles(rules, lines, i)) == boilerplate + CountBoilerplate(Roles(rules, lines, next))
  }

  /** A line that is no title has one role and moves one line on. */
  lemma PlainStep(rules: Rules, lines: seq<string>, i: nat)
    requires i < |lines| && !Roles(rules, lines, i)[0].Title?
    ensures var role := Roles(rules, lines, i)[0];
      Roles(rules, lines, i)[1..] == Roles(rules, lines, i + 1)
      && Advances(rules, lines, i, i + 1, 0, if role.Boilerplate? then 1 else 0)
  {}

  /** A title's roles: the title, and the underline it consumes if there is one. */
  lemma TitleStep(rules: Rules, lines: seq<string>, i: nat, next: nat, title: string,
                  paragraph: seq<string>, body: seq<string>, language: string)
    requires i < |lines|
    requires TrimSpace(lines[i]) != "" && !rules.boilerplate(TrimSpace(lines[i]), lines)
    requires if IsUnderlined(rules, lines, i) then next == i + 2 && title == TrimSpace(lines[i])
             else next == i + 1 && rules.heading(TrimSpace(lines[i])) == Some(title)
    ensures Advances(rules, lines, i, next, 1, 0)
    ensures Build(Roles(rules, lines, i), paragraph, body, language) ==
      FlushBody(FlushParagraph(paragraph, body), language) + [Fragment("title", title, language)]
      + Build(Roles(rules, lines, next), [], [], language)
  {
    var roles := Roles(rules, lines, i);
    assert roles[0] == Title(title);
    if IsUnderlined(rules, lines, i) {
      assert roles[1] == Underline && roles[1..][1..] == Roles(rules, lines, next);
      assert roles[1..][0] == Underline;
    } else {
      assert roles[1..] == Roles(rules, lines, next);
    }
  }

  /** A turn of the line loop of preprocessBodyFragment; a title may take the line under it along. */
  method Turn(rules: Rules, lines: seq<string>, i: nat, language: string,
              fragments0: seq<Fragment>, paragraph0: seq<string>, body0: seq<string>)
    returns (next: nat, fragments: seq<Fragment>, paragraph: seq<string>, body: seq<string>, titles: nat,
      boilerplate: nat)
    requires i < |lines|
    ensures Advances(rules, lines, i, next, titles, boilerplate)
    ensures fragments + Build(Roles(rules, lines, next), paragraph, body, language)
         == fragments0 + Build(Roles(rules, lines, i), paragraph0, body0, language)
  {
    fragments, paragraph, body, titles, boilerplate, next := fragments0, paragraph0, body0, 0, 0, i + 1;
    var line := TrimSpace(lines[i]);
    if line == "" {
      PlainStep(rules, lines, i);
      body, paragraph := FlushParagraph(paragraph, body), [];
    } else if rules.boilerplate(line, lines) {
      PlainStep(rules, lines, i);
      boilerplate := 1;
    } else {
      var underlined := IsUnderlined(rules, lines, i);
      var title := if underlined then Some(line) else rules.heading(line);
      if title.Some? {
        if underlined {
          next := i + 2;
        }
        TitleStep(rules, lines, i, next, title.value, paragraph, body, language);
        var flushed := FlushBody(FlushParagraph(paragraph, body), language) +
          [Fragment("title", title.value, language)];
        Assoc(fragments, flushed, Build(Roles(rules, lines, next), [], [], language));
        fragments, body, paragraph, titles := fragments + flushed, [], [], 1;
      } else {
        PlainStep(rules, lines, i);
        paragraph := paragraph + [line];
      }
    }
  }

  /** The line loop of preprocessBodyFragment. */
  method Segment(rules: Rules, lines: seq<string>, language: string)
    returns (fragments: seq<Fragment>, promotedTitles: nat, removedBoilerplate: nat)
    ensures fragments == Build(Roles(rules, lines, 0), [], [], language)
    ensures promotedTitles == CountTitles(Roles(rules, lines, 0))
    ensures removedBoilerplate == CountBoilerplate(Roles(rules, lines, 0))
  {
    ghost var roles := Roles(rules, lines, 0);
    fragments, promotedTitles, removedBoilerplate := [], 0, 0;
    var body: seq<string>, paragraph: seq<string> := [], [];
    var i: nat := 0;
    while i < |lines|
      invariant i <= |lines|
      invariant fragments + Build(Roles(rules, lines, i), paragraph, body, language) == Build(roles, [], [], language)
      invariant promotedTitles + CountTitles(Roles(rules, lines, i)) == CountTitles(roles)
      invariant removedBoilerplate + CountBoilerplate(Roles(rules, lines, i)) == CountBoilerplate(roles)
      decreases |lines| - i
    {
      var titles, boilerplate;
      i, fragments, paragraph, body, titles, boilerplate := Turn(rules, lines, i, language, fragments, paragraph, body);
      promotedTitles, removedBoilerplate := promotedTitles + titles, removedBoilerplate + boilerplate;
    }
    fragments := fragments + FlushBody(FlushParagraph(paragraph, body), language);
  }

  // ----- paragraphs -----

  /** Lines with something in them, trimmed. */
  ghost predicate AreTexts(lines: seq<string>) {
    lines != [] && forall line :: line in lines ==> line != "" && Trimmed(line)
  }

  function BodyRoles(lines: seq<string>): seq<Role> {
    if lines == [] then [] else [Body(lines[0])] + BodyRoles(lines[1..])
  }

  /** The roles of paragraphs, a blank line behind each. */
  function ParagraphRoles(paragraphs: seq<seq<string>>): seq<Role> {
    if paragraphs == [] then [] else BodyRoles(paragraphs[0]) + [BlankLine] + ParagraphRoles(paragraphs[1..])
  }

  /** The lines of each paragraph, with a blank between them. */
  function ParagraphTexts(paragraphs: seq<seq<string>>): seq<string> {
    if paragraphs == [] then [] else [Join(paragraphs[0], " ")] + ParagraphTexts(paragraphs[1..])
  }

  lemma {:induction false} JoinIsText(parts: seq<string>, sep: string)
    requires AreTexts(parts)
    ensures Join(parts, sep) != "" && Trimmed(Join(parts, sep))
  {
    assert parts[0] in parts && forall part :: part in parts[1..] ==> part in parts;
    if |parts| > 1 {
      JoinIsText(parts[1..], sep);
      var rest := Join(parts[1..], sep);
      assert Join(parts, sep)[|Join(parts, sep)| - 1] == rest[|rest| - 1];
    }
  }

  lemma {:induction false} LinesOpen(lines: seq<string>, rest: seq<Role>, paragraph: seq<string>, body: seq<string>,
                                     language: string)
    ensures Build(BodyRoles(lines) + rest, paragraph, body, language) == Build(rest, paragraph + lines, body, language)
  {
    if lines == [] {
      assert BodyRoles(lines) + rest == rest && paragraph + lines == paragraph;
    } else {
      assert (BodyRoles(lines) + rest)[1..] == BodyRoles(lines[1..]) + rest;
      LinesOpen(lines[1..], rest, paragraph + [lines[0]], body, language);
      assert paragraph + [lines[0]] + lines[1..] == paragraph + lines;
    }
  }

  lemma OneParagraph(lines: seq<string>, rest: seq<Role>, body: seq<string>, language: string)
    requires AreTexts(lines)
    ensures Build(BodyRoles(lines) + ([BlankLine] + rest), [], body, language)
      == Build(rest, [], body + [Join(lines, " ")], language)
  {
    LinesOpen(lines, [BlankLine] + rest, [], body, language);
    assert [] + lines == lines && ([BlankLine] + rest)[1..] == rest;
    JoinIsText(lines, " ");
    TrimmedStays(Join(lines, " "));
  }

  lemma {:induction false} ParagraphsOpen(paragraphs: seq<seq<string>>, rest: seq<Role>, body: seq<string>,
                                          language: string)
    requires forall lines :: lines in paragraphs ==> AreTexts(lines)
    ensures Build(ParagraphRoles(paragraphs) + rest, [], body, language)
      == Build(rest, [], body + ParagraphTexts(paragraphs), language)
  {
    if paragraphs == [] {
      assert ParagraphRoles(paragraphs) + rest == rest && body + ParagraphTexts(paragraphs) == body;
    } else {
      var first, later := paragraphs[0], paragraphs[1..];
      assert first in paragraphs && forall lines :: lines in later ==> lines in paragraphs;
      Assoc(BodyRoles(first), [BlankLine], ParagraphRoles(later));
      Assoc(BodyRoles(first), [BlankLine] + ParagraphRoles(later), rest);
      Assoc([BlankLine], ParagraphRoles(later), rest);
      OneParagraph(first, ParagraphRoles(later) + rest, body, language);
      ParagraphsOpen(later, rest, body + [Join(first, " ")], language);
      Assoc(body, [Join(first, " ")], ParagraphTexts(later));
    }
  }

  lemma {:induction false} TextsAreTexts(paragraphs: seq<seq<string>>)
    requires paragraphs != [] && forall lines :: lines in paragraphs ==> AreTexts(lines)
    ensures AreTexts(ParagraphTexts(paragraphs))
  {
    assert paragraphs[0] in paragraphs && forall lines :: lines in paragraphs[1..] ==> lines in paragraphs;
    JoinIsText(paragraphs[0], " ");
    if |paragraphs| > 1 {
      TextsAreTexts(paragraphs[1..]);
    }
  }

  /** Paragraphs become one body fragment: a blank between the lines of a paragraph, a blank line between paragraphs. A
      title behind them closes it and becomes a fragment of its own. */
  lemma ParagraphsBecomeBody(paragraphs: seq<seq<string>>, title: string, later: seq<Role>, language: string)
    requires paragraphs != [] && forall lines :: lines in paragraphs ==> AreTexts(lines)
    ensures var body := Fragment("body", Join(ParagraphTexts(paragraphs), "\n\n"), language);
      && Build(ParagraphRoles(paragraphs), [], [], language) == [body]
      && Build(ParagraphRoles(paragraphs) + ([Title(title)] + later), [], [], language)
           == [body] + [Fragment("title", title, language)] + Build(later, [], [], language)
  {
    var texts := ParagraphTexts(paragraphs);
    assert ParagraphRoles(paragraphs) + [] == ParagraphRoles(paragraphs) && [] + texts == texts;
    ParagraphsOpen(paragraphs, [], [], language);
    ParagraphsOpen(paragraphs, [Title(title)] + later, [], language);
    assert ([Title(title)] + later)[1..] == later;
    TextsAreTexts(paragraphs);
    JoinIsText(texts, "\n\n");
    TrimmedStays(Join(texts, "\n\n"));
  }

  // ----- no line is lost -----

  /** The texts of titles and body lines, in order. */
  function KeptTexts(roles: seq<Role>): seq<string> {
    if roles == [] then []
    else (if roles[0].Title? || roles[0].Body? then [roles[0].text] else []) + KeptTexts(roles[1..])
  }

  function TitleTexts(roles: seq<Role>): seq<string> {
    if roles == [] then [] else (if roles[0].Title? then [roles[0].text] else []) + TitleTexts(roles[1..])
  }

  function TitlesOf(fragments: seq<Fragment>): seq<string> {
    if fragments == [] then []
    else (if fragments[0].kind == "title" then [fragments[0].content] else []) + TitlesOf(fragments[1..])
  }

  lemma FlushParagraphConserves(paragraph: seq<string>, body: seq<string>)
    ensures EraseAll(FlushParagraph(paragraph, body)) == EraseAll(body) + EraseAll(paragraph)
  {
    EraseSpaces(" ");
    EraseJoin(paragraph, " ");
    EraseTrim(Join(paragraph, " "));
    EraseAllOne(TrimSpace(Join(paragraph, " ")));
    EraseAllAppend(body, [TrimSpace(Join(paragraph, " "))]);
  }

  lemma FlushBodyConserves(body: seq<string>, language: string)
    ensures EraseAll(Contents(FlushBody(body, language))) == EraseAll(body)
    ensures TitlesOf(FlushBody(body, language)) == []
  {
    var content := TrimSpace(Join(body, "\n\n"));
    EraseSpaces("\n\n");
    EraseJoin(body, "\n\n");
    EraseTrim(Join(body, "\n\n"));
    EraseAllOne(content);
    assert Contents([Fragment("body", content, language)]) == [content];
  }

  lemma {:induction false} TitlesAppend(a: seq<Fragment>, b: seq<Fragment>)
    ensures TitlesOf(a + b) == TitlesOf(a) + TitlesOf(b)
  {
    if a == [] {
      assert a + b == b;
    } else {
      assert (a + b)[1..] == a[1..] + b;
      TitlesAppend(a[1..], b);
    }
  }

  lemma TitleFragment(text: string, language: string)
    ensures Contents([Fragment("title", text, language)]) == [text]
    ensures TitlesOf([Fragment("title", text, language)]) == [text]
  {
    assert [Fragment("title", text, language)][1..] == [];
  }

  /** White space aside, the fragments spell the open lines and then every title and body line, each once and in
      order. */
  lemma {:induction false} BuildConserves(roles: seq<Role>, paragraph: seq<string>, body: seq<string>, language: string)
    ensures EraseAll(Contents(Build(roles, paragraph, body, language)))
         == EraseAll(body) + EraseAll(paragraph) + EraseAll(KeptTexts(roles))
    decreases |roles|
  {
    var flushed := FlushParagraph(paragraph, body);
    FlushParagraphConserves(paragraph, body);
    FlushBodyConserves(flushed, language);
    if roles != [] {
      var rest := roles[1..];
      match roles[0]
      case BlankLine =>
        BuildConserves(rest, [], flushed, language);
        assert EraseAll(flushed) + EraseAll([]) == EraseAll(flushed);
        assert KeptTexts(roles) == KeptTexts(rest);
      case Boilerplate =>
        BuildConserves(rest, paragraph, body, language);
        assert KeptTexts(roles) == KeptTexts(rest);
      case Underline =>
        BuildConserves(rest, paragraph, body, language);
        assert KeptTexts(roles) == KeptTexts(rest);
      case Title(text) => BuildTitleConserves(roles, paragraph, body, language);
      case Body(text) =>
        BuildConserves(rest, paragraph + [text], body, language);
        EraseAllAppend(paragraph, [text]);
        EraseAllAppend([text], KeptTexts(rest));
        Assoc(EraseAll(paragraph), EraseAll([text]), EraseAll(KeptTexts(rest)));
        Assoc(EraseAll(body), EraseAll(paragraph) + EraseAll([text]), EraseAll(KeptTexts(rest)));
        Assoc(EraseAll(body), EraseAll(paragraph), EraseAll([text]) + EraseAll(KeptTexts(rest)));
    }
  }

  lemma {:induction false} BuildTitleConserves(roles: seq<Role>, paragraph: seq<string>, body: seq<string>,
                                               language: string)
    requires roles != [] && roles[0].Title?
    ensures EraseAll(Contents(Build(roles, paragraph, body, language)))
         == EraseAll(body) + EraseAll(paragraph) + EraseAll(KeptTexts(roles))
    decreases |roles|, 0
  {
    var front := FlushBody(FlushParagraph(paragraph, body), language);
    var back := Build(roles[1..], [], [], language);
    BuildConserves(roles[1..], [], [], language);
    FlushParagraphConserves(paragraph, body);
    FlushBodyConserves(FlushParagraph(paragraph, body), language);
    AroundTitle(front, roles[0].text, back, language);
    EraseAllAppend([roles[0].text], KeptTexts(roles[1..]));
    Assoc(EraseAll(body) + EraseAll(paragraph), EraseAll([roles[0].text]), EraseAll(KeptTexts(roles[1..])));
  }

  lemma AroundTitle(front: seq<Fragment>, text: string, back: seq<Fragment>, language: string)
    ensures EraseAll(Contents(front + [Fragment("title", text, language)] + back))
         == EraseAll(Contents(front)) + EraseAll([text]) + EraseAll(Contents(back))
  {
    var title := [Fragment("title", text, language)];
    TitleFragment(text, language);
    ContentsAppend(front + title, back);
    ContentsAppend(front, title);
    EraseAllAppend(Contents(front) + Contents(title), Contents(back));
    EraseAllAppend(Contents(front), Contents(title));
  }

  /** The title fragments are the promoted titles, in order. */
  lemma {:induction false} BuildTitles(roles: seq<Role>, paragraph: seq<string>, body: seq<string>, language: string)
    ensures TitlesOf(Build(roles, paragraph, body, language)) == TitleTexts(roles)
    ensures |TitleTexts(roles)| == CountTitles(roles)
    decreases |roles|
  {
    var flushed := FlushParagraph(paragraph, body);
    FlushBodyConserves(flushed, language);
    if roles != [] {
      var rest := roles[1..];
      match roles[0]
      case BlankLine => BuildTitles(rest, [], flushed, language);
      case Title(text) =>
        BuildTitles(rest, [], [], language);
        TitleFragment(text, language);
        TitlesAppend(FlushBody(flushed, language) + [Fragment("title", text, language)], Build(rest, [], [], language));
        TitlesAppend(FlushBody(flushed, language), [Fragment("title", text, language)]);
      case Body(text) => BuildTitles(rest, paragraph + [text], body, language);
      case _ => BuildTitles(rest, paragraph, body, language);
    }
  }

  /** The role a line's own text, and a line of dashes below it, call for. */
  function OwnRole(rules: Rules, lines: seq<string>, k: nat): Role
    requires k < |lines|
  {
    var line := TrimSpace(lines[k]);
    if line == "" then BlankLine
    else if rules.boilerplate(line, lines) then Boilerplate
    else if IsUnderlined(rules, lines, k) then Title(line)
    else if rules.heading(line).Some? then Title(rules.heading(line).value)
    else Body(line)
  }

  /** The role of a line, told from the text and from whether the line above became a title: only a title takes its
      underline. */
  function RoleGiven(rules: Rules, lines: seq<string>, k: nat, underTitle: bool): Role
    requires k < |lines|
  {
    if k > 0 && underTitle && TakesNext(rules, lines, k - 1) then Underline else OwnRole(rules, lines, k)
  }

  /** The role of line k, when roles are given from line i on, is the one it must have. */
  ghost predicate LineFits(rules: Rules, lines: seq<string>, i: nat, k: nat)
    requires i <= k < |lines|
  {
    var roles := Roles(rules, lines, i);
    roles[k - i] == RoleGiven(rules, lines, k, k > i && roles[k - i - 1].Title?)
  }

  lemma FirstRoleFits(rules: Rules, lines: seq<string>, i: nat)
    requires i < |lines|
    ensures LineFits(rules, lines, i, i)
  {}

  /** The line takes the next one along as its underline. */
  predicate TakesNext(rules: Rules, lines: seq<string>, i: nat)
    requires i < |lines|
  {
    TrimSpace(lines[i]) != "" && !rules.boilerplate(TrimSpace(lines[i]), lines) && IsUnderlined(rules, lines, i)
  }

  lemma RolesUnfold(rules: Rules, lines: seq<string>, i: nat)
    requires i < |lines|
    ensures var roles := Roles(rules, lines, i);
      if TakesNext(rules, lines, i) then
        roles[0] == Title(TrimSpace(lines[i])) && roles[1] == Underline && IsUnderline(lines[i + 1]) &&
          roles[2..] == Roles(rules, lines, i + 2)
      else roles[1..] == Roles(rules, lines, i + 1)
  {}

  /** Every line has exactly one role: the one its text calls for, unless it underlines the title above it. */
  lemma {:induction false} RoleOfLine(rules: Rules, lines: seq<string>, i: nat, k: nat)
    requires i <= k < |lines|
    ensures LineFits(rules, lines, i, k)
    decreases k - i
  {
    if k == i {
      FirstRoleFits(rules, lines, i);
    } else if !TakesNext(rules, lines, i) {
      RoleOfLine(rules, lines, i + 1, k);
      OneLineOn(rules, lines, i, k);
    } else if k == i + 1 {
      UnderlineFits(rules, lines, i);
    } else {
      RoleOfLine(rules, lines, i + 2, k);
      TwoLinesOn(rules, lines, i, k);
    }
  }

  lemma OneLineOn(rules: Rules, lines: seq<string>, i: nat, k: nat)
    requires i < k < |lines| && !TakesNext(rules, lines, i) && LineFits(rules, lines, i + 1, k)
    ensures LineFits(rules, lines, i, k)
  {
    RolesUnfold(rules, lines, i);
    FitsLater(rules, lines, i, 1, k);
  }

  lemma TwoLinesOn(rules: Rules, lines: seq<string>, i: nat, k: nat)
    requires i + 1 < k < |lines| && TakesNext(rules, lines, i) && LineFits(rules, lines, i + 2, k)
    ensures LineFits(rules, lines, i, k)
  {
    RolesUnfold(rules, lines, i);
    FitsLater(rules, lines, i, 2, k);
  }

  lemma UnderlineFits(rules: Rules, lines: seq<string>, i: nat)
    requires i < |lines| && TakesNext(rules, lines, i)
    ensures i + 1 < |lines| && LineFits(rules, lines, i, i + 1)
  {
    RolesUnfold(rules, lines, i);
  }

  /** A role that fits in the roles of the lines from i + n on fits in those of the lines from i on. */
  lemma FitsLater(rules: Rules, lines: seq<string>, i: nat, n: nat, k: nat)
    requires n > 0 && i + n <= k < |lines| && Roles(rules, lines, i)[n..] == Roles(rules, lines, i + n)
    requires LineFits(rules, lines, i + n, k)
    requires !(Roles(rules, lines, i)[n - 1].Title? && TakesNext(rules, lines, i + n - 1))
    ensures LineFits(rules, lines, i, k)
  {
    var roles, rest := Roles(rules, lines, i), Roles(rules, lines, i + n);
    assert roles[k - i] == rest[k - i - n];
    assert k > i + n ==> roles[k - i - 1] == rest[k - i - n - 1];
  }

  // ----- the whole fragment -----

  datatype Report = Report(outputFragments: nat, promotedTitles: nat, removedBoilerplate: nat)

  /** preprocessBodyFragment on the sanitised text: without fragments the text itself stays, and nothing counts as
      removed. */
  method PreprocessBody(rules: Rules, fragment: Fragment, sanitized: string)
    returns (fragments: seq<Fragment>, report: Report)
    ensures var roles := Roles(rules, Split(sanitized, "\n"), 0);
      var built := Build(roles, [], [], fragment.language);
      if built != [] then fragments == built && report == Report(|built|, CountTitles(roles), CountBoilerplate(roles))
      else
        && report == Report(|fragments|, 0, 0) && |fragments| <= 1
        && EraseAll(Contents(fragments)) == (if Blank(sanitized) then Erase(fragment.content) else Erase(sanitized))
  {
    var titles, boilerplate;
    fragments, titles, boilerplate := Segment(rules, Split(sanitized, "\n"), fragment.language);
    if |fragments| > 0 {
      report := Report(|fragments|, titles, boilerplate);
    } else {
      var fallback := TrimSpace(CollapseBlankLines(sanitized));
      EraseCollapse(sanitized);
      EraseTrim(CollapseBlankLines(sanitized));
      EraseTrim(sanitized);
      EraseTrim(fragment.content);
      if fallback == "" {
        fallback := TrimSpace(fragment.content);
      }
      EraseAllOne(fallback);
      if fallback == "" {
        fragments, report := [], Report(0, 0, 0);
      } else {
        fragments, report := [Fragment(fragment.kind, fallback, fragment.language)], Report(1, 0, 0);
        assert Contents(fragments) == [fallback];
      }
    }
  }

  /** What the produced fragments hold: each title and body line once, in order; the title fragments are the promoted
      titles. */
  lemma SegmentationLosesNothing(rules: Rules, sanitized: string, language: string)
    ensures var roles := Roles(rules, Split(sanitized, "\n"), 0);
      var built := Build(roles, [], [], language);
      && EraseAll(Contents(built)) == EraseAll(KeptTexts(roles))
      && TitlesOf(built) == TitleTexts(roles) && |TitleTexts(roles)| == CountTitles(roles)
  {
    var roles := Roles(rules, Split(sanitized, "\n"), 0);
    BuildConserves(roles, [], [], language);
    BuildTitles(roles, [], [], language);
    assert EraseAll([]) + EraseAll([]) + EraseAll(KeptTexts(roles)) == EraseAll(KeptTexts(roles));
  }
}
