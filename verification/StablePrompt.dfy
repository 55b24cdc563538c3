/** When the stable prompt tells its segments: reading it back by its headings. */
module StablePrompt {
  import opened Text
  import opened Seqs
  import opened Content
  import opened Prompt

  /** What opens the retrieved part, and the headings of the two parts behind it. */
  datatype Headings = Headings(context: string, system: string, memory: string)

  /** The texts of the three segments; an empty one has no section. */
  datatype Texts = Texts(rag: string, system: string, memory: string)

  predicate Solid(s: string) {
    s != "" && Trimmed(s)
  }

  predicate AllTrimmed(t: Texts) {
    Trimmed(t.rag) && Trimmed(t.system) && Trimmed(t.memory)
  }

  predicate IsHeading(s: string) {
    Solid(s) && '\n' !in s
  }

  /** Two texts that part within the length of both. */
  ghost predicate Part(a: string, b: string) {
    exists i :: 0 <= i < |a| && i < |b| && a[i] != b[i]
  }

  ghost predicate Valid(h: Headings) {
    && IsHeading(h.system) && IsHeading(h.memory) && h.context != "" && !IsSpace(h.context[0])
    && Part(h.context, h.system) && Part(h.context, h.memory) && Part(h.system, h.memory)
  }

  function Mark(heading: string): string {
    "\n\n" + heading + "\n\n"
  }

  function Section(heading: string, text: string): string {
    if text == "" then "" else heading + "\n\n" + text
  }

  function Behind(rest: string): string {
    if rest == "" then "" else "\n\n" + rest
  }

  function Conversation(h: Headings, t: Texts): string {
    if t.system == "" then Section(h.memory, t.memory)
    else h.system + "\n\n" + t.system + Behind(Section(h.memory, t.memory))
  }

  function Stable(h: Headings, t: Texts): string {
    if t.rag == "" then Conversation(h, t) else h.context + t.rag + Behind(Conversation(h, t))
  }

  // ----- texts that can be cut at a heading -----

  predicate CutsInto(text: string, heading: string, x: string, y: string) {
    Solid(x) && Solid(y) && text == x + Mark(heading) + y
  }

  /** The heading stands as a paragraph of its own inside the text. */
  ghost predicate Contains(text: string, heading: string) {
    exists x, y :: CutsInto(text, heading, x, y)
  }

  /** The heading is the last paragraph of the text, and not the only one. */
  ghost predicate EndsIn(text: string, heading: string) {
    exists x :: Solid(x) && text == x + ("\n\n" + heading)
  }

  /** A text that does not contain the heading, and does not end in it when something follows. */
  ghost predicate FreeOf(text: string, heading: string, rest: string) {
    !Contains(text, heading) && (rest != "" ==> !EndsIn(text, heading))
  }

  /** The heading of a later section is no inner paragraph of a text, and not its last one where a section follows. */
  ghost predicate Clean(h: Headings, t: Texts) {
    && (t.rag != "" ==> FreeOf(t.rag, h.system, Conversation(h, t)) && FreeOf(t.rag, h.memory, Conversation(h, t)))
    && (t.system != "" ==> FreeOf(t.system, h.memory, Section(h.memory, t.memory)))
  }

  /** A cut of a text and what follows it, that leaves less than the text in front, is a cut inside the text or at its
      end. */
  lemma CutInside(text: string, rest: string, x: string, heading: string, y: string)
    requires Solid(text) && Solid(x) && Solid(y) && IsHeading(heading)
    requires |x| < |text| && text + Behind(rest) == x + Mark(heading) + y
    ensures !FreeOf(text, heading, rest)
  {
    if |text| > |x + Mark(heading)| {
      CutShort(text, Behind(rest), x + Mark(heading), y);
      var y' := text[|x + Mark(heading)|..];
      assert CutsInto(text, heading, x, y');
    } else {
      EndsAtHeading(text, rest, x, heading, y);
    }
  }

  lemma CutShort(text: string, rest: string, front: string, y: string)
    requires text + rest == front + y && |text| > |front| && Solid(y) && Solid(text)
    ensures text == front + text[|front|..] && Solid(text[|front|..])
  {
    var whole := front + y;
    assert whole[..|text|] == text && whole[..|front|] == front;
    assert whole[|front|] == y[0] == text[|front|];
  }

  lemma EndsAtHeading(text: string, rest: string, x: string, heading: string, y: string)
    requires Solid(text) && Solid(x) && Solid(y) && IsHeading(heading)
    requires |x| < |text| <= |x + Mark(heading)| && text + Behind(rest) == x + Mark(heading) + y
    ensures rest != "" && EndsIn(text, heading)
  {
    var whole, n := x + Mark(heading) + y, |x + Mark(heading)|;
    assert text[|text| - 1] == whole[|text| - 1];
    assert whole[|x|] == '\n' && whole[|x| + 1] == '\n' && whole[n - 2] == '\n' && whole[n - 1] == '\n';
    assert |x| + 2 < |text| <= n - 2;
    assert Behind(rest) != "" && whole[|text|] == '\n' by { assert (text + Behind(rest))[|text|] == '\n'; }
    forall k | |x| + 2 <= k < n - 2
      ensures whole[k] != '\n'
    {
      assert whole[k] == heading[k - |x| - 2] && heading[k - |x| - 2] in heading;
    }
    assert |text| == n - 2;
    assert text == whole[..n - 2] == x + ("\n\n" + heading);
  }

  /** And the other way round: what is not free of a heading can be cut there, with less in front. */
  lemma CutOutside(text: string, rest: string, heading: string) returns (x: string, y: string)
    requires Solid(text) && IsHeading(heading) && !FreeOf(text, heading, rest) && (rest != "" ==> Solid(rest))
    ensures Solid(x) && Solid(y) && |x| < |text| && text + Behind(rest) == x + Mark(heading) + y
  {
    if Contains(text, heading) {
      var x', y' :| CutsInto(text, heading, x', y');
      x, y := x', y' + Behind(rest);
      Assoc(x + Mark(heading), y', Behind(rest));
    } else {
      var x' :| Solid(x') && text == x' + ("\n\n" + heading);
      x, y := x', rest;
      assert text + Behind(rest) == x' + Mark(heading) + rest;
    }
  }

  // ----- the first cut is where the text ends -----

  /** What may follow a text: nothing, or a section under one of the headings. */
  ghost predicate Follows(rest: string, headings: set<string>) {
    rest == "" || exists heading, y :: heading in headings && OpensWith(rest, heading, y)
  }

  predicate OpensWith(rest: string, heading: string, y: string) {
    Solid(y) && rest == heading + "\n\n" + y
  }

  ghost predicate FreeOfAll(text: string, headings: set<string>, rest: string) {
    forall heading :: heading in headings ==> FreeOf(text, heading, rest)
  }

  lemma FirstSection(rest: string, headings: set<string>) returns (heading: string, y: string)
    requires rest != "" && Follows(rest, headings)
    ensures heading in headings && Solid(y) && Behind(rest) == Mark(heading) + y
  {
    heading, y :| heading in headings && OpensWith(rest, heading, y);
    assert "\n\n" + (heading + "\n\n" + y) == ("\n\n" + heading + "\n\n") + y;
  }

  lemma NotShorter(a: string, ra: string, b: string, rb: string, headings: set<string>)
    requires Solid(a) && Solid(b) && (forall heading :: heading in headings ==> IsHeading(heading))
    requires Follows(ra, headings) && FreeOfAll(b, headings, rb)
    requires a + Behind(ra) == b + Behind(rb)
    ensures |a| >= |b|
  {
    if |a| < |b| {
      assert ra != "" by { assert |a + Behind(ra)| == |b + Behind(rb)|; }
      var heading, y := FirstSection(ra, headings);
      Assoc(a, Mark(heading), y);
      CutInside(b, rb, a, heading, y);
    }
  }

  /** Two texts free of the headings, with sections behind them that read the same, are the same. */
  lemma SameText(a: string, ra: string, b: string, rb: string, headings: set<string>)
    requires Solid(a) && Solid(b) && (forall heading :: heading in headings ==> IsHeading(heading))
    requires Follows(ra, headings) && Follows(rb, headings)
    requires FreeOfAll(a, headings, ra) && FreeOfAll(b, headings, rb)
    requires a + Behind(ra) == b + Behind(rb)
    ensures a == b && ra == rb
  {
    NotShorter(a, ra, b, rb, headings);
    NotShorter(b, rb, a, ra, headings);
    assert a == (a + Behind(ra))[..|a|] && b == (b + Behind(rb))[..|b|];
    assert Behind(ra) == (a + Behind(ra))[|a|..] && Behind(rb) == (b + Behind(rb))[|b|..];
    assert ra != "" ==> Behind(ra)[2..] == ra;
    assert rb != "" ==> Behind(rb)[2..] == rb;
  }

  lemma Opens(a: string, b: string, ra: string, rb: string)
    requires Part(a, b)
    ensures a + ra != b + rb
  {
    var i :| 0 <= i < |a| && i < |b| && a[i] != b[i];
    assert (a + ra)[i] == a[i] && (b + rb)[i] == b[i];
  }

  lemma ConversationFollows(h: Headings, t: Texts)
    requires Valid(h) && AllTrimmed(t)
    ensures Follows(Conversation(h, t), {h.system, h.memory}) && Follows(Section(h.memory, t.memory), {h.memory})
    ensures Conversation(h, t) != "" ==> Solid(Conversation(h, t))
    ensures t.memory != "" ==> Solid(Section(h.memory, t.memory))
  {
    if t.memory != "" {
      assert OpensWith(Section(h.memory, t.memory), h.memory, t.memory);
      assert h.memory in {h.memory};
    }
    if t.system != "" {
      var y := t.system + Behind(Section(h.memory, t.memory));
      Assoc(h.system + "\n\n", t.system, Behind(Section(h.memory, t.memory)));
      assert OpensWith(Conversation(h, t), h.system, y);
    }
  }

  lemma SameConversation(h: Headings, t: Texts, u: Texts)
    requires Valid(h) && AllTrimmed(t) && AllTrimmed(u)
    requires t.system != "" ==> FreeOf(t.system, h.memory, Section(h.memory, t.memory))
    requires u.system != "" ==> FreeOf(u.system, h.memory, Section(h.memory, u.memory))
    requires Conversation(h, t) == Conversation(h, u)
    ensures t.system == u.system && t.memory == u.memory
  {
    ConversationFollows(h, t);
    ConversationFollows(h, u);
    var tm, um := Section(h.memory, t.memory), Section(h.memory, u.memory);
    if t.system != "" && u.system != "" {
      Assoc(h.system + "\n\n", t.system, Behind(tm));
      Assoc(h.system + "\n\n", u.system, Behind(um));
      SamePrefix(h.system + "\n\n", t.system + Behind(tm), u.system + Behind(um));
      SameText(t.system, tm, u.system, um, {h.memory});
    } else if t.system != "" {
      NotMemory(h, t.system, tm, u.memory);
    } else if u.system != "" {
      NotMemory(h, u.system, um, t.memory);
    }
    SameSection(h.memory, t.memory, u.memory);
  }

  lemma SamePrefix(front: string, a: string, b: string)
    requires front + a == front + b
    ensures a == b
  {
    assert a == (front + a)[|front|..] && b == (front + b)[|front|..];
  }

  lemma SameSection(heading: string, a: string, b: string)
    requires Section(heading, a) == Section(heading, b)
    ensures a == b
  {
    if a != "" && b != "" {
      SamePrefix(heading + "\n\n", a, b);
    }
  }

  lemma NotMemory(h: Headings, system: string, rest: string, memory: string)
    requires Valid(h)
    ensures h.system + "\n\n" + system + Behind(rest) != Section(h.memory, memory)
  {
    Assoc(h.system, "\n\n", system);
    Assoc(h.system, "\n\n" + system, Behind(rest));
    Assoc(h.memory, "\n\n", memory);
    Opens(h.system, h.memory, "\n\n" + system + Behind(rest), "\n\n" + memory);
  }

  lemma NotConversation(h: Headings, rag: string, rest: string, t: Texts)
    requires Valid(h)
    ensures h.context + rag + Behind(rest) != Conversation(h, t)
  {
    Assoc(h.context, rag, Behind(rest));
    if t.system != "" {
      Assoc(h.system, "\n\n", t.system);
      Assoc(h.system, "\n\n" + t.system, Behind(Section(h.memory, t.memory)));
      Opens(h.context, h.system, rag + Behind(rest), "\n\n" + t.system + Behind(Section(h.memory, t.memory)));
    } else if t.memory != "" {
      Assoc(h.memory, "\n\n", t.memory);
      Opens(h.context, h.memory, rag + Behind(rest), "\n\n" + t.memory);
    }
  }

  /** Clean texts with one stable prompt are the same texts. */
  lemma CleanTextsAreTold(h: Headings, t: Texts, u: Texts)
    requires Valid(h) && AllTrimmed(t) && AllTrimmed(u) && Clean(h, t) && Clean(h, u)
    requires Stable(h, t) == Stable(h, u)
    ensures t == u
  {
    var tc, uc := Conversation(h, t), Conversation(h, u);
    ConversationFollows(h, t);
    ConversationFollows(h, u);
    if t.rag != "" && u.rag != "" {
      Assoc(h.context, t.rag, Behind(tc));
      Assoc(h.context, u.rag, Behind(uc));
      SamePrefix(h.context, t.rag + Behind(tc), u.rag + Behind(uc));
      SameText(t.rag, tc, u.rag, uc, {h.system, h.memory});
    } else if t.rag != "" {
      NotConversation(h, t.rag, tc, u);
    } else if u.rag != "" {
      NotConversation(h, u.rag, uc, t);
    }
    SameConversation(h, t, u);
  }

  // ----- every stable prompt has one clean reading -----

  /** The texts cut once, at a heading that a text is not free of: the stable prompt is the same, less stands in
      front. */
  lemma CutOnce(h: Headings, t: Texts) returns (u: Texts)
    requires Valid(h) && AllTrimmed(t) && !Clean(h, t)
    ensures AllTrimmed(u) && Stable(h, u) == Stable(h, t)
    ensures |u.rag| < |t.rag| || (u.rag == t.rag && |u.system| < |t.system|)
  {
    var c := Conversation(h, t);
    ConversationFollows(h, t);
    if t.rag != "" && !FreeOf(t.rag, h.system, c) {
      var x, y := CutOutside(t.rag, c, h.system);
      u := Texts(x, y, "");
      assert Conversation(h, u) == h.system + "\n\n" + y;
      ContextCut(h, t.rag, c, x, h.system, y);
    } else if t.rag != "" && !FreeOf(t.rag, h.memory, c) {
      var x, y := CutOutside(t.rag, c, h.memory);
      u := Texts(x, "", y);
      assert Conversation(h, u) == h.memory + "\n\n" + y;
      ContextCut(h, t.rag, c, x, h.memory, y);
    } else {
      var m := Section(h.memory, t.memory);
      var x, y := CutOutside(t.system, m, h.memory);
      u := Texts(t.rag, x, y);
      assert Conversation(h, u) == h.system + "\n\n" + x + Behind(h.memory + "\n\n" + y);
      Joined(x, h.memory, y);
      Assoc(h.system + "\n\n", x, Mark(h.memory) + y);
      Assoc(x, Mark(h.memory), y);
      Assoc(h.system + "\n\n", t.system, Behind(m));
    }
  }

  lemma Joined(x: string, heading: string, y: string)
    requires heading != ""
    ensures Behind(heading + "\n\n" + y) == Mark(heading) + y
  {
    assert "\n\n" + (heading + "\n\n" + y) == ("\n\n" + heading + "\n\n") + y;
  }

  lemma ContextCut(h: Headings, rag: string, c: string, x: string, heading: string, y: string)
    requires rag + Behind(c) == x + Mark(heading) + y && heading != ""
    ensures h.context + x + Behind(heading + "\n\n" + y) == h.context + rag + Behind(c)
  {
    Joined(x, heading, y);
    Assoc(h.context, x, Mark(heading) + y);
    Assoc(x, Mark(heading), y);
    Assoc(h.context, rag, Behind(c));
  }

  lemma {:induction false} CleanReading(h: Headings, t: Texts) returns (u: Texts)
    requires Valid(h) && AllTrimmed(t)
    ensures AllTrimmed(u) && Clean(h, u) && Stable(h, u) == Stable(h, t)
    decreases |t.rag|, |t.system|
  {
    u := t;
    if !Clean(h, t) {
      var v := CutOnce(h, t);
      u := CleanReading(h, v);
    }
  }

  /** Texts are the only clean texts with their stable prompt exactly when they are clean: otherwise other, clean ones
      share it. */
  lemma TextsAreToldExactly(h: Headings, t: Texts)
    requires Valid(h) && AllTrimmed(t)
    ensures Clean(h, t) <==> forall u :: AllTrimmed(u) && Clean(h, u) && Stable(h, u) == Stable(h, t) ==> u == t
  {
    if Clean(h, t) {
      forall u | AllTrimmed(u) && Clean(h, u) && Stable(h, u) == Stable(h, t)
        ensures u == t
      {
        CleanTextsAreTold(h, u, t);
      }
    } else {
      var u := CleanReading(h, t);
    }
  }

  // ----- the sections of a request -----

  const HEADINGS := Headings("# Stable Context\n\n## RAG\n\n", "# Stable System", "# Conversation Memory")

  lemma NoNewline(s: string, t: string)
    requires '\n' !in s && '\n' !in t
    ensures '\n' !in s + t
  {}

  lemma PlainHeadings()
    ensures IsHeading(HEADINGS.system) && IsHeading(HEADINGS.memory)
  {
    NoNewline("# Stable ", "System");
    assert "# Stable System" == "# Stable " + "System";
    NoNewline("# Conversation ", "Memory");
    assert "# Conversation Memory" == "# Conversation " + "Memory";
  }

  lemma PartAt(a: string, b: string, i: nat)
    requires i < |a| && i < |b| && a[i] != b[i]
    ensures Part(a, b)
  {}

  lemma HeadingsAreValid()
    ensures Valid(HEADINGS)
  {
    PlainHeadings();
    PartAt(HEADINGS.context, HEADINGS.system, 9);
    PartAt(HEADINGS.context, HEADINGS.memory, 2);
    PartAt(HEADINGS.system, HEADINGS.memory, 2);
  }

  function TextsFor(p: Prompter, systemText: string, memoryText: string, ragText: string): Texts {
    Texts(TrimSpace(p.stableText(ragText)), TrimSpace(p.stableText(systemText)), TrimSpace(p.stableText(memoryText)))
  }

  /** The texts of a request's segments, once they are sanitised. */
  function TextsOf(p: Prompter, messages: seq<Message>, chunks: seq<Chunk>): Texts {
    var (system, memory, _) := p.Segments(messages);
    TextsFor(p,
      TrimSpace(Join(Map(p.MessageRenderer(), system), "\n")),
      TrimSpace(Join(Map(p.MessageRenderer(), memory), "\n")),
      TrimSpace(Join(Map(ChunkRenderer(), p.normalizer.StableChunks(chunks)), "\n")))
  }

  function ContextSection(rag: string): string {
    if rag == "" then "" else HEADINGS.context + rag
  }

  function SectionsFor(t: Texts): Sections {
    Sections(Section(HEADINGS.system, t.system), Section(HEADINGS.memory, t.memory), ContextSection(t.rag),
      Stable(HEADINGS, t))
  }

  lemma NothingJoins()
    ensures JoinSectionLines(["", ""]) == ""
  {
    TrimmedStays("");
    assert ["", ""][1..] == [""] && [""][1..] == [];
    assert Prompt.Solid([""]) == [] + Prompt.Solid([]);
    assert Prompt.Solid(["", ""]) == [] + Prompt.Solid([""]);
  }

  lemma JoinPair(a: string, b: string)
    requires Trimmed(a) && Trimmed(b)
    ensures JoinSectionLines([a, b]) == if a == "" then b else a + Behind(b)
  {
    if a == "" && b == "" {
      NothingJoins();
    } else if b == "" {
      JoinOneLeft(a);
    } else if a == "" {
      JoinOneRight(b);
    } else {
      JoinTwo(a, b);
      Assoc(a, "\n\n", b);
    }
  }

  lemma JoinThree(a: string, b: string, c: string)
    requires Solid(a) && Solid(b) && Solid(c)
    ensures JoinSectionLines([a, b, c]) == a + "\n\n" + (b + "\n\n" + c)
  {
    TrimmedStays(a);
    TrimmedStays(b);
    TrimmedStays(c);
    assert [a, b, c][1..] == [b, c] && [b, c][1..] == [c] && [c][1..] == [];
    assert Prompt.Solid([c]) == [c] + Prompt.Solid([]);
    assert Prompt.Solid([b, c]) == [b] + [c];
    assert Prompt.Solid([a, b, c]) == [a] + [b, c];
    assert Join([b, c], "\n\n") == b + "\n\n" + c;
    TrimmedStays(a + "\n\n" + (b + "\n\n" + c));
  }

  lemma JoinContext(rag: string)
    requires Solid(rag)
    ensures JoinSectionLines(["# Stable Context", "## RAG", rag]) == HEADINGS.context + rag
  {
    JoinThree("# Stable Context", "## RAG", rag);
    ContextText(rag);
  }

  lemma ContextText(rag: string)
    ensures "# Stable Context" + "\n\n" + ("## RAG" + "\n\n" + rag) == "# Stable Context\n\n## RAG\n\n" + rag
  {
    assert "# Stable Context" + "\n\n" + ("## RAG" + "\n\n") == "# Stable Context\n\n## RAG\n\n";
    Assoc("# Stable Context" + "\n\n", "## RAG" + "\n\n", rag);
  }

  lemma HeadedSection(heading: string, text: string)
    requires Solid(heading) && Trimmed(text)
    ensures (if text == "" then text else JoinSectionLines([heading, text])) == Section(heading, text)
    ensures Trimmed(Section(heading, text))
  {
    if text != "" {
      JoinTwo(heading, text);
    }
  }

  /** The sections that are built are those of the trimmed texts, and their stable prompt is the glued one. */
  lemma BuiltFromTexts(p: Prompter, systemText: string, memoryText: string, ragText: string)
    ensures var t := TextsFor(p, systemText, memoryText, ragText);
      AllTrimmed(t) && p.BuildSections(systemText, memoryText, ragText) == SectionsFor(t)
  {
    var t := TextsFor(p, systemText, memoryText, ragText);
    TrimSpaceTrims(p.stableText(ragText));
    TrimSpaceTrims(p.stableText(systemText));
    TrimSpaceTrims(p.stableText(memoryText));
    HeadingsAreValid();
    HeadedSection(HEADINGS.system, t.system);
    HeadedSection(HEADINGS.memory, t.memory);
    if t.rag != "" {
      JoinContext(t.rag);
    }
    StableFromSections(t);
  }

  lemma StableFromSections(t: Texts)
    requires AllTrimmed(t)
    ensures Prompter.StableOf(Section(HEADINGS.system, t.system), Section(HEADINGS.memory, t.memory),
      ContextSection(t.rag)) == Stable(HEADINGS, t)
  {
    HeadingsAreValid();
    HeadedSection(HEADINGS.system, t.system);
    HeadedSection(HEADINGS.memory, t.memory);
    JoinPair(Section(HEADINGS.system, t.system), Section(HEADINGS.memory, t.memory));
    ConversationFollows(HEADINGS, t);
    ContextTrimmed(t.rag);
    JoinPair(ContextSection(t.rag), Conversation(HEADINGS, t));
  }

  lemma ContextTrimmed(rag: string)
    requires Trimmed(rag)
    ensures Trimmed(ContextSection(rag)) && (ContextSection(rag) == "" <==> rag == "")
  {
    if rag != "" {
      assert ContextSection(rag)[0] == '#' && ContextSection(rag)[|ContextSection(rag)| - 1] == rag[|rag| - 1];
    }
  }

  /** Requests whose segment texts hold no later heading share a stable prompt, hence a combined hash, exactly when all
      of their segments agree. */
  lemma RequestsAreTold(p: Prompter, ms: seq<Message>, cs: seq<Chunk>, ns: seq<Message>, ds: seq<Chunk>)
    requires Clean(HEADINGS, TextsOf(p, ms, cs)) && Clean(HEADINGS, TextsOf(p, ns, ds))
    ensures p.SectionsOf(ms, cs).stable == p.SectionsOf(ns, ds).stable <==> p.SectionsOf(ms, cs) == p.SectionsOf(ns, ds)
  {
    var t, u := TextsOf(p, ms, cs), TextsOf(p, ns, ds);
    RequestTexts(p, ms, cs);
    RequestTexts(p, ns, ds);
    if Stable(HEADINGS, t) == Stable(HEADINGS, u) {
      HeadingsAreValid();
      CleanTextsAreTold(HEADINGS, t, u);
    }
  }

  lemma RequestTexts(p: Prompter, messages: seq<Message>, chunks: seq<Chunk>)
    ensures AllTrimmed(TextsOf(p, messages, chunks)) &&
      p.SectionsOf(messages, chunks) == SectionsFor(TextsOf(p, messages, chunks))
  {
    var (system, memory, _) := p.Segments(messages);
    BuiltFromTexts(p,
      TrimSpace(Join(Map(p.MessageRenderer(), system), "\n")),
      TrimSpace(Join(Map(p.MessageRenderer(), memory), "\n")),
      TrimSpace(Join(Map(ChunkRenderer(), p.normalizer.StableChunks(chunks)), "\n")));
  }
}
