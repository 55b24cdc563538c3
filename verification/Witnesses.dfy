/** Concrete inputs on which a promise fails that holds only under a condition. */
module Witnesses {
  import opened Text
  import opened Seqs
  import opened Content
  import opened Prompt
  import Canonical
  import Compaction
  import opened PageKeys
  import opened PageSaving
  import Paging
  import Refiner
  import Splitter
  import SummaryQueue
  import SummaryStore
  import StablePrompt

  // ----- two requests with one stable prompt and different segments -----

  /** A prompter whose sanitisers keep the text, as they do with the texts below. */
  function PlainPrompter(hash: string -> string, normalizer: Canonical.Normalizer): Prompter {
    Prompter(
      text => text,
      text => text,
      role => role,
      role => if role == "system" then "SYSTEM" else if role == "user" then "USER" else role,
      hash,
      normalizer)
  }

  lemma TailTrimmed(text: string)
    requires text != "" && Trimmed(text)
    ensures TrimSpace(text + "\n\n") == text
  {
    Compaction.TrimRightAcross(text, "\n\n");
    assert "\n\n"[..1] == "\n" && "\n"[..0] == "";
    assert TrimLeft(text + "\n\n") == text + "\n\n";
  }

  lemma OneRendered(p: Prompter, m: Message)
    requires Trimmed(m.content) && m.content != ""
    ensures TrimSpace(Join(Map(p.MessageRenderer(), [m]), "\n")) ==
      "[" + (p.upper(TrimSpace(m.role)) + "]\n" + m.content)
  {
    var text := "[" + (p.upper(TrimSpace(m.role)) + "]\n" + m.content);
    TrimmedStays(m.content);
    assert [m][1..] == [] && Map(p.MessageRenderer(), [m]) == [p.RenderMessage(m)] + [];
    Assoc("[", p.upper(TrimSpace(m.role)) + "]\n" + m.content, "\n\n");
    assert p.RenderMessage(m) == text + "\n\n";
    assert text[|text| - 1] == m.content[|m.content| - 1];
    TailTrimmed(text);
  }

  lemma NothingRendered(p: Prompter)
    ensures TrimSpace(Join(Map(p.MessageRenderer(), []), "\n")) == ""
    ensures TrimSpace(Join(Map(ChunkRenderer(), p.normalizer.StableChunks([])), "\n")) == ""
  {
    TrimmedStays("");
  }

  lemma PlainMessage(p: Prompter, m: Message)
    requires p == PlainPrompter(p.hash, p.normalizer) && m.role in {"system", "user"}
    ensures p.StableMessage()(m) == m == p.ActiveMessage(m) && Map(p.StableMessage(), [m]) == [m]
  {
    TrimmedStays("system");
    TrimmedStays("user");
    assert [m][1..] == [];
    assert Map(p.StableMessage(), [m]) == [p.StableMessage()(m)] + Map(p.StableMessage(), []);
  }

  lemma SystemOnly(p: Prompter, content: string)
    requires p == PlainPrompter(p.hash, p.normalizer)
    ensures p.Segments([Message("system", content), Message("user", "q")])
      == ([Message("system", content)], [], [Message("user", "q")])
  {
    var xs := [Message("system", content), Message("user", "q")];
    var init := xs[..1];
    TrimmedStays("system");
    TrimmedStays("user");
    assert init == [Message("system", content)] && init[1..] == [];
    assert p.OfKind(init, true) == [init[0]] + p.OfKind([], true);
    assert p.OfKind(init, false) == [] + p.OfKind([], false);
    PlainMessage(p, init[0]);
    assert xs[1] == p.ActiveMessage(xs[1]) by { PlainMessage(p, xs[1]); }
  }

  lemma SystemAndUser(p: Prompter, a: string, b: string)
    requires p == PlainPrompter(p.hash, p.normalizer)
    ensures p.Segments([Message("system", a), Message("user", b), Message("user", "q")])
      == ([Message("system", a)], [Message("user", b)], [Message("user", "q")])
  {
    var ys := [Message("system", a), Message("user", b), Message("user", "q")];
    var init := ys[..2];
    TrimmedStays("system");
    TrimmedStays("user");
    assert init == [ys[0], ys[1]] && init[1..] == [ys[1]] && [ys[1]][1..] == [] && [ys[0]][1..] == [];
    assert p.OfKind([ys[1]], true) == [] + p.OfKind([], true);
    assert p.OfKind([ys[1]], false) == [ys[1]] + p.OfKind([], false);
    assert p.OfKind(init, true) == [ys[0]] + p.OfKind([ys[1]], true);
    assert p.OfKind(init, false) == [] + p.OfKind([ys[1]], false);
    PlainMessage(p, ys[0]);
    PlainMessage(p, ys[1]);
    PlainMessage(p, ys[2]);
    assert p.OfKind(init, true) == [ys[0]] && p.OfKind(init, false) == [ys[1]];
    assert ys[..|ys| - 1] == init && ys[|ys| - 1] == p.ActiveMessage(ys[2]);
  }

  const QUOTE := "a\n\n# Conversation Memory\n\n[USER]\nb"

  lemma SystemTexts(p: Prompter, content: string)
    requires p == PlainPrompter(p.hash, p.normalizer) && content != "" && Trimmed(content)
    ensures StablePrompt.TextsOf(p, [Message("system", content), Message("user", "q")], [])
      == StablePrompt.Texts("", "[" + ("SYSTEM" + "]\n" + content), "")
  {
    var text := "[" + ("SYSTEM" + "]\n" + content);
    SystemOnly(p, content);
    NothingRendered(p);
    TrimmedStays("system");
    OneRendered(p, Message("system", content));
    assert text[|text| - 1] == content[|content| - 1];
    TrimmedStays(text);
    TrimmedStays("");
  }

  lemma QuoteTexts(p: Prompter)
    requires p == PlainPrompter(p.hash, p.normalizer)
    ensures StablePrompt.TextsOf(p, [Message("system", QUOTE), Message("user", "q")], [])
      == StablePrompt.Texts("", "[" + ("SYSTEM" + "]\n" + QUOTE), "")
  {
    SystemTexts(p, QUOTE);
  }

  lemma ApartTexts(p: Prompter)
    requires p == PlainPrompter(p.hash, p.normalizer)
    ensures StablePrompt.TextsOf(p, [Message("system", "a"), Message("user", "b"), Message("user", "q")], [])
      == StablePrompt.Texts("", "[" + ("SYSTEM" + "]\n" + "a"), "[" + ("USER" + "]\n" + "b"))
  {
    SystemAndUser(p, "a", "b");
    NothingRendered(p);
    TrimmedStays("system");
    TrimmedStays("user");
    OneRendered(p, Message("system", "a"));
    OneRendered(p, Message("user", "b"));
    TrimmedStays("[" + ("SYSTEM" + "]\n" + "a"));
    TrimmedStays("[" + ("USER" + "]\n" + "b"));
    TrimmedStays("");
  }

  lemma QuoteReadsApart()
    ensures "[" + ("SYSTEM" + "]\n" + QUOTE)
      == "[" + ("SYSTEM" + "]\n" + "a") + ("\n\n" + ("# Conversation Memory" + "\n\n" + ("[" + ("USER" + "]\n" + "b"))))
  {
    assert QUOTE == "a" + ("\n\n" + ("# Conversation Memory" + "\n\n" + ("[" + ("USER" + "]\n" + "b"))));
  }

  /** A system message that quotes the memory heading, and a system and a user message: one stable prompt, two
      memories. */
  lemma QuotedHeadingIsAmbiguous(hash: string -> string, normalizer: Canonical.Normalizer)
    ensures var p := PlainPrompter(hash, normalizer);
      var quoting := p.SectionsOf([Message("system", QUOTE), Message("user", "q")], []);
      var apart := p.SectionsOf([Message("system", "a"), Message("user", "b"), Message("user", "q")], []);
      quoting.stable == apart.stable && quoting.memory == "" != apart.memory
  {
    var p := PlainPrompter(hash, normalizer);
    QuoteTexts(p);
    ApartTexts(p);
    StablePrompt.RequestTexts(p, [Message("system", QUOTE), Message("user", "q")], []);
    StablePrompt.RequestTexts(p, [Message("system", "a"), Message("user", "b"), Message("user", "q")], []);
    QuoteReadsApart();
    var system, rest := "[" + ("SYSTEM" + "]\n" + "a"),
      "\n\n" + ("# Conversation Memory" + "\n\n" + ("[" + ("USER" + "]\n" + "b")));
    Assoc("# Stable System" + "\n\n", system, rest);
  }

  // ----- two chunks that differ in an identifier only -----

  /** A counter of runes, and pages of at most four. */
  function SmallPager(classes: Splitter.RuneClasses): Paging.Pager {
    Paging.Pager(Tokenizer((text: string) => |text|), classes, 4)
  }

  /** Sources are trimmed, identifiers masked. */
  function Masking(): Canonical.Normalizer {
    Canonical.Normalizer(
      text => text,
      text => TrimSpace(text),
      (f: Fragment) => if f.content == "id=1" || f.content == "id=2" then f.(content := "id=#") else f)
  }

  ghost predicate IsSmall(r: Refiner.Refiner) {
    r.pager == SmallPager(r.pager.classes) && r.prompter == PlainPrompter(r.prompter.hash, Masking())
  }

  function Body(text: string): Fragment {
    Fragment("body", text, "")
  }

  function IdChunk(id: string): Chunk {
    Chunk("c", "s", ["s"], [Body(id), Body("ok")], [])
  }

  lemma BodyText(text: string)
    requires text != "" && Trimmed(text)
    ensures FragmentText(Body(text)) == text && !Blank(text)
  {
    TrimmedStays(text);
    assert Opening(Body(text)) == "" && Closing(Body(text)) == "";
  }

  lemma OneText(a: string)
    requires a != "" && Trimmed(a)
    ensures RenderedParts([Body(a)]) == [a] && FragmentsText([Body(a)]) == a
  {
    BodyText(a);
    assert [Body(a)][1..] == [];
    assert RenderedParts([Body(a)]) == [a] + RenderedParts([]);
    TrimmedStays(a);
  }

  lemma TwoParts(a: string, b: string)
    requires a != "" && b != "" && Trimmed(a) && Trimmed(b)
    ensures RenderedParts([Body(a), Body(b)]) == [a, b]
  {
    BodyText(a);
    OneText(b);
    assert [Body(a), Body(b)][1..] == [Body(b)];
    assert RenderedParts([Body(a), Body(b)]) == [a] + [b];
  }

  lemma TwoTexts(a: string, b: string)
    requires a != "" && b != "" && Trimmed(a) && Trimmed(b)
    ensures FragmentsText([Body(a), Body(b)]) == a + "\n\n" + b
  {
    TwoParts(a, b);
    JoinedTwo(a, b);
  }

  lemma JoinedTwo(a: string, b: string)
    requires a != "" && b != "" && Trimmed(a) && Trimmed(b)
    ensures TrimSpace(Join([a, b], "\n\n")) == a + "\n\n" + b
  {
    assert [a, b][1..] == [b] && Join([b], "\n\n") == b;
    TrimmedStays(a + "\n\n" + b);
  }

  /** Two fragments that fit, but not on one page. */
  lemma TwoPages(p: Paging.Pager, f: Fragment, g: Fragment)
    requires var m, n := p.tokenizer.CountFragment(f), p.tokenizer.CountFragment(g);
      0 < m <= p.limit && n <= p.limit < m + n
    ensures p.Pages([f, g]) == [[f], [g]]
  {
    assert [f, g][1..] == [g] && [g][1..] == [] && [f][1..] == [];
    assert p.AllParts([g]) == [g] + p.AllParts([]);
    assert p.AllParts([f, g]) == [f] + [g];
    p.One(f);
    assert p.Tokens([]) == 0 && [] + [f] == [f];
    assert p.PageUp([g], [f]) == [[f]] + p.PageUp([], [g]);
    assert p.PageUp([f, g], []) == p.PageUp([g], [f]);
  }

  lemma IdTexts(r: Refiner.Refiner, id: string)
    requires IsSmall(r) && |id| == 4 && Trimmed(id)
    ensures r.OverLimit(IdChunk(id))
  {
    TwoTexts(id, "ok");
    TrimmedStays(id + "\n\n" + "ok");
  }

  /** Such a chunk is over the limit, and has two pages. */
  lemma IdPages(r: Refiner.Refiner, id: string)
    requires IsSmall(r) && |id| == 4 && Trimmed(id)
    ensures r.OverLimit(IdChunk(id)) && r.pager.Pages(IdChunk(id).fragments) == [[Body(id)], [Body("ok")]]
    ensures r.Texts(IdChunk(id)) == [id, "ok"]
  {
    IdTexts(r, id);
    BodyText(id);
    BodyText("ok");
    TrimmedStays(id);
    TrimmedStays("ok");
    TwoPages(r.pager, Body(id), Body("ok"));
    OneText(id);
    OneText("ok");
  }

  lemma OneKey(r: Refiner.Refiner, index: nat)
    requires IsSmall(r)
    ensures r.PageRef(IdChunk("id=1"), index) == r.PageRef(IdChunk("id=2"), index)
  {
    var n := r.prompter.normalizer;
    var a, b := IdChunk("id=1").fragments, IdChunk("id=2").fragments;
    assert a[1..] == b[1..];
    assert n.NormalizeFragments(a) == [Body("id=#")] + n.NormalizeFragments(a[1..]);
    assert n.NormalizeFragments(b) == [Body("id=#")] + n.NormalizeFragments(b[1..]);
  }

  /** What the two chunks save, one after the other. */
  function BothWrites(r: Refiner.Refiner): seq<(string, string)> {
    r.WritesOf(IdChunk("id=1")) + r.WritesOf(IdChunk("id=2"))
  }

  lemma SharedFirst(r: Refiner.Refiner, a: Chunk, b: Chunk, now: SummaryStore.Time, ttl: int, i: nat, text: string)
    requires ttl > 0 && r.OverLimit(a) && r.OverLimit(b) && i < |r.Texts(a)| && i < |r.Texts(b)|
    requires r.PageRef(a, i + 1) == r.PageRef(b, i + 1) && r.Texts(a)[i] == text
    ensures var refs := r.PageOut(b).pageRefs;
      i < |refs| && Holds(WriteAll(map[], r.WritesOf(a) + r.WritesOf(b), now, ttl), refs[i], text, now)
  {
    r.SharedKeyServesFirst(a, b, map[], now, ttl, i);
  }

  /** Paged out one after the other, both chunks name the same pages: the reference of the second one's first page,
      "id=2", resolves to "id=1". */
  lemma SecondChunkServesFirst(r: Refiner.Refiner, now: SummaryStore.Time, ttl: int)
    requires IsSmall(r) && ttl > 0
    ensures r.Texts(IdChunk("id=2")) == ["id=2", "ok"]
    ensures var refs := r.PageOut(IdChunk("id=2")).pageRefs;
      refs != [] && Holds(WriteAll(map[], BothWrites(r), now, ttl), refs[0], "id=1", now)
  {
    var a, b := IdChunk("id=1"), IdChunk("id=2");
    IdPages(r, "id=1");
    IdPages(r, "id=2");
    OneKey(r, 1);
    assert |r.Texts(a)| == 2 && r.Texts(a)[0] == "id=1";
    SharedFirst(r, a, b, now, ttl, 0, "id=1");
  }

  // ----- a paged chunk whose job is never acknowledged -----

  lemma SourceIsNotHash(r: Refiner.Refiner)
    requires IsSmall(r)
    ensures "hash" !in KeyParts(r.prompter.lower, r.JoinSources(IdChunk("id=1")))
  {}

  lemma MaskedFragments(r: Refiner.Refiner)
    requires IsSmall(r)
    ensures var n := r.prompter.normalizer;
      && n.NormalizeFragments([Body("id=1"), Body("ok")]) == [Body("id=#"), Body("ok")]
      && n.NormalizeFragments([Body("id=1")]) == [Body("id=#")]
  {
    var n, id, ok := r.prompter.normalizer, Body("id=1"), Body("ok");
    assert [id, ok][1..] == [ok] && [ok][1..] == [] && [id][1..] == [];
    assert n.NormalizeFragments([ok]) == [ok] + n.NormalizeFragments([]);
    assert n.NormalizeFragments([id]) == [Body("id=#")] + n.NormalizeFragments([]);
    assert n.NormalizeFragments([id, ok]) == [Body("id=#")] + [ok];
  }

  lemma MaskedWhole(r: Refiner.Refiner)
    requires IsSmall(r)
    ensures r.CanonicalText(IdChunk("id=1")) == "id=#" + "\n\n" + "ok"
  {
    MaskedFragments(r);
    TwoTexts("id=#", "ok");
  }

  lemma MaskedFirst(r: Refiner.Refiner)
    requires IsSmall(r)
    ensures r.CanonicalText(r.PageOut(IdChunk("id=1"))) == "id=#"
  {
    IdPages(r, "id=1");
    OneMasked(r, r.PageOut(IdChunk("id=1")));
  }

  lemma OneMasked(r: Refiner.Refiner, chunk: Chunk)
    requires IsSmall(r) && chunk.fragments == [Body("id=1")]
    ensures r.CanonicalText(chunk) == "id=#"
  {
    MaskedFragments(r);
    OneText("id=#");
  }

  /** The job of this chunk hashes its first page, its keys the whole chunk: no run acknowledges it. */
  lemma PagedJobIsStuck(r: Refiner.Refiner, clerk: SummaryStore.Clerk, writer: SummaryQueue.Writer)
    requires IsSmall(r) && r.Tells("id=#" + "\n\n" + "ok", "id=#")
    ensures !SummaryQueue.Acknowledgeable(clerk, writer, r.JobOf(r.PageOut(IdChunk("id=1"))))
  {
    MaskedWhole(r);
    MaskedFirst(r);
    SourceIsNotHash(r);
    r.PagedJobAcknowledgeableExactly(clerk, writer, IdChunk("id=1"));
  }
}
