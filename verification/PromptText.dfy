/** What the assembled prompt holds: every stable chunk, every message before the last and the last one, once and in
    order. */
module PromptText {
  import opened Text
  import opened Seqs
  import opened Content
  import opened Prompt

  // ----- the messages of one kind -----

  function KindFlags(p: Prompter, messages: seq<Message>, system: bool): seq<bool> {
    seq(|messages|, i requires 0 <= i < |messages| => p.IsSystem(messages[i]) == system)
  }

  /** The messages of a kind are exactly those with that role, in order. */
  lemma {:induction false} KindIsSelected(p: Prompter, messages: seq<Message>, system: bool)
    ensures p.OfKind(messages, system) == Selected(messages, KindFlags(p, messages, system))
  {
    if messages != [] {
      KindIsSelected(p, messages[1..], system);
      assert KindFlags(p, messages, system)[1..] == KindFlags(p, messages[1..], system);
    }
  }

  /** All messages but the last. */
  function Earlier(messages: seq<Message>): seq<Message> {
    if messages == [] then [] else messages[..|messages| - 1]
  }

  /** The earlier messages as the prompt shows them: the system messages, then the others, each with its cleaned
      text. */
  function StableOrder(p: Prompter, messages: seq<Message>): seq<Message> {
    var init := Earlier(messages);
    Map(p.StableMessage(), Selected(init, KindFlags(p, init, true)) + Selected(init, KindFlags(p, init, false)))
  }

  // ----- the pieces of the prompt -----

  /** A section: its heading, its entries and what closes it; without entries there is none. */
  function Section(heading: string, entries: seq<string>, closing: string): seq<string> {
    if entries == [] then [] else [heading] + entries + [closing]
  }

  function ActivePieces(p: Prompter, messages: seq<Message>): seq<string> {
    if messages == [] then [] else [p.RenderMessage(p.ActiveMessage(messages[|messages| - 1]))]
  }

  function Pieces(p: Prompter, messages: seq<Message>, chunks: seq<Chunk>): seq<string> {
    Section("# Stable Context\n## RAG\n", Map(ChunkRenderer(), p.normalizer.StableChunks(chunks)), "\n")
      + Section("# Conversation Memory\n", Map(p.MessageRenderer(), StableOrder(p, messages)), "\n")
      + Section("# Active Turn\n", ActivePieces(p, messages), "")
  }

  lemma SectionFlattens(heading: string, entries: seq<string>, closing: string)
    ensures Flatten(Section(heading, entries, closing))
      == if entries == [] then "" else heading + Flatten(entries) + closing
  {
    if entries != [] {
      FlattenAppend([heading] + entries, [closing]);
      FlattenAppend([heading], entries);
      FlattenOne(heading);
      FlattenOne(closing);
    }
  }

  lemma FlattenOne(piece: string)
    ensures Flatten([piece]) == piece
  {
    assert [piece][1..] == [];
    assert Flatten([piece]) == piece + Flatten([]);
  }

  lemma StableSegments(p: Prompter, messages: seq<Message>)
    ensures var (system, memory, active) := p.Segments(messages);
      system + memory == StableOrder(p, messages)
  {
    var init := Earlier(messages);
    KindIsSelected(p, init, true);
    KindIsSelected(p, init, false);
    MapAppend(p.StableMessage(), p.OfKind(init, true), p.OfKind(init, false));
  }

  lemma FrontIsSections(p: Prompter, messages: seq<Message>, chunks: seq<Chunk>)
    ensures p.Front(chunks, StableOrder(p, messages))
      == Flatten(Section("# Stable Context\n## RAG\n", Map(ChunkRenderer(), p.normalizer.StableChunks(chunks)), "\n"))
       + Flatten(Section("# Conversation Memory\n", Map(p.MessageRenderer(), StableOrder(p, messages)), "\n"))
  {
    var stable, order := p.normalizer.StableChunks(chunks), StableOrder(p, messages);
    SectionFlattens("# Stable Context\n## RAG\n", Map(ChunkRenderer(), stable), "\n");
    SectionFlattens("# Conversation Memory\n", Map(p.MessageRenderer(), order), "\n");
    MapAt(ChunkRenderer(), stable);
    MapAt(p.MessageRenderer(), order);
  }

  /** The prompt is its pieces, trimmed: the canonical chunks, the earlier messages and the last one, section by
      section. */
  lemma PromptIsPieces(p: Prompter, messages: seq<Message>, chunks: seq<Chunk>)
    ensures p.AssemblePrompt(messages, chunks) == TrimSpace(Flatten(Pieces(p, messages, chunks)))
  {
    var context := Section("# Stable Context\n## RAG\n", Map(ChunkRenderer(), p.normalizer.StableChunks(chunks)), "\n");
    var memory := Section("# Conversation Memory\n", Map(p.MessageRenderer(), StableOrder(p, messages)), "\n");
    var turn := Section("# Active Turn\n", ActivePieces(p, messages), "");
    StableSegments(p, messages);
    FrontIsSections(p, messages, chunks);
    FlattenAppend(context + memory, turn);
    FlattenAppend(context, memory);
    SectionFlattens("# Active Turn\n", ActivePieces(p, messages), "");
    if messages != [] {
      p.RenderedActive(messages[|messages| - 1]);
      FlattenOne(ActivePieces(p, messages)[0]);
      assert p.RenderMessage(p.ActiveMessage(messages[|messages| - 1])) == "[" + p.ActiveBody(messages[|messages| - 1]);
      assert ("# Active Turn\n" + Flatten(ActivePieces(p, messages))) + "" ==
        "# Active Turn\n" + Flatten(ActivePieces(p, messages));
    }
  }

  // ----- white space aside -----

  /** A message: its role in brackets and its text. */
  function MessageWords(p: Prompter, m: Message): string {
    Erase("[") + Erase(p.upper(TrimSpace(m.role))) + Erase("]\n") + Erase(m.content)
  }

  function FragmentWords(f: Fragment): string {
    if Blank(f.content) then "" else Erase(Opening(f)) + Erase(f.content) + Erase(Closing(f))
  }

  function FragmentsWords(fragments: seq<Fragment>): string {
    if fragments == [] then "" else FragmentWords(fragments[0]) + FragmentsWords(fragments[1..])
  }

  /** A chunk: its sources in parentheses and what its fragments say. */
  function ChunkWords(chunk: Chunk): string {
    var joined := Join(chunk.sources, ", ");
    Erase("- (") + Erase(if joined == "" then "unknown" else joined) + Erase(")\n") + FragmentsWords(chunk.fragments)
  }

  function MessagesWords(p: Prompter, messages: seq<Message>): string {
    if messages == [] then "" else MessageWords(p, messages[0]) + MessagesWords(p, messages[1..])
  }

  function ChunksWords(chunks: seq<Chunk>): string {
    if chunks == [] then "" else ChunkWords(chunks[0]) + ChunksWords(chunks[1..])
  }

  lemma EraseThree(a: string, b: string, c: string)
    ensures Erase(a + b + c) == Erase(a) + Erase(b) + Erase(c)
  {
    EraseAppend(a + b, c);
    EraseAppend(a, b);
  }

  /** Two marks around a name, and a text behind them. */
  lemma MarksSpell(open: string, name: string, close: string, text: string, gap: string)
    requires Erase(gap) == ""
    ensures Erase(open + name + close + text + gap) == Erase(open) + Erase(name) + Erase(close) + Erase(text)
  {
    EraseThree(open + name + close, text, gap);
    EraseThree(open, name, close);
  }

  lemma MessageSpells(p: Prompter, m: Message)
    ensures Erase(p.RenderMessage(m)) == MessageWords(p, m)
  {
    var role, text := p.upper(TrimSpace(m.role)), TrimSpace(m.content);
    EraseTrim(m.content);
    EraseSpaces("\n\n");
    MarksSpell("[", role, "]\n", text, "\n\n");
    Regroup("[", role, "]\n", text, "\n\n");
  }

  lemma Regroup(a: string, b: string, c: string, d: string, e: string)
    ensures a + (b + c + d + e) == a + b + c + d + e
  {}

  lemma FragmentSpells(f: Fragment)
    ensures Erase(FragmentText(f)) == FragmentWords(f)
  {
    EraseTrim(f.content);
    EraseThree(Opening(f), TrimSpace(f.content), Closing(f));
  }

  lemma {:induction false} PartsSpell(fragments: seq<Fragment>)
    ensures EraseAll(RenderedParts(fragments)) == FragmentsWords(fragments)
  {
    if fragments != [] {
      var text := FragmentText(fragments[0]);
      PartsSpell(fragments[1..]);
      FragmentSpells(fragments[0]);
      EraseTrim(text);
      EraseAllAppend(if Blank(text) then [] else [text], RenderedParts(fragments[1..]));
      EraseAllOne(text);
    }
  }

  /** White space aside, a chunk's text is its fragments, each with what is written around it. */
  lemma ChunkTextSpells(fragments: seq<Fragment>)
    ensures Erase(FragmentsText(fragments)) == FragmentsWords(fragments)
  {
    PartsSpell(fragments);
    EraseSpaces("\n\n");
    EraseJoin(RenderedParts(fragments), "\n\n");
    EraseTrim(Join(RenderedParts(fragments), "\n\n"));
  }

  lemma ChunkSpells(chunk: Chunk)
    ensures Erase(RenderChunk(chunk)) == ChunkWords(chunk)
  {
    ChunkTextSpells(chunk.fragments);
    EraseTrim(ChunkText(chunk));
    EraseSpaces("\n");
    MarksSpell("- (", OrUnknown(Join(chunk.sources, ", ")), ")\n", TrimSpace(ChunkText(chunk)), "\n");
  }

  lemma {:induction false} MessagesSpell(p: Prompter, messages: seq<Message>)
    ensures EraseAll(Map(p.MessageRenderer(), messages)) == MessagesWords(p, messages)
  {
    if messages != [] {
      MessagesSpell(p, messages[1..]);
      MessageSpells(p, messages[0]);
    }
  }

  lemma {:induction false} ChunksSpell(chunks: seq<Chunk>)
    ensures EraseAll(Map(ChunkRenderer(), chunks)) == ChunksWords(chunks)
  {
    if chunks != [] {
      ChunksSpell(chunks[1..]);
      ChunkSpells(chunks[0]);
    }
  }

  lemma {:induction false} EraseFlatten(pieces: seq<string>)
    ensures Erase(Flatten(pieces)) == EraseAll(pieces)
  {
    if pieces != [] {
      EraseFlatten(pieces[1..]);
      EraseAppend(pieces[0], Flatten(pieces[1..]));
    }
  }

  lemma SectionSpells(heading: string, entries: seq<string>, closing: string)
    requires Erase(closing) == ""
    ensures EraseAll(Section(heading, entries, closing))
      == if entries == [] then "" else Erase(heading) + EraseAll(entries)
  {
    if entries != [] {
      EraseAllAppend([heading] + entries, [closing]);
      EraseAllAppend([heading], entries);
      EraseAllOne(heading);
      EraseAllOne(closing);
    }
  }

  lemma ContextSpells(heading: string, stable: seq<Chunk>, closing: string)
    requires Erase(closing) == ""
    ensures EraseAll(Section(heading, Map(ChunkRenderer(), stable), closing))
      == if stable == [] then "" else Erase(heading) + ChunksWords(stable)
  {
    SectionSpells(heading, Map(ChunkRenderer(), stable), closing);
    ChunksSpell(stable);
    MapAt(ChunkRenderer(), stable);
  }

  lemma MemorySpells(p: Prompter, heading: string, order: seq<Message>, closing: string)
    requires Erase(closing) == ""
    ensures EraseAll(Section(heading, Map(p.MessageRenderer(), order), closing))
      == if order == [] then "" else Erase(heading) + MessagesWords(p, order)
  {
    SectionSpells(heading, Map(p.MessageRenderer(), order), closing);
    MessagesSpell(p, order);
    MapAt(p.MessageRenderer(), order);
  }

  lemma ActiveSpells(p: Prompter, heading: string, messages: seq<Message>)
    ensures EraseAll(Section(heading, ActivePieces(p, messages), ""))
      == if messages == [] then "" else Erase(heading) + MessageWords(p, p.ActiveMessage(messages[|messages| - 1]))
  {
    SectionSpells(heading, ActivePieces(p, messages), "");
    if messages != [] {
      MessageSpells(p, p.ActiveMessage(messages[|messages| - 1]));
      EraseAllOne(ActivePieces(p, messages)[0]);
    }
  }

  lemma ThreeSections(a: seq<string>, b: seq<string>, c: seq<string>)
    ensures Erase(TrimSpace(Flatten(a + b + c))) == EraseAll(a) + EraseAll(b) + EraseAll(c)
  {
    EraseTrim(Flatten(a + b + c));
    EraseFlatten(a + b + c);
    EraseAllAppend(a + b, c);
    EraseAllAppend(a, b);
  }

  /** White space aside, the prompt is: behind its heading every canonical chunk; behind its heading every system
      message and then every other message before the last; behind its heading the last message. Each stands there
      once, and nothing else does. */
  lemma PromptSpells(p: Prompter, messages: seq<Message>, chunks: seq<Chunk>)
    ensures var stable, order := p.normalizer.StableChunks(chunks), StableOrder(p, messages);
      Erase(p.AssemblePrompt(messages, chunks))
      == (if stable == [] then "" else Erase("# Stable Context\n## RAG\n") + ChunksWords(stable))
       + (if order == [] then "" else Erase("# Conversation Memory\n") + MessagesWords(p, order))
       + (if messages == [] then ""
          else Erase("# Active Turn\n") + MessageWords(p, p.ActiveMessage(messages[|messages| - 1])))
  {
    PromptIsPieces(p, messages, chunks);
    NoRunes("\n");
    SectionsSpell(p, p.normalizer.StableChunks(chunks), StableOrder(p, messages), messages,
      "# Stable Context\n## RAG\n", "# Conversation Memory\n", "# Active Turn\n", "\n");
  }

  lemma NoRunes(gap: string)
    requires gap == "\n"
    ensures Erase(gap) == ""
  {
    EraseSpaces(gap);
  }

  lemma SectionsSpell(p: Prompter, stable: seq<Chunk>, order: seq<Message>, messages: seq<Message>,
                      context: string, memory: string, turn: string, closing: string)
    requires Erase(closing) == ""
    ensures Erase(TrimSpace(Flatten(
      Section(context, Map(ChunkRenderer(), stable), closing)
        + Section(memory, Map(p.MessageRenderer(), order), closing)
        + Section(turn, ActivePieces(p, messages), ""))))
      == (if stable == [] then "" else Erase(context) + ChunksWords(stable))
       + (if order == [] then "" else Erase(memory) + MessagesWords(p, order))
       + (if messages == [] then "" else Erase(turn) + MessageWords(p, p.ActiveMessage(messages[|messages| - 1])))
  {
    ThreeSections(
      Section(context, Map(ChunkRenderer(), stable), closing),
      Section(memory, Map(p.MessageRenderer(), order), closing),
      Section(turn, ActivePieces(p, messages), ""));
    ContextSpells(context, stable, closing);
    MemorySpells(p, memory, order, closing);
    ActiveSpells(p, turn, messages);
  }
}
