/** The stable prefix, the assembled prompt, the prefix identity and what a miss is blamed on. */
module Prompt {
  import opened Text
  import opened Seqs
  import opened Content
  import opened Sorting
  import Canonical
  import PrefixRegistry

  datatype Sections = Sections(system: string, memory: string, rag: string, stable: string)

  datatype Identity = Identity(
    modelID: string,
    combinedHash: string,
    systemHash: string,
    memoryHash: string,
    ragHash: string,
    sections: Sections)

  const NORMALIZATION := "stable-prefix-v2"

  /** joinSectionLines: the trimmed parts that are not blank, a blank line between them. */
  function Solid(parts: seq<string>): seq<string> {
    if parts == [] then [] else (if Blank(parts[0]) then [] else [TrimSpace(parts[0])]) + Solid(parts[1..])
  }

  function JoinSectionLines(parts: seq<string>): string {
    TrimSpace(Join(Solid(parts), "\n\n"))
  }

  function OrUnknown(joined: string): string {
    if joined == "" then "unknown" else joined
  }

  /** firstNonBlank(name, "unknown"). */
  function ModelID(name: string): string {
    if Blank(name) then "unknown" else TrimSpace(name)
  }

  function RenderChunk(chunk: Chunk): string {
    "- (" + OrUnknown(Join(chunk.sources, ", ")) + ")\n" + TrimSpace(ChunkText(chunk)) + "\n"
  }

  function ChunkRenderer(): Chunk -> string {
    (chunk: Chunk) => RenderChunk(chunk)
  }

  method WriteEach<T>(render: T -> string, items: seq<T>) returns (out: string)
    ensures out == Flatten(Map(render, items))
  {
    out := "";
    var todo := items;
    while |todo| > 0
      invariant out + Flatten(Map(render, todo)) == Flatten(Map(render, items))
    {
      Assoc(out, render(todo[0]), Flatten(Map(render, todo[1..])));
      assert Map(render, todo)[1..] == Map(render, todo[1..]);
      out := out + render(todo[0]);
      todo := todo[1..];
    }
  }

  /** Sanitising, case conversion and hashing are left open. */
  datatype Prompter = Prompter(
    stableText: string -> string,
    activeText: string -> string,
    lower: string -> string,
    upper: string -> string,
    hash: string -> string,
    normalizer: Canonical.Normalizer)
  {
    // ----- message segments -----

    function NormalizeRole(role: string): string {
      var folded := lower(TrimSpace(role));
      if folded == "" then "user" else folded
    }

    predicate IsSystem(m: Message) {
      NormalizeRole(m.role) == "system"
    }

    function StableMessage(): Message -> Message {
      (m: Message) => Message(NormalizeRole(m.role), stableText(m.content))
    }

    function ActiveMessage(m: Message): Message {
      Message(NormalizeRole(m.role), activeText(m.content))
    }

    /** The messages whose role is, or is not, "system", as they came and in order. */
    function OfKind(messages: seq<Message>, system: bool): seq<Message> {
      if messages == [] then []
      else (if IsSystem(messages[0]) == system then [messages[0]] else []) + OfKind(messages[1..], system)
    }

    /** StablePromptSegments: system and memory messages of all but the last, and the last as the active turn. */
    function Segments(messages: seq<Message>): (seq<Message>, seq<Message>, seq<Message>) {
      if messages == [] then ([], [], [])
      else
        var n := |messages| - 1;
        (Map(StableMessage(), OfKind(messages[..n], true)), Map(StableMessage(), OfKind(messages[..n], false)),
          [ActiveMessage(messages[n])])
    }

    method StablePromptSegments(messages: seq<Message>)
      returns (system: seq<Message>, memory: seq<Message>, active: seq<Message>)
      ensures (system, memory, active) == Segments(messages)
    {
      system, memory, active := [], [], [];
      if |messages| == 0 {
        return;
      }
      var n := |messages| - 1;
      active := [ActiveMessage(messages[n])];
      system, memory := SplitByRole(messages[..n]);
    }

    /** The loop over the stable messages. */
    method SplitByRole(messages: seq<Message>) returns (system: seq<Message>, memory: seq<Message>)
      ensures system == Map(StableMessage(), OfKind(messages, true))
      ensures memory == Map(StableMessage(), OfKind(messages, false))
    {
      system, memory := [], [];
      var todo := messages;
      while |todo| > 0
        invariant system + Map(StableMessage(), OfKind(todo, true)) == Map(StableMessage(), OfKind(messages, true))
        invariant memory + Map(StableMessage(), OfKind(todo, false)) == Map(StableMessage(), OfKind(messages, false))
      {
        var message := StableMessage()(todo[0]);
        OfKindHead(todo);
        if message.role == "system" {
          Shift(system, Map(StableMessage(), OfKind(todo, true)));
          system := system + [message];
        } else {
          Shift(memory, Map(StableMessage(), OfKind(todo, false)));
          memory := memory + [message];
        }
        todo := todo[1..];
      }
    }

    lemma OfKindHead(messages: seq<Message>)
      requires messages != []
      ensures var kind := IsSystem(messages[0]);
        OfKind(messages, kind) == [messages[0]] + OfKind(messages[1..], kind)
        && OfKind(messages, !kind) == OfKind(messages[1..], !kind)
    {}

    // ----- rendering -----

    function RenderMessage(m: Message): string {
      "[" + (upper(TrimSpace(m.role)) + "]\n" + TrimSpace(m.content) + "\n\n")
    }

    function MessageRenderer(): Message -> string {
      (m: Message) => RenderMessage(m)
    }

    /** Everything AssemblePrompt writes in front of the active turn. */
    function Front(chunks: seq<Chunk>, stable: seq<Message>): string {
      var stableChunks := normalizer.StableChunks(chunks);
      (if stableChunks == [] then ""
       else "# Stable Context\n## RAG\n" + Flatten(Map(ChunkRenderer(), stableChunks)) + "\n")
      + (if stable == [] then "" else "# Conversation Memory\n" + Flatten(Map(MessageRenderer(), stable)) + "\n")
    }

    function AssemblePrompt(messages: seq<Message>, chunks: seq<Chunk>): string {
      var (system, memory, active) := Segments(messages);
      TrimSpace(Front(chunks, system + memory)
        + if active == [] then "" else "# Active Turn\n" + Flatten(Map(MessageRenderer(), active)))
    }

    /** The builder of AssemblePrompt, section by section. */
    method WritePrompt(messages: seq<Message>, chunks: seq<Chunk>) returns (prompt: string)
      ensures prompt == AssemblePrompt(messages, chunks)
    {
      var stableChunks := normalizer.ComputeStableChunks(chunks);
      var system, memory, active := StablePromptSegments(messages);
      var context, conversation, turn := "", "", "";
      if |stableChunks| > 0 {
        var rendered := WriteEach(ChunkRenderer(), stableChunks);
        context := "# Stable Context\n## RAG\n" + rendered + "\n";
      }
      if |system + memory| > 0 {
        var rendered := WriteEach(MessageRenderer(), system + memory);
        conversation := "# Conversation Memory\n" + rendered + "\n";
      }
      if |active| > 0 {
        var rendered := WriteEach(MessageRenderer(), active);
        turn := "# Active Turn\n" + rendered;
      }
      prompt := TrimSpace(context + conversation + turn);
    }

    lemma AssembledIsTrimmed(messages: seq<Message>, chunks: seq<Chunk>)
      ensures Trimmed(AssemblePrompt(messages, chunks))
    {
      var (system, memory, active) := Segments(messages);
      TrimSpaceTrims(Front(chunks, system + memory)
        + if active == [] then "" else "# Active Turn\n" + Flatten(Map(MessageRenderer(), active)));
    }

    // ----- the stable prefix and its identity -----

    function BuildSections(systemText: string, memoryText: string, ragText: string): Sections {
      var s, m, r := TrimSpace(stableText(systemText)), TrimSpace(stableText(memoryText)),
        TrimSpace(stableText(ragText));
      var rag := if r == "" then r else JoinSectionLines(["# Stable Context", "## RAG", r]);
      var system := if s == "" then s else JoinSectionLines(["# Stable System", s]);
      var memory := if m == "" then m else JoinSectionLines(["# Conversation Memory", m]);
      Sections(system, memory, rag, StableOf(system, memory, rag))
    }

    /** The stable prompt is a function of the three segment prompts. */
    static function StableOf(system: string, memory: string, rag: string): string {
      JoinSectionLines([rag, JoinSectionLines([system, memory])])
    }

    function SectionsOf(messages: seq<Message>, chunks: seq<Chunk>): Sections {
      var (system, memory, _) := Segments(messages);
      BuildSections(
        TrimSpace(Join(Map(MessageRenderer(), system), "\n")),
        TrimSpace(Join(Map(MessageRenderer(), memory), "\n")),
        TrimSpace(Join(Map(ChunkRenderer(), normalizer.StableChunks(chunks)), "\n")))
    }

    function SegmentHash(modelID: string, prompt: string): string {
      if prompt == "" then "" else hash(modelID + "\n" + prompt)
    }

    /** buildPrefixCacheIdentity. */
    function IdentityOf(modelID: string, sections: Sections): Identity {
      Identity(modelID, SegmentHash(modelID, sections.stable), SegmentHash(modelID, sections.system),
               SegmentHash(modelID, sections.memory), SegmentHash(modelID, sections.rag), sections)
    }

    /** BuildPrefixCacheIdentity. */
    function RequestIdentity(modelName: string, messages: seq<Message>, chunks: seq<Chunk>): Identity {
      IdentityOf(ModelID(modelName), SectionsOf(messages, chunks))
    }

    /** The entry that PrefixCacheProcessor registers for an identity. */
    function EntryOf(id: Identity, namespace: string): PrefixRegistry.Entry {
      PrefixRegistry.NO_ENTRY.(
        key := id.combinedHash, namespace := namespace, modelID := id.modelID, prefixHash := id.combinedHash,
        systemHash := id.systemHash, memoryHash := id.memoryHash, ragHash := id.ragHash,
        normalizationVersion := NORMALIZATION)
    }

    // ----- the prefix ignores the active turn, interleaving and chunk order -----

    /** The identity depends on the system and the memory messages in front of the last, each in order, and on what the
        chunks bring under each pair of keys; in particular not on the last message. */
    lemma IdentityIgnoresOrderAndTurn(modelName: string, xs: seq<Message>, ys: seq<Message>, cs: seq<Chunk>,
                                      ds: seq<Chunk>)
      requires |xs| >= 1 && |ys| >= 1
      requires OfKind(xs[..|xs| - 1], true) == OfKind(ys[..|ys| - 1], true)
      requires OfKind(xs[..|xs| - 1], false) == OfKind(ys[..|ys| - 1], false)
      requires AgreeUnderEveryKey(normalizer.Normalized(cs), normalizer.Normalized(ds), normalizer.ChunkKey())
      ensures RequestIdentity(modelName, xs, cs) == RequestIdentity(modelName, ys, ds)
    {
      normalizer.StableChunksSameExactly(cs, ds);
    }

    /** Chunks may come in any order when no two of them share a pair of keys. */
    lemma IdentityIgnoresChunkOrder(modelName: string, messages: seq<Message>, cs: seq<Chunk>, ds: seq<Chunk>)
      requires multiset(cs) == multiset(ds) && Canonical.DistinctChunkKeys(normalizer, cs)
      ensures RequestIdentity(modelName, messages, cs) == RequestIdentity(modelName, messages, ds)
    {
      normalizer.StableChunksOrderIndependent(cs, ds);
    }

    /** Swapping a neighbouring system and memory message changes neither subsequence. */
    lemma SwapKeepsKinds(a: seq<Message>, m: Message, n: Message, b: seq<Message>, system: bool)
      requires IsSystem(m) != IsSystem(n)
      ensures OfKind(a + [m, n] + b, system) == OfKind(a + [n, m] + b, system)
    {
      OfKindAppend(a + [m, n], b, system);
      OfKindAppend(a + [n, m], b, system);
      OfKindAppend(a, [m, n], system);
      OfKindAppend(a, [n, m], system);
      OfKindTwo(m, n, system);
      OfKindTwo(n, m, system);
    }

    lemma OfKindTwo(m: Message, n: Message, system: bool)
      requires IsSystem(m) != IsSystem(n)
      ensures OfKind([m, n], system) == if IsSystem(m) == system then [m] else [n]
    {
      assert [m, n][1..] == [n] && [n][1..] == [];
      assert OfKind([n], system) == (if IsSystem(n) == system then [n] else []) + OfKind([], system);
    }

    lemma {:induction false} OfKindAppend(a: seq<Message>, b: seq<Message>, system: bool)
      ensures OfKind(a + b, system) == OfKind(a, system) + OfKind(b, system)
    {
      if a == [] {
        assert a + b == b;
      } else {
        var one := if IsSystem(a[0]) == system then [a[0]] else [];
        assert (a + b)[0] == a[0] && (a + b)[1..] == a[1..] + b;
        OfKindAppend(a[1..], b, system);
        Assoc(one, OfKind(a[1..], system), OfKind(b, system));
      }
    }

    // ----- the canonical message list -----

    /** What the canonicalize step puts in place of the messages: system, memory and active turn, one after the
        other. */
    function CanonicalMessages(messages: seq<Message>): seq<Message> {
      var (system, memory, active) := Segments(messages);
      system + memory + active
    }

    /** A cleaned role is left alone by the next cleaning. */
    predicate RoleFinal(m: Message) {
      NormalizeRole(NormalizeRole(m.role)) == NormalizeRole(m.role)
    }

    predicate TextFinal(m: Message) {
      stableText(stableText(m.content)) == stableText(m.content)
    }

    predicate ActiveFinal(m: Message) {
      activeText(activeText(m.content)) == activeText(m.content)
    }

    ghost predicate RolesFinal(messages: seq<Message>) {
      forall m :: m in messages ==> RoleFinal(m)
    }

    ghost predicate TextsFinal(messages: seq<Message>) {
      forall m :: m in messages ==> TextFinal(m)
    }

    lemma {:induction false} KindMembers(messages: seq<Message>, system: bool, m: Message)
      ensures m in OfKind(messages, system) <==> m in messages && IsSystem(m) == system
    {
      if messages != [] {
        KindMembers(messages[1..], system, m);
        assert messages == [messages[0]] + messages[1..];
      }
    }

    lemma {:induction false} OneKind(messages: seq<Message>, system: bool)
      requires forall m :: m in messages ==> IsSystem(m) == system
      ensures OfKind(messages, system) == messages && OfKind(messages, !system) == []
    {
      if messages != [] {
        assert messages[0] in messages && forall m :: m in messages[1..] ==> m in messages;
        OneKind(messages[1..], system);
      }
    }

    /** The cleaned messages of one kind are of that kind. */
    lemma CleanedKind(messages: seq<Message>, system: bool)
      requires RolesFinal(messages)
      ensures var cleaned := Map(StableMessage(), OfKind(messages, system));
        OfKind(cleaned, system) == cleaned && OfKind(cleaned, !system) == []
    {
      var kind := OfKind(messages, system);
      var cleaned := Map(StableMessage(), kind);
      MapAt(StableMessage(), kind);
      forall m | m in cleaned
        ensures IsSystem(m) == system
      {
        var i :| 0 <= i < |cleaned| && cleaned[i] == m;
        KindMembers(messages, system, kind[i]);
        assert RoleFinal(kind[i]);
      }
      OneKind(cleaned, system);
    }

    /** Cleaning the cleaned messages changes nothing exactly when their texts are final. */
    lemma {:induction false} CleanedStayExactly(messages: seq<Message>)
      requires RolesFinal(messages)
      ensures var cleaned := Map(StableMessage(), messages);
        Map(StableMessage(), cleaned) == cleaned <==> TextsFinal(messages)
    {
      if messages != [] {
        var m, rest := messages[0], messages[1..];
        assert m in messages && forall x :: x in rest ==> x in messages;
        CleanedStayExactly(rest);
        assert RoleFinal(m);
        var cleaned := Map(StableMessage(), messages);
        assert cleaned == [StableMessage()(m)] + Map(StableMessage(), rest);
        assert cleaned[1..] == Map(StableMessage(), rest);
        assert Map(StableMessage(), cleaned) == [StableMessage()(cleaned[0])] + Map(StableMessage(), cleaned[1..]);
        assert messages == [m] + rest;
      }
    }

    /** The canonical messages in front of the last, cleaned again. */
    lemma CanonicalKinds(init: seq<Message>)
      requires RolesFinal(init)
      ensures var system, memory := Map(StableMessage(), OfKind(init, true)), Map(StableMessage(), OfKind(init, false));
        OfKind(system + memory, true) == system && OfKind(system + memory, false) == memory
    {
      var system, memory := Map(StableMessage(), OfKind(init, true)), Map(StableMessage(), OfKind(init, false));
      CleanedKind(init, true);
      CleanedKind(init, false);
      OfKindAppend(system, memory, true);
      OfKindAppend(system, memory, false);
      assert system + [] == system && [] + memory == memory;
    }

    lemma KindsTextsFinal(messages: seq<Message>)
      ensures TextsFinal(messages) <==> TextsFinal(OfKind(messages, true)) && TextsFinal(OfKind(messages, false))
      ensures RolesFinal(messages) ==> RolesFinal(OfKind(messages, true)) && RolesFinal(OfKind(messages, false))
    {
      forall m
        ensures m in messages <==> m in OfKind(messages, true) || m in OfKind(messages, false)
      {
        KindMembers(messages, true, m);
        KindMembers(messages, false, m);
      }
    }

    /** The canonical messages fall into the very segments they were made of exactly when the cleaned texts are
        final. */
    lemma CanonicalMessagesKeepSegmentsExactly(messages: seq<Message>)
      requires messages != [] && RolesFinal(messages)
      ensures Segments(CanonicalMessages(messages)) == Segments(messages)
        <==> TextsFinal(messages[..|messages| - 1]) && ActiveFinal(messages[|messages| - 1])
    {
      var init, last := messages[..|messages| - 1], messages[|messages| - 1];
      var system, memory := Map(StableMessage(), OfKind(init, true)), Map(StableMessage(), OfKind(init, false));
      assert last in messages && forall m :: m in init ==> m in messages;
      CanonicalKinds(init);
      KindsTextsFinal(init);
      CleanedStayExactly(OfKind(init, true));
      CleanedStayExactly(OfKind(init, false));
      var canonical := CanonicalMessages(messages);
      assert canonical == (system + memory) + [ActiveMessage(last)];
      assert canonical[..|canonical| - 1] == system + memory;
      assert RoleFinal(last);
    }

    /** Prompt and identity depend on the segments and the canonical chunk list. */
    lemma SameSegmentsSamePrompt(modelName: string, xs: seq<Message>, ys: seq<Message>, cs: seq<Chunk>, ds: seq<Chunk>)
      requires Segments(xs) == Segments(ys) && normalizer.StableChunks(cs) == normalizer.StableChunks(ds)
      ensures AssemblePrompt(xs, cs) == AssemblePrompt(ys, ds)
      ensures RequestIdentity(modelName, xs, cs) == RequestIdentity(modelName, ys, ds)
    {}

    /** Prompts that differ only in the last message share everything up to and including the opening of the active
        turn. */
    function SharedFront(init: seq<Message>, chunks: seq<Chunk>): string {
      Front(chunks, StableMessages(init)) + "# Active Turn\n["
    }

    lemma SharedFrontTrimmed(init: seq<Message>, chunks: seq<Chunk>)
      ensures Trimmed(SharedFront(init, chunks))
    {
      assert SharedFront(init, chunks)[0] == '#';
    }

    lemma RenderedActive(last: Message)
      ensures Flatten(Map(MessageRenderer(), [ActiveMessage(last)])) == "[" + ActiveBody(last)
    {
      var active := [ActiveMessage(last)];
      assert active[1..] == [];
      assert Map(MessageRenderer(), active) == [RenderMessage(active[0])];
      assert [RenderMessage(active[0])][1..] == [];
    }

    function ActiveBody(last: Message): string {
      var m := ActiveMessage(last);
      upper(TrimSpace(m.role)) + "]\n" + TrimSpace(m.content) + "\n\n"
    }

    function StableMessages(init: seq<Message>): seq<Message> {
      Map(StableMessage(), OfKind(init, true)) + Map(StableMessage(), OfKind(init, false))
    }

    lemma AssembledParts(init: seq<Message>, last: Message, chunks: seq<Chunk>)
      ensures AssemblePrompt(init + [last], chunks)
           == TrimSpace(Front(chunks, StableMessages(init)) + ("# Active Turn\n" + ("[" + ActiveBody(last))))
    {
      var messages := init + [last];
      assert messages[..|messages| - 1] == init && messages[|messages| - 1] == last;
      RenderedActive(last);
    }

    lemma ActiveTurnOnlyChangesTail(init: seq<Message>, last: Message, chunks: seq<Chunk>)
      ensures HasPrefix(AssemblePrompt(init + [last], chunks), SharedFront(init, chunks))
    {
      AssembledParts(init, last, chunks);
      SharedFrontTrimmed(init, chunks);
      Regroup(Front(chunks, StableMessages(init)), ActiveBody(last));
      TrimKeepsFront(SharedFront(init, chunks), ActiveBody(last));
    }

    static lemma Regroup(front: string, body: string)
      ensures front + ("# Active Turn\n" + ("[" + body)) == (front + "# Active Turn\n[") + body
    {
      assert "# Active Turn\n" + ("[" + body) == "# Active Turn\n[" + body;
    }

    // ----- what a miss is blamed on -----

    /** The hash is injective and never blank. */
    ghost predicate GoodHash() {
      forall x: string, y: string {:trigger hash(x), hash(y)} :: !Blank(hash(x)) && (hash(x) == hash(y) ==> x == y)
    }

    lemma SegmentHashInjective(modelID: string, a: string, b: string)
      requires GoodHash()
      ensures SegmentHash(modelID, a) == SegmentHash(modelID, b) <==> a == b
    {
      if a != "" && b != "" && hash(modelID + "\n" + a) == hash(modelID + "\n" + b) {
        assert (modelID + "\n" + a)[|modelID| + 1..] == a;
        assert (modelID + "\n" + b)[|modelID| + 1..] == b;
      }
      HashNotBlank(modelID, a);
      HashNotBlank(modelID, b);
      TrimmedStays("");
    }

    lemma HashNotBlank(modelID: string, prompt: string)
      requires GoodHash()
      ensures Blank(SegmentHash(modelID, prompt)) <==> prompt == ""
    {
      TrimmedStays("");
      if prompt != "" {
        assert !Blank(hash(modelID + "\n" + prompt));
      }
    }

    /** What the segment prompts of the session's previous prefix and of the current one say about a miss. */
    static function Blame(previousModel: string, currentModel: string, a: Sections, b: Sections): (string, string) {
      if previousModel != currentModel then ("model_changed", "model_changed")
      else if a.stable == b.stable then ("ttl_expired", "ttl_expired")
      else if a.system != b.system then ("hash_changed", "system_changed")
      else if a.memory != b.memory then ("hash_changed", "memory_changed")
      else ("hash_changed", "rag_changed")
    }

    ghost predicate WellBuilt(s: Sections) {
      s.stable == StableOf(s.system, s.memory, s.rag)
    }

    /** The hash of a segment changes exactly when its prompt does. */
    ghost predicate HashesTell(modelID: string, a: Sections, b: Sections) {
      && (SegmentHash(modelID, a.stable) == SegmentHash(modelID, b.stable) <==> a.stable == b.stable)
      && (SegmentHash(modelID, a.system) == SegmentHash(modelID, b.system) <==> a.system == b.system)
      && (SegmentHash(modelID, a.memory) == SegmentHash(modelID, b.memory) <==> a.memory == b.memory)
      && (SegmentHash(modelID, a.rag) == SegmentHash(modelID, b.rag) <==> a.rag == b.rag)
    }

    lemma GoodHashesTell(modelID: string, a: Sections, b: Sections)
      requires GoodHash()
      ensures HashesTell(modelID, a, b)
    {
      SegmentHashInjective(modelID, a.stable, b.stable);
      SegmentHashInjective(modelID, a.system, b.system);
      SegmentHashInjective(modelID, a.memory, b.memory);
      SegmentHashInjective(modelID, a.rag, b.rag);
    }

    lemma DiagnosisFromHashes(previousModel: string, currentModel: string, a: Sections, b: Sections, namespace: string)
      requires HashesTell(currentModel, a, b) && previousModel != "" && WellBuilt(a) && WellBuilt(b)
      ensures PrefixRegistry.DiagnoseMiss(EntryOf(IdentityOf(previousModel, a), namespace),
        EntryOf(IdentityOf(currentModel, b), namespace))
           == Blame(previousModel, currentModel, a, b)
      ensures Blame(previousModel, currentModel, a, b).1 == "rag_changed" ==> a.rag != b.rag
    {}

    /** The diagnosis from hashes is the diagnosis from the prompts themselves; in particular combined_changed is never
        reported, and rag_changed means that the retrieved segment really differs. */
    lemma DiagnosisIsExact(previousModel: string, currentModel: string, a: Sections, b: Sections, namespace: string)
      requires GoodHash() && previousModel != "" && WellBuilt(a) && WellBuilt(b)
      ensures PrefixRegistry.DiagnoseMiss(EntryOf(IdentityOf(previousModel, a), namespace),
        EntryOf(IdentityOf(currentModel, b), namespace))
           == Blame(previousModel, currentModel, a, b)
      ensures Blame(previousModel, currentModel, a, b).1 == "rag_changed" ==> a.rag != b.rag
    {
      GoodHashesTell(currentModel, a, b);
      DiagnosisFromHashes(previousModel, currentModel, a, b, namespace);
    }

    /** Sections built from requests are well built and their model id is never empty. */
    lemma RequestsAreWellBuilt(modelName: string, messages: seq<Message>, chunks: seq<Chunk>)
      ensures RequestIdentity(modelName, messages, chunks).modelID != "" && WellBuilt(SectionsOf(messages, chunks))
    {}

    /** What the diagnosis reads of an entry. */
    ghost predicate Records(e: PrefixRegistry.Entry, id: Identity) {
      && e.modelID == id.modelID && e.prefixHash == id.combinedHash && e.systemHash == id.systemHash
      && e.memoryHash == id.memoryHash && e.ragHash == id.ragHash && e.normalizationVersion == NORMALIZATION
    }

    /** A registration that misses blames exactly what differs from the session's previous prefix. */
    lemma RegistrationBlamesExactly(cfg: PrefixRegistry.Config, st: PrefixRegistry.Store, now: int, scope: string,
                                    namespace: string, previous: Identity, modelID: string, b: Sections)
      requires GoodHash() && previous.modelID != "" && WellBuilt(previous.sections) && WellBuilt(b) && b.stable != ""
      requires previous == IdentityOf(previous.modelID, previous.sections)
      requires var r := PrefixRegistry.Request(EntryOf(IdentityOf(modelID, b), namespace), scope);
        var seen := PrefixRegistry.LoadStep(cfg, st, now, r);
        !seen.found && Records(seen.previous, previous) && !Blank(r.entry.prefixHash)
      ensures var r := PrefixRegistry.Request(EntryOf(IdentityOf(modelID, b), namespace), scope);
        var report := PrefixRegistry.Register(cfg, st, now, r).1;
        report.Registered? && report.result == "created"
        && (report.missReason, report.segmentReason) == Blame(previous.modelID, modelID, previous.sections, b)
    {
      var r := PrefixRegistry.Request(EntryOf(IdentityOf(modelID, b), namespace), scope);
      PrefixRegistry.MissReport(cfg, st, now, r);
      SameDiagnosis(PrefixRegistry.LoadStep(cfg, st, now, r).previous, previous, namespace, r.entry);
      DiagnosisIsExact(previous.modelID, modelID, previous.sections, b, namespace);
    }

    lemma SameDiagnosis(recorded: PrefixRegistry.Entry, previous: Identity, namespace: string,
                        current: PrefixRegistry.Entry)
      requires Records(recorded, previous)
      ensures PrefixRegistry.DiagnoseMiss(recorded, current) ==
        PrefixRegistry.DiagnoseMiss(EntryOf(previous, namespace), current)
    {}

    /** Text that sanitising and trimming leave as it is, and that is not empty. */
    predicate Fixed(text: string) {
      text != "" && Trimmed(text) && stableText(text) == text
    }

    lemma SystemAlone(text: string)
      requires Fixed(text) && stableText("") == ""
      ensures var s := BuildSections(text, "", "");
        s.system == "# Stable System\n\n" + text && s.memory == "" && s.stable == s.system
    {
      var system := "# Stable System\n\n" + text;
      TrimmedStays(text);
      TrimmedStays("");
      assert "# Stable System" + "\n\n" + text == system;
      JoinTwo("# Stable System", text);
      JoinOneLeft(system);
      JoinOneRight(system);
    }

    lemma SystemAndMemory(a: string, b: string)
      requires Fixed(a) && Fixed(b) && stableText("") == ""
      ensures var s := BuildSections(a, b, "");
        && s.system == "# Stable System\n\n" + a && s.memory == "# Conversation Memory\n\n" + b
        && s.stable == ("# Stable System\n\n" + a) + "\n\n" + ("# Conversation Memory\n\n" + b)
    {
      var system, memory := "# Stable System\n\n" + a, "# Conversation Memory\n\n" + b;
      TrimmedStays(a);
      TrimmedStays(b);
      TrimmedStays("");
      assert "# Stable System" + "\n\n" + a == system && "# Conversation Memory" + "\n\n" + b == memory;
      JoinTwo("# Stable System", a);
      JoinTwo("# Conversation Memory", b);
      JoinTwo(system, memory);
      JoinOneRight(system + "\n\n" + memory);
    }

    /** The stable prompt does not determine the segments: a system text that contains the memory heading gives the
        same stable prompt, hence the same combined hash, as the two texts apart. */
    lemma StablePromptIsAmbiguous(a: string, b: string)
      requires Fixed(a) && Fixed(b) && stableText("") == ""
      requires Fixed(a + "\n\n" + ("# Conversation Memory\n\n" + b))
      ensures var joined := BuildSections(a + "\n\n" + ("# Conversation Memory\n\n" + b), "", "");
        var apart := BuildSections(a, b, "");
        joined.stable == apart.stable && joined.memory != apart.memory
    {
      SystemAlone(a + "\n\n" + ("# Conversation Memory\n\n" + b));
      SystemAndMemory(a, b);
      Assoc("# Stable System\n\n", a + "\n\n", "# Conversation Memory\n\n" + b);
      Assoc("# Stable System\n\n", a, "\n\n");
    }
  }

  lemma JoinTwo(a: string, b: string)
    requires a != "" && b != "" && Trimmed(a) && Trimmed(b)
    ensures JoinSectionLines([a, b]) == a + "\n\n" + b
  {
    TrimmedStays(a);
    TrimmedStays(b);
    assert [a, b][1..] == [b] && [b][1..] == [];
    assert Solid([b]) == [b] + Solid([]);
    assert Solid([a, b]) == [a, b];
    assert Join([a, b], "\n\n") == a + "\n\n" + b;
    TrimmedStays(a + "\n\n" + b);
  }

  lemma JoinOneLeft(a: string)
    requires a != "" && Trimmed(a)
    ensures JoinSectionLines([a, ""]) == a
  {
    TrimmedStays(a);
    TrimmedStays("");
    assert [a, ""][1..] == [""] && [""][1..] == [];
    assert Solid([""]) == [] + Solid([]);
    assert Solid([a, ""]) == [a];
  }

  lemma JoinOneRight(a: string)
    requires a != "" && Trimmed(a)
    ensures JoinSectionLines(["", a]) == a
  {
    TrimmedStays(a);
    TrimmedStays("");
    assert ["", a][1..] == [a] && [a][1..] == [];
    assert Solid([a]) == [a] + Solid([]);
    assert Solid(["", a]) == [a];
  }

  /** Trimming keeps a front that neither starts nor ends with white space. */
  lemma TrimKeepsFront(front: string, rest: string)
    requires front != "" && Trimmed(front)
    ensures HasPrefix(TrimSpace(front + rest), front)
  {
    assert TrimLeft(front + rest) == front + rest;
    TrimRightKeepsFront(front, rest);
  }

  lemma {:induction false} TrimRightKeepsFront(front: string, rest: string)
    requires front != "" && Trimmed(front)
    ensures HasPrefix(TrimRight(front + rest), front)
    decreases |rest|
  {
    var s := front + rest;
    if rest == "" {
      assert s == front;
    } else if IsSpace(s[|s| - 1]) {
      assert s[..|s| - 1] == front + rest[..|rest| - 1];
      TrimRightKeepsFront(front, rest[..|rest| - 1]);
    }
  }
}
