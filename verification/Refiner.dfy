/** The parts put together: the pipeline with the real pager, prompter and duplicate view, and what a paged chunk's job
    can expect. */
module Refiner {
  import opened Text
  import opened Seqs
  import opened Content
  import opened PageKeys
  import opened Sorting
  import Canonical
  import Cleaning
  import TextCleaning
  import Collapse
  import Paging
  import Splitter
  import Prompt
  import Pipeline
  import opened PageSaving
  import PageOrder
  import SummaryStore
  import SummaryQueue

  datatype Refiner = Refiner(
    pager: Paging.Pager,
    prompter: Prompt.Prompter,
    shortHash: string -> string,
    squeeze: string -> string,
    compact: string -> string,
    sanitize: string -> string,
    preprocess: Chunk -> Chunk,
    transform: Pipeline.Name -> string -> string,
    metadataAfter: (Pipeline.Name, Pipeline.Request) -> map<string, string>,
    storeFails: (Pipeline.Name, Pipeline.Request) -> bool)
  {
    // ----- one chunk -----

    function JoinSources(chunk: Chunk): seq<string> {
      prompter.normalizer.StableSources(chunk.sources, chunk.source)
    }

    /** The text that page keys and jobs hash: the chunk's own text once it is canonical. */
    function CanonicalText(chunk: Chunk): string {
      ChunkText(prompter.normalizer.NormalizeChunk(chunk))
    }

    function ContentHash(chunk: Chunk): string {
      shortHash(CanonicalText(chunk))
    }

    function PageRef(chunk: Chunk, index: nat): string {
      PageKey(prompter.lower, JoinSources(chunk), ContentHash(chunk), index)
    }

    /** The key of a page, by its number. */
    function KeyOf(chunk: Chunk): nat -> string {
      (index: nat) => PageRef(chunk, index)
    }

    /** A chunk over the limit keeps its first page and the keys of all of its pages. */
    function PageOut(chunk: Chunk): Chunk {
      var pages := pager.Pages(chunk.fragments);
      chunk.(fragments := pages[0], pageRefs := PageRefs(KeyOf(chunk), 0, |pages|))
    }

    /** The job that asynchronous compaction enqueues for a chunk. */
    function JobOf(chunk: Chunk): SummaryQueue.Job {
      var stable := prompter.normalizer.NormalizeChunk(chunk);
      SummaryQueue.Job("summary-" + ContentHash(chunk), stable.id, Join(JoinSources(stable), ","), ContentHash(chunk),
                       stable.pageRefs, stable.fragments, ChunkText(stable))
    }

    // ----- the whole pipeline -----

    function View(): Collapse.View {
      Collapse.View((chunk: Chunk) => squeeze(ChunkText(chunk)), (chunk: Chunk) => JoinSources(chunk))
    }

    function Collapsed(chunks: seq<Chunk>): seq<Chunk> {
      var texts := View().Texts(chunks);
      seq(|texts|, i requires 0 <= i < |texts| => View().Kept(chunks, texts[i]))
    }

    function Resourced(): Chunk -> Chunk {
      (chunk: Chunk) => chunk.(sources := JoinSources(chunk))
    }

    function CanonicalChunks(chunks: seq<Chunk>): seq<Chunk> {
      Map(Resourced(), prompter.normalizer.StableChunks(Map(preprocess, chunks)))
    }

    function Wired(): Pipeline.Env {
      Pipeline.Env(
        pager.tokenizer,
        (messages, chunks) => prompter.AssemblePrompt(messages, chunks),
        pager.limit,
        chunk => PageOut(chunk),
        chunks => Collapsed(chunks),
        squeeze,
        compact,
        sanitize,
        role => prompter.lower(TrimSpace(role)) == "system",
        messages => prompter.CanonicalMessages(messages),
        chunks => CanonicalChunks(chunks),
        transform,
        metadataAfter,
        chunk => JobOf(chunk).jobID,
        storeFails)
    }

    lemma PromptsAreTrimmed()
      ensures Wired().AssemblesTrimmed()
    {
      forall messages, chunks
        ensures Trimmed(Wired().assemble(messages, chunks))
      {
        prompter.AssembledIsTrimmed(messages, chunks);
      }
    }

    /** Whatever the cleaners, transforms and stores do, and whatever steps a policy lists, the response is truthful
        exactly when the caller left the count at zero or cached the right one. */
    lemma ResponsesAreTruthfulExactly(steps: seq<Pipeline.Name>, first: Pipeline.Request)
      requires Wired().Steps(steps, Wired().Started(first)).Ok?
      ensures Wired().Truthful(first, Wired().Finished(Wired().Steps(steps, Wired().Started(first)).value))
        <==> first.currentTokens == 0 || Wired().Counted(first)
    {
      PromptsAreTrimmed();
      Wired().RunIsTruthfulExactly(steps, first);
    }

    // ----- the canonicalize step -----

    /** The step's own pass over the sources is absorbed by the next normalisation. */
    lemma ResourcingIsAbsorbed(chunks: seq<Chunk>)
      requires prompter.normalizer.OwnLabelsAll(chunks)
      ensures var n := prompter.normalizer;
        n.Normalized(Map(Resourced(), n.StableChunks(chunks))) == n.Normalized(n.StableChunks(chunks))
    {
      var n := prompter.normalizer;
      var stable := n.StableChunks(chunks);
      var resourced := Map(Resourced(), stable);
      MapAt(Resourced(), stable);
      MapAt(n.ChunkNormalizer(), stable);
      MapAt(n.ChunkNormalizer(), resourced);
      forall i | 0 <= i < |stable|
        ensures n.Normalized(resourced)[i] == n.Normalized(stable)[i]
      {
        n.StableMember(chunks, stable[i]);
        var chunk :| chunk in chunks && stable[i] == n.NormalizeChunk(chunk);
        n.ResourcingIsAbsorbed(chunk);
      }
    }

    lemma CanonicalizeStep(r: Pipeline.Request)
      ensures var q := Wired().Rewritten(Pipeline.Canonicalize, r);
        q.messages == prompter.CanonicalMessages(r.messages) && q.chunks == CanonicalChunks(r.chunks)
    {
      Wired().CanonicalizeRewrites(r);
    }

    lemma CanonicalListsAgree(chunks: seq<Chunk>)
      requires prompter.normalizer.OwnLabelsAll(Map(preprocess, chunks))
      ensures var n := prompter.normalizer;
        n.StableChunks(CanonicalChunks(chunks)) == n.StableChunks(n.StableChunks(Map(preprocess, chunks)))
    {
      ResourcingIsAbsorbed(Map(preprocess, chunks));
    }

    /** The parts work with the cleaners of the RAG normaliser and the profiles of the text sanitiser. */
    ghost predicate CleansWith(c: Cleaning.Cleaner) {
      && prompter.normalizer == c.Normalizer() && prompter.lower == c.lower
      && (forall text: string :: prompter.stableText(text) == TextCleaning.StableText(c.mask, text))
      && (forall text: string :: prompter.activeText(text) == TextCleaning.ActiveText(text))
    }

    /** The messages in front of the last have final texts. */
    ghost predicate StableTextsFinal(messages: seq<Message>) {
      messages != [] ==> prompter.TextsFinal(messages[..|messages| - 1])
    }

    lemma SegmentsStay(c: Cleaning.Cleaner, messages: seq<Message>)
      requires CleansWith(c) && prompter.RolesFinal(messages)
      ensures prompter.Segments(prompter.CanonicalMessages(messages)) == prompter.Segments(messages) <==>
        StableTextsFinal(messages)
    {
      if messages != [] {
        var last := messages[|messages| - 1];
        TextCleaning.ActiveTextTwice(last.content);
        assert prompter.ActiveFinal(last);
        prompter.CanonicalMessagesKeepSegmentsExactly(messages);
      }
    }

    /** What the canonicalize step leaves as it is. Messages: their segments, exactly when the texts in front of the
        last are final. Chunks: their canonical list, exactly when every preprocessed chunk is final. */
    lemma CanonicalizeStepStaysExactly(c: Cleaning.Cleaner, r: Pipeline.Request)
      requires CleansWith(c) && prompter.RolesFinal(r.messages)
      requires forall chunk :: chunk in Map(preprocess, r.chunks) ==> c.Settles(chunk)
      ensures var n, q, chunks := prompter.normalizer, Wired().Rewritten(Pipeline.Canonicalize, r),
        Map(preprocess, r.chunks);
        && (prompter.Segments(q.messages) == prompter.Segments(r.messages) <==> StableTextsFinal(r.messages))
        && n.StableChunks(q.chunks) == n.StableChunks(n.StableChunks(chunks))
        && (n.StableChunks(q.chunks) == n.StableChunks(chunks) <==>
          forall chunk :: chunk in chunks ==> c.ChunkFinal(chunk))
    {
      var chunks := Map(preprocess, r.chunks);
      CanonicalizeStep(r);
      SegmentsStay(c, r.messages);
      forall chunk | chunk in chunks
        ensures prompter.normalizer.OwnLabels(chunk.sources, chunk.source)
      {
        c.OwnLabels(chunk);
      }
      CanonicalListsAgree(r.chunks);
      c.StableChunksStayExactly(chunks);
    }

    /** With final texts and chunks the step changes neither the prompt that is assembled nor the identity it is cached
        under. */
    lemma CanonicalizeStepKeepsPrompt(c: Cleaning.Cleaner, modelName: string, r: Pipeline.Request)
      requires CleansWith(c) && prompter.RolesFinal(r.messages) && StableTextsFinal(r.messages)
      requires forall chunk :: chunk in Map(preprocess, r.chunks) ==> c.Settles(chunk) && c.ChunkFinal(chunk)
      ensures var q, chunks := Wired().Rewritten(Pipeline.Canonicalize, r), Map(preprocess, r.chunks);
        && prompter.AssemblePrompt(q.messages, q.chunks) == prompter.AssemblePrompt(r.messages, chunks)
        && prompter.RequestIdentity(modelName, q.messages, q.chunks) ==
          prompter.RequestIdentity(modelName, r.messages, chunks)
    {
      var q := Wired().Rewritten(Pipeline.Canonicalize, r);
      CanonicalizeStepStaysExactly(c, r);
      prompter.SameSegmentsSamePrompt(modelName, q.messages, r.messages, q.chunks, Map(preprocess, r.chunks));
    }

    // ----- paging out into the store -----

    /** What paging saves for one chunk. */
    function WritesOf(chunk: Chunk): seq<(string, string)> {
      if OverLimit(chunk) then PageWrites(KeyOf(chunk), 0, Texts(chunk)) else []
    }

    /** What paging saves for all chunks, in order. */
    function Writes(chunks: seq<Chunk>): seq<(string, string)> {
      if chunks == [] then [] else WritesOf(chunks[0]) + Writes(chunks[1..])
    }

    predicate OverLimit(chunk: Chunk) {
      pager.tokenizer.CountText(ChunkText(chunk)) > pager.limit
    }

    /** A chunk after its turn in PagingProcessor.Process. */
    function Turned(): Chunk -> Chunk {
      (chunk: Chunk) => if OverLimit(chunk) then PageOut(chunk) else chunk
    }

    /** The paging step of the pipeline value is that chunk after chunk. */
    lemma {:induction false} PagedIsTurned(env: Pipeline.Env, chunks: seq<Chunk>)
      requires env.tokenizer == pager.tokenizer && env.pageLimit == pager.limit
      requires forall chunk :: env.pageOut(chunk) == PageOut(chunk)
      ensures env.Paged(chunks) == Map(Turned(), chunks)
    {
      if chunks != [] {
        PagedIsTurned(env, chunks[1..]);
      }
    }

    lemma WiredPages(chunks: seq<Chunk>)
      ensures Wired().Paged(chunks) == Map(Turned(), chunks)
    {
      PagedIsTurned(Wired(), chunks);
    }

    method PageOutOne(store: SummaryStore.PageStore, now: SummaryStore.Time, chunk: Chunk) returns (out: Chunk)
      modifies store`pages
      ensures out == Turned()(chunk)
      ensures store.pages == WriteAll(old(store.pages), WritesOf(chunk), now, store.clerk.pageTTL)
    {
      out := chunk;
      if OverLimit(chunk) {
        var pages := pager.PaginateChunk(chunk.fragments);
        var refs := SavePages(store, now, KeyOf(chunk), PageTexts(pages));
        out := chunk.(fragments := pages[0], pageRefs := refs);
      }
    }

    /** PagingProcessor.Process on the chunks: the paging step of the pipeline, and its row of writes in the store. */
    method PageOutChunks(store: SummaryStore.PageStore, now: SummaryStore.Time, chunks: seq<Chunk>)
      returns (out: seq<Chunk>)
      modifies store`pages
      ensures out == Wired().Paged(chunks)
      ensures store.pages == WriteAll(old(store.pages), Writes(chunks), now, store.clerk.pageTTL)
    {
      out := PageOutEach(store, now, chunks);
      WiredPages(chunks);
    }

    /** Its chunk loop. */
    method PageOutEach(store: SummaryStore.PageStore, now: SummaryStore.Time, chunks: seq<Chunk>)
      returns (out: seq<Chunk>)
      modifies store`pages
      ensures out == Map(Turned(), chunks)
      ensures store.pages == WriteAll(old(store.pages), Writes(chunks), now, store.clerk.pageTTL)
    {
      out := [];
      var todo := chunks;
      while |todo| > 0
        invariant out + Map(Turned(), todo) == Map(Turned(), chunks)
        invariant WriteAll(store.pages, Writes(todo), now, store.clerk.pageTTL)
               == WriteAll(old(store.pages), Writes(chunks), now, store.clerk.pageTTL)
      {
        WriteAllAppend(store.pages, WritesOf(todo[0]), Writes(todo[1..]), now, store.clerk.pageTTL);
        var chunk := PageOutOne(store, now, todo[0]);
        Shift(out, Map(Turned(), todo));
        out := out + [chunk];
        todo := todo[1..];
      }
    }

    lemma OwnKeys(chunk: Chunk)
      ensures Numbered(KeyOf(chunk))
    {
      forall m: nat, n: nat | m != n
        ensures KeyOf(chunk)(m) != KeyOf(chunk)(n)
      {
        KeysDiffer(prompter.lower, JoinSources(chunk), ContentHash(chunk), m, n);
      }
    }

    /** The texts of the pages of a chunk. */
    function Texts(chunk: Chunk): seq<string> {
      PageTexts(pager.Pages(chunk.fragments))
    }

    /** While its pages live, a reference of a chunk that is paged out always resolves. It does so to the text of its
        own page exactly when the summary served under its key is that text, or, without a summary, its key was free or
        already held that text: the first content of a key stays, whatever is saved later. */
    lemma PagedChunkReadsBackExactly(chunk: Chunk, pages: Pages, now: SummaryStore.Time, later: seq<Save>,
                                     reader: Reader, i: nat)
      requires reader.InTime(now, later) && OverLimit(chunk) && i < |pager.Pages(chunk.fragments)|
      ensures |PageOut(chunk).pageRefs| == |Texts(chunk)|
      ensures var ref, after := PageOut(chunk).pageRefs[i], reader.AfterOne(pages, WritesOf(chunk), now, later);
        && reader.clerk.Answer(after, reader.summaries, ref, reader.at).Resolved?
        && (reader.Gets(after, ref, Texts(chunk)[i]) <==> reader.ClearAlone(pages, ref, Texts(chunk)[i], now))
    {
      OwnKeys(chunk);
      assert DiffersFrom(KeyOf(chunk), i + 1);
      reader.AloneReadsBackExactly(pages, KeyOf(chunk), Texts(chunk), now, later, i);
    }

    lemma WritesHead(chunks: seq<Chunk>)
      requires chunks != []
      ensures Writes(chunks) == WritesOf(chunks[0]) + Writes(chunks[1..])
    {}

    lemma {:induction false} WritesAppend(a: seq<Chunk>, b: seq<Chunk>)
      ensures Writes(a + b) == Writes(a) + Writes(b)
    {
      if a == [] {
        assert a + b == b;
      } else {
        assert (a + b)[0] == a[0] && (a + b)[1..] == a[1..] + b;
        WritesAppend(a[1..], b);
        WritesHead(a + b);
        WritesHead(a);
        Assoc(WritesOf(a[0]), Writes(a[1..]), Writes(b));
      }
    }

    lemma WritesAround(chunks: seq<Chunk>, n: nat)
      requires n < |chunks|
      ensures Writes(chunks) == Writes(chunks[..n]) + (WritesOf(chunks[n]) + Writes(chunks[n + 1..]))
    {
      assert chunks == chunks[..n] + chunks[n..];
      WritesAppend(chunks[..n], chunks[n..]);
      assert chunks[n..][1..] == chunks[n + 1..];
    }

    /** After a whole paging step, and whatever is saved later, a paged chunk reads back, page by page, exactly when
        under each of its keys the summary served is the page's text, or none is served and neither the store before
        the step nor an earlier chunk brought another text. */
    lemma PagedChunksReadBackExactly(chunks: seq<Chunk>, pages: Pages, now: SummaryStore.Time, later: seq<Save>,
                                     reader: Reader, n: nat)
      requires reader.InTime(now, later) && n < |chunks| && OverLimit(chunks[n])
      ensures var chunk, after := chunks[n], reader.AfterOne(pages, Writes(chunks), now, later);
        reader.ReadsBack(after, PageOut(chunk).pageRefs, Texts(chunk))
        <==> reader.AllClear(pages, Writes(chunks[..n]), KeyOf(chunk), Texts(chunk), now)
    {
      var chunk := chunks[n];
      OwnKeys(chunk);
      WritesAround(chunks, n);
      reader.ReadsBackExactly(pages, Writes(chunks[..n]), KeyOf(chunk), Texts(chunk), Writes(chunks[n + 1..]), now,
        later);
    }

    /** Case folding leaves the page keys of a chunk alone. */
    ghost predicate FoldedKeys(chunk: Chunk) {
      forall index: nat :: KeyFolded(chunk, index)
    }

    predicate KeyFolded(chunk: Chunk, index: nat) {
      prompter.normalizer.lower(PageRef(chunk, index)) == PageRef(chunk, index)
    }

    function KeyFront(chunk: Chunk): string {
      var sourceKey := StableArtifactKey(prompter.lower, JoinSources(chunk));
      "artifact:v1:rag:sources:" + (if sourceKey == "" then "unknown" else sourceKey)
        + ":hash:" + ContentHash(chunk) + ":page:"
    }

    lemma KeysArePlain(chunk: Chunk)
      requires FoldedKeys(chunk)
      ensures PageOrder.PlainKeys(prompter.normalizer.lower, KeyFront(chunk), KeyOf(chunk))
    {
      forall index: nat
        ensures PageOrder.PlainKey(prompter.normalizer.lower, KeyFront(chunk), KeyOf(chunk), index)
      {
        assert KeyFolded(chunk, index);
        PageKeyTrimmed(prompter.lower, JoinSources(chunk), ContentHash(chunk), index);
      }
    }

    /** The canonical form of a chunk that was paged out names the same pages, in page order exactly when there are at
        most nine: references are sorted as strings, and page 10 comes before page 2. */
    lemma PageOrderStaysExactly(chunk: Chunk)
      requires FoldedKeys(chunk)
      ensures var refs, canonical := PageOut(chunk).pageRefs,
        prompter.normalizer.NormalizeChunk(PageOut(chunk)).pageRefs;
        multiset(canonical) == multiset(refs) && (canonical == refs <==> |pager.Pages(chunk.fragments)| <= 9)
    {
      KeysArePlain(chunk);
      PageOrder.RefsStayExactly(prompter.normalizer.lower, KeyFront(chunk), KeyOf(chunk),
        |pager.Pages(chunk.fragments)|);
    }

    /** Page texts that read back, and are distinct, read back in the order of the canonical references exactly when
        there are at most nine. */
    lemma CanonicalRefsReadBackExactly(chunk: Chunk, pages: Pages, reader: Reader)
      requires FoldedKeys(chunk) && PageOrder.Distinct(Texts(chunk))
      requires reader.ReadsBack(pages, PageOut(chunk).pageRefs, Texts(chunk))
      ensures reader.ReadsBack(pages, prompter.normalizer.NormalizeChunk(PageOut(chunk)).pageRefs, Texts(chunk))
        <==> |Texts(chunk)| <= 9
    {
      PageOrderStaysExactly(chunk);
      PageOrder.OnlyInOrder(reader, pages, PageOut(chunk).pageRefs,
        prompter.normalizer.NormalizeChunk(PageOut(chunk)).pageRefs, Texts(chunk));
    }

    /** Of two chunks that share the key of a page, the second one's reference serves the first one's text. */
    lemma SharedKeyServesFirst(a: Chunk, b: Chunk, pages: Pages, now: SummaryStore.Time, ttl: int, i: nat)
      requires ttl > 0 && OverLimit(a) && OverLimit(b) && i < |Texts(a)| && i < |Texts(b)|
      requires PageRef(a, i + 1) == PageRef(b, i + 1) && !Live(pages, PageRef(a, i + 1), now)
      ensures var refs := PageOut(b).pageRefs;
        i < |refs| && Holds(WriteAll(pages, WritesOf(a) + WritesOf(b), now, ttl), refs[i], Texts(a)[i], now)
    {
      OwnKeys(a);
      assert DiffersFrom(KeyOf(a), i + 1);
      FirstWriteOf(KeyOf(a), 0, Texts(a), i);
      RefsAt(KeyOf(b), 0, Texts(b), i);
      FirstTextAppend(WritesOf(a), WritesOf(b), PageRef(a, i + 1));
      WriteAllHolds(pages, WritesOf(a) + WritesOf(b), now, ttl, PageRef(a, i + 1));
    }

    // ----- page keys against job hashes -----

    /** The hash of both texts is hexadecimal and not empty, and tells them apart. */
    ghost predicate Tells(a: string, b: string) {
      && Hex(shortHash(a)) && shortHash(a) != ""
      && Hex(shortHash(b)) && shortHash(b) != ""
      && (shortHash(a) == shortHash(b) ==> a == b)
    }

    lemma {:induction false} RefsCarryHash(chunk: Chunk, from: nat, pages: nat)
      requires ':' !in ContentHash(chunk) && "hash" !in KeyParts(prompter.lower, JoinSources(chunk))
      ensures var refs := PageRefs(KeyOf(chunk), from, pages);
        (forall ref :: ref in refs ==> Trimmed(ref) && HashFromKey(ref) == ContentHash(chunk)) &&
          (from < pages ==> refs != [])
      decreases pages - from
    {
      if from < pages {
        PageKeyTrimmed(prompter.lower, JoinSources(chunk), ContentHash(chunk), from + 1);
        PageKeyRoundTrip(prompter.lower, JoinSources(chunk), ContentHash(chunk), from + 1);
        RefsCarryHash(chunk, from + 1, pages);
      }
    }

    /** The references of the job are page keys of the chunk, and there is one at least. */
    lemma JobRefs(chunk: Chunk)
      requires ':' !in ContentHash(chunk) && "hash" !in KeyParts(prompter.lower, JoinSources(chunk))
      ensures var refs := JobOf(PageOut(chunk)).pageRefs;
        refs != [] && forall ref :: ref in refs ==> HashFromKey(ref) == ContentHash(chunk)
    {
      var refs := PageOut(chunk).pageRefs;
      var trim := (ref: string) => TrimSpace(ref);
      RefsCarryHash(chunk, 0, |pager.Pages(chunk.fragments)|);
      LabelsOfTrimmed(prompter.normalizer.lower, trim, refs);
      assert trim(refs[0]) != "";
    }

    /** The job of a chunk that has just been paged out can be acknowledged exactly when there is something to say
        about it and the canonical text of its first page is that of the whole chunk: the page keys hash the whole
        chunk, the job hashes what is left of it. */
    lemma PagedJobAcknowledgeableExactly(clerk: SummaryStore.Clerk, writer: SummaryQueue.Writer, chunk: Chunk)
      requires Tells(CanonicalText(chunk), CanonicalText(PageOut(chunk)))
      requires "hash" !in KeyParts(prompter.lower, JoinSources(chunk))
      ensures SummaryQueue.Acknowledgeable(clerk, writer, JobOf(PageOut(chunk)))
        <==> CanonicalText(PageOut(chunk)) == CanonicalText(chunk) && writer.Speaks(JobOf(PageOut(chunk)))
    {
      var job := JobOf(PageOut(chunk));
      HexStays(ContentHash(chunk));
      HexStays(job.contentHash);
      JobRefs(chunk);
      SummaryQueue.AcknowledgeableExactly(clerk, writer, job);
      assert job.pageRefs[0] in job.pageRefs;
      if CanonicalText(PageOut(chunk)) != CanonicalText(chunk) {
        assert !SummaryQueue.RefAgrees(job, job.pageRefs[0]);
      }
    }

    // ----- a chunk of more than one page -----

    /** Cleaning these fragments moves white space at most. */
    ghost predicate KeepsRunes(fragments: seq<Fragment>) {
      forall f :: f in fragments ==>
        var cleaned := prompter.normalizer.fragment(f);
        cleaned.kind == f.kind && Erase(cleaned.content) == Erase(f.content)
    }

    lemma {:induction false} CleanedRunes(fragments: seq<Fragment>)
      requires KeepsRunes(fragments) && AllUndecorated(fragments)
      ensures AllUndecorated(prompter.normalizer.NormalizeFragments(fragments))
      ensures EraseAll(Contents(prompter.normalizer.NormalizeFragments(fragments))) == EraseAll(Contents(fragments))
    {
      if fragments != [] {
        assert forall f :: f in fragments[1..] ==> f in fragments;
        CleanedRunes(fragments[1..]);
        assert fragments[0] in fragments;
      }
    }

    /** White space aside, the canonical text of undecorated fragments spells their contents. */
    lemma CanonicalRunes(chunk: Chunk)
      requires KeepsRunes(chunk.fragments) && AllUndecorated(chunk.fragments)
      ensures Erase(CanonicalText(chunk)) == EraseAll(Contents(chunk.fragments))
    {
      CleanedRunes(chunk.fragments);
      RenderedRunes(prompter.normalizer.NormalizeFragments(chunk.fragments));
    }

    /** The first page of an undecorated chunk is undecorated, and spells less than the chunk when there are more
        pages. */
    lemma FirstPageSpellsLess(fragments: seq<Fragment>)
      requires AllUndecorated(fragments) && |pager.Pages(fragments)| > 1
      requires pager.limit > 0 && forall f :: f in fragments ==> pager.Budget().RunesFit(Erase(f.content))
      ensures AllUndecorated(pager.Pages(fragments)[0])
      ensures EraseAll(Contents(pager.Pages(fragments)[0])) != EraseAll(Contents(fragments))
    {
      var pages := pager.Pages(fragments);
      var later := Flatten(pages[1..]);
      pager.AllPartsFit(fragments);
      pager.LaterPagesSpeak(pager.AllParts(fragments), []);
      pager.PagesReadBack(fragments);
      PartsUndecorated(fragments);
      assert Flatten(pages) == pages[0] + later;
      assert forall part :: part in pages[0] ==> part in pager.AllParts(fragments);
      ContentsAppend(pages[0], later);
      EraseAllAppend(Contents(pages[0]), Contents(later));
    }

    lemma {:induction false} PartsUndecorated(fragments: seq<Fragment>)
      requires AllUndecorated(fragments)
      ensures AllUndecorated(pager.AllParts(fragments))
    {
      if fragments != [] {
        assert fragments[0] in fragments;
        Splitter.SplitFragmentKeeps(pager.Budget(), fragments[0]);
        PartsUndecorated(fragments[1..]);
      }
    }

    /** When cleaning keeps the runes of a chunk and of its first page, the job of a chunk of more than one page of
        bare content is never acknowledged. */
    lemma SeveralPagesNeverAcknowledged(clerk: SummaryStore.Clerk, writer: SummaryQueue.Writer, chunk: Chunk)
      requires AllUndecorated(chunk.fragments) && |pager.Pages(chunk.fragments)| > 1
      requires KeepsRunes(chunk.fragments) && KeepsRunes(pager.Pages(chunk.fragments)[0])
      requires pager.limit > 0 && forall f :: f in chunk.fragments ==> pager.Budget().RunesFit(Erase(f.content))
      requires Tells(CanonicalText(chunk), CanonicalText(PageOut(chunk)))
      requires "hash" !in KeyParts(prompter.lower, JoinSources(chunk))
      ensures !SummaryQueue.Acknowledgeable(clerk, writer, JobOf(PageOut(chunk)))
    {
      FirstPageSpellsLess(chunk.fragments);
      CanonicalRunes(chunk);
      CanonicalRunes(PageOut(chunk));
      PagedJobAcknowledgeableExactly(clerk, writer, chunk);
    }
  }

  ghost predicate AllUndecorated(fragments: seq<Fragment>) {
    forall f :: f in fragments ==> Undecorated(f.kind)
  }

  lemma {:induction false} RenderedErase(fragments: seq<Fragment>)
    requires AllUndecorated(fragments)
    ensures EraseAll(RenderedParts(fragments)) == EraseAll(Contents(fragments))
  {
    if fragments != [] {
      var f := fragments[0];
      assert f in fragments;
      RenderedErase(fragments[1..]);
      EraseTrim(f.content);
      EraseTrim(FragmentText(f));
      assert FragmentText(f) == TrimSpace(f.content);
      EraseAllAppend(if Blank(FragmentText(f)) then [] else [FragmentText(f)], RenderedParts(fragments[1..]));
      EraseAllOne(FragmentText(f));
    }
  }

  lemma RenderedRunes(fragments: seq<Fragment>)
    requires AllUndecorated(fragments)
    ensures Erase(FragmentsText(fragments)) == EraseAll(Contents(fragments))
  {
    RenderedErase(fragments);
    EraseSpaces("\n\n");
    EraseJoin(RenderedParts(fragments), "\n\n");
    EraseTrim(Join(RenderedParts(fragments), "\n\n"));
  }

  lemma HexStays(hash: string)
    requires Hex(hash) && hash != ""
    ensures ':' !in hash && TrimSpace(hash) == hash && !Blank(hash)
  {
    assert hash[0] in hash && hash[|hash| - 1] in hash;
    TrimmedStays(hash);
  }

  lemma PageKeyTrimmed(lower: string -> string, sources: seq<string>, hash: string, index: nat)
    ensures Trimmed(PageKey(lower, sources, hash, index))
  {
    var key, digits := PageKey(lower, sources, hash, index), Digits(index);
    assert key[|key| - 1] == digits[|digits| - 1];
    assert key[0] == 'a';
  }

  /** A label list made of trimmed values lists some of them, and none only if they are all empty. */
  lemma LabelsOfTrimmed(lower: string -> string, trim: string -> string, values: seq<string>)
    requires forall v :: v in values ==> trim(v) == v
    ensures var labels := Canonical.Normalizer.SortedLabels(lower, trim, values);
      && (forall l :: l in labels ==> l in values)
      && (labels == [] <==> forall i :: 0 <= i < |values| ==> trim(values[i]) == "")
  {
    var first := Canonical.Normalizer.FirstLabels(lower, trim, values, {});
    var labels := Canonical.Normalizer.SortedLabels(lower, trim, values);
    FirstAmong(lower, trim, values, {});
    Canonical.Normalizer.NoLabels(lower, trim, values);
    SortKeeps(first, Canonical.LabelKey(lower));
    forall l | l in labels
      ensures l in values
    {
      assert l in multiset(labels) && l in multiset(first);
    }
    assert |multiset(labels)| == |labels| && |multiset(first)| == |first|;
  }

  lemma {:induction false} FirstAmong(lower: string -> string, trim: string -> string, values: seq<string>,
                                      seen: set<string>)
    requires forall v :: v in values ==> trim(v) == v
    ensures forall l :: l in Canonical.Normalizer.FirstLabels(lower, trim, values, seen) ==> l in values
  {
    if values != [] {
      FirstAmong(lower, trim, values[1..], seen);
      FirstAmong(lower, trim, values[1..], seen + {lower(trim(values[0]))});
    }
  }
}
