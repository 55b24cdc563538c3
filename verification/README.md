# Context Refiner, verified

Context Refiner takes chat messages and retrieved chunks and makes one prompt of them under a token budget. It splits and
pages large chunks, drops duplicates, cleans and trims content, puts the stable part of the prompt first so that it can be
cached, and keeps pages, summaries and a registry of prompt prefixes in Redis. This project models that logic in Dafny and
proves what each part promises.

| file | what it models |
|---|---|
| `Text.dfy`, `Seqs.dfy`, `Options.dfy`, `Sorting.dfy` | Go's string functions, sequence lemmas, optional values, stable sorting and what determines its result |
| `Content.dfy` | messages, fragments, chunks, their rendering and their token counts |
| `LineDiff.dfy` | the line diff of the console: the table, the walk, and why the script is a shortest one |
| `Splitter.dfy`, `Packing.dfy`, `Paging.dfy` | splitting text under a token budget, what its packing means, and greedy paging |
| `Segmentation.dfy` | cutting a body into titles, paragraphs and boilerplate |
| `TextCleaning.dfy`, `Canonical.dfy`, `Cleaning.dfy` | the cleaning of code, text and labels; canonical source and chunk lists, for any cleaners and with those of the program |
| `PageKeys.dfy`, `PageOrder.dfy` | content-addressed page keys; the order that sorting gives them |
| `Collapse.dfy` | merging duplicate chunks and their citations |
| `Prompt.dfy`, `PromptText.dfy`, `StablePrompt.dfy` | message segments, the assembled prompt, the prefix identity; what the prompt holds; when the stable prompt tells its segments |
| `PrefixRegistry.dfy`, `RegistryRuns.dfy`, `MissBlame.dfy`, `PrefixScope.dfy` | prefix registrations under a clock, and as interleaved load and write steps; what hits, hot scores and the misses of a run come from; namespaces and session scopes |
| `SummaryStore.dfy`, `SummaryQueue.dfy`, `SummaryDelivery.dfy` | pages and summary artifacts; the summary stream with its consumer group and workers; what its runs leave in the store |
| `Compaction.dfy` | safe compaction of log-like text, and when doing it twice is doing it once |
| `Pipeline.dfy`, `PipelineRuns.dfy`, `RequestHeap.dfy` | the pipeline on values; which steps of a run take their turn; the pipeline on records with arrays written in place |
| `PageSaving.dfy`, `Refiner.dfy` | pages saved under numbered keys and read back; all parts put together |
| `Witnesses.dfy` | concrete inputs that fail where a promise holds only under a condition |
| `SpanDepth.dfy` | the memoised depth of trace spans |

Code that updates things step by step is modelled by classes and by methods with loops, each proved against a
specification function; the laws are lemmas about those functions. Token counter, case folding, hashing,
URL and JSON reading, identifier masking, the HTML sanitiser and the content transforms are parameters: a claim that needs
something of them says so in its `requires`.

## What the proofs say about the code

Where the unrestricted promise is false, the exact condition is proved, for all inputs.

- The split budget is met exactly when every rune that is not white space fits on its own (for a monotone counter; without
  monotonicity the condition is still sufficient), and so is the page limit for kinds that are rendered as their bare
  content, next to fragments of any kind that fit whole. A decorated fragment that must be split can break the page limit,
  because the split measures its bare content and the page its rendering.
- Packing is greedy: the parts of a text are the groups, joined with the separator, of the only grouping of its units in
  which every group fits and is closed to the next unit. For a monotone counter and units that fit, no grouping within the
  budget is smaller.
- The prompt holds every canonical chunk, every message before the last and the last message, each once, behind its
  heading and in order; white space aside, nothing else.
- A run takes exactly the steps that are due at their turn, in list order, and its audits name just these. A step that is
  neither aggressive, nor triggered by a count, nor for structured chunks is always due, within budget too. A run fails
  exactly when the processor of a due step does.
- A response tells the truth about its token counts exactly when the caller left the cached count at zero or cached the
  right one. A stale count is believed.
- Safe compaction keeps exactly the first line, every line that is not blank and differs from the line above it, and every
  blank line below one that is not, all trimmed on their right.
- `safeCompactContent` is idempotent on lines. On text it is exactly when, among the lines that are left once the outer
  blank lines are gone and both ends are trimmed, neither the first nor the last repeats its neighbour. A leading blank and
  a trailing carriage return are the two ways to fail.
- While its pages live, the reference of a paged chunk resolves to its own page exactly when the summary served under its key
  is that very text or, where none is served, its key was free or already held that text. A valid summary is served before
  the page. Keys hash the canonical text and the store keeps the first page text, so two chunks that differ in a masked
  identifier share keys, and the second one's pages are not stored.
- Canonical page references are in page order exactly for at most nine pages: they are sorted as strings, and page 10 comes
  before page 2.
- A canonical chunk list is a fixed point exactly when, in every chunk, the source list was settled, the labels that a first
  pass leaves are final, and every fragment is. A list of nothing but blank sources, with a usable fallback, is not settled:
  it takes a second pass to fall back. A code fragment is final exactly when no line of its cleaned text but the last ends
  in a carriage return: a pass turns `\r\n` into `\n`, so `a\r\r\nb` becomes `a\r\nb`, and `a\nb` only in the next pass.
  What the canonicalize step does to the prompt is settled by the same conditions.
- Page keys give their hash back exactly when no sanitised source is the word `hash`.
- A sequential run never reports `ttl_expired` exactly when the hot TTL is not the shorter one, or every entry is hot from
  the start; this is for scopes that keep to one namespace. A scope is its namespace, a bar and the session, and it belongs
  to one namespace exactly when no namespace goes on, behind a bar, with the front of another one's session. Bar-free
  sessions, or bar-free tenants, policies and models, are enough; with bars in a tenant and a session, a prefix that is new
  under its namespace is reported as expired.
- The hot score keeps up with the hit count exactly when the two TTLs agree, or every entry is hot from the start.
- A summary job can be acknowledged exactly when its content hash agrees with all of its page keys and there is something to
  say about it. The job of a chunk that has just been paged out meets the first of these exactly when the first page has the
  canonical text of the whole chunk: the page keys hash the whole chunk, the job hashes what is left. Where cleaning keeps
  the runes of the chunk and of its first page, and the kinds are rendered as their bare content, a chunk of more than one
  page never does.
- After every run the summary store holds, under exactly the references that were written, the last write for each, and
  every write is a summary of a message whose job carries the reference. Readers of an acknowledged job's pages get that
  text exactly while the slot and the artifact last. No delivered job is forgotten: it stays in the batch of its worker
  unless that worker stops.
- A registration hits exactly when the last one about its storage key has not run out, and continues its count and its time
  of creation. The hot score counts the registrations of a hash since its hot set last started anew.
- The stable prompt does not determine its segments when a segment text quotes the heading of a later section. Segment texts
  that are free of later headings are the only such texts with their stable prompt; all others share theirs with such texts.
- `combined_changed` is never reported when the hash is injective.

## Model

| member | source | states |
|---|---|---|
| LineDiff.DiffLines | internal/controller/http/assets/app.js:796-820 | within the size guard the table and the walk produce a shortest script from one list to the other, the one that deletes first on ties; beyond it the diff is approximate |
| LineDiff.LcsIsUpperBound | internal/controller/http/assets/app.js:801-809 | no common subsequence of the two lists is longer than the table's value |
| LineDiff.ScriptSpells | internal/controller/http/assets/app.js:810-818 | kept and deleted lines spell the old list, kept and added ones the new list, and as many are kept as the table says |
| LineDiff.ScriptBalances | internal/controller/http/assets/app.js:810-818 | for any script the old list plus the additions is as long as the new list plus the deletions |
| LineDiff.ScriptIsShortest | internal/controller/http/assets/app.js:796-820 | any script from the old list to the new one has at least as many operations |
| LineDiff.KeptIsLongest | internal/controller/http/assets/app.js:796-820 | the kept lines are a common subsequence, and none is longer |
| LineDiff.DeletionsComeFirst | internal/controller/http/assets/app.js:810-818 | where deletions and additions tie, no deletion stands right behind an addition |
| Splitter.SplitRunesByTokenBudget | internal/domain/core/components/rag_clean.go:590-617 | the binary search loop cuts off, again and again, the specified prefix and keeps the parts that are not blank |
| Splitter.CombineUnitsByBudget | internal/domain/core/components/rag_clean.go:466-506 | the packing loop with its flushes is the packing function, for every unit list, separator and sentence flag; it terminates |
| Splitter.SplitOversizedUnit | internal/domain/core/components/rag_clean.go:508-525 | sentences if asked for and more than one, else lines if more than one, else runes |
| Splitter.SplitSentenceUnits | internal/domain/core/components/rag_clean.go:555-588 | the scan cuts exactly behind the runes that end a sentence |
| Splitter.SplitTextByTokenBudget | internal/domain/core/components/rag_clean.go:457-464 | a blank or small text stays one part, any other is packed from its paragraphs |
| Splitter.PackConserves | internal/domain/core/components/rag_clean.go:466-506 | white space aside, the parts spell the open units and the units still to come, in order |
| Splitter.PackFits | internal/domain/core/components/rag_clean.go:466-525 | every part counts at most the budget, is trimmed and not empty, for any counter under which single runes fit |
| Splitter.OversizedConserves | internal/domain/core/components/rag_clean.go:508-525 | white space aside, the parts of an oversized unit spell the unit |
| Splitter.SplitTextFacts | internal/domain/core/components/rag_clean.go:457-464 | the parts of a text spell it, and meet the budget when its runes do |
| Splitter.SplitFragmentByTokenBudget | internal/domain/core/components/rag_clean.go:186-201 | a blank fragment gives nothing, a small one itself trimmed, any other its split content under its own kind and language |
| Splitter.RebuildFragments | internal/domain/core/components/rag_clean.go:619-631 | the loop keeps the trimmed parts that are not blank, in order |
| Splitter.SplitFragmentKeeps | internal/domain/core/components/rag_clean.go:186-201 | the parts lose no rune but white space, and keep kind and language |
| Splitter.SplitFragmentFitsExactly | internal/domain/core/components/rag_clean.go:186-201 | for a monotone counter every part fits if and only if every rune of the content fits on its own |
| Splitter.SplitFragmentFits | internal/domain/core/components/rag_clean.go:457-617 | without monotonicity, fitting runes still make all parts fit |
| Splitter.CutIsLongest | internal/domain/core/components/rag_clean.go:596-611 | for a monotone counter the binary search finds the longest fitting prefix |
| Splitter.RuneSplittingIsOptimal | internal/domain/core/components/rag_clean.go:590-617 | for a monotone counter no division of a text into fitting stretches has fewer members |
| Packing.PackIsGreedy | internal/domain/core/components/rag_clean.go:466-506 | the parts are those of a greedy grouping of the trimmed units: consecutive units that fit are joined with the separator, an oversized unit is split alone, and a group is closed only when the next unit does not fit |
| Packing.GreedyIsUnique | internal/domain/core/components/rag_clean.go:466-506 | a list of units has only one greedy grouping |
| Packing.PackingIsOptimal | internal/domain/core/components/rag_clean.go:466-506 | for a monotone counter and units that fit, no grouping of the units within the budget has fewer groups |
| Packing.SplitTextIsGreedy | internal/domain/core/components/rag_clean.go:457-464 | a text within the budget is one part; of any other the paragraphs are packed greedily, a blank line between them |
| Packing.SplitTextIsOptimal | internal/domain/core/components/rag_clean.go:457-464 | for a monotone counter and paragraphs that fit, no grouping of the paragraphs within the budget has fewer parts |
| Packing.OversizedIsGreedy | internal/domain/core/components/rag_clean.go:508-525 | the sentences of an oversized unit are packed greedily with a blank, otherwise its lines with a line end, otherwise it is cut between runes |
| Packing.ParagraphsComeBack | internal/domain/core/components/rag_clean.go:527-541 | paragraphs with blank lines between them are the units that are packed |
| Packing.LinesComeBack | internal/domain/core/components/rag_clean.go:543-553 | trimmed lines, one below the other, are the units that are packed |
| Paging.Pager.PaginateChunk | internal/domain/core/processor/stage_01_preprocess_processors.go:367-392 | the nested loops with their open page are the greedy paging function |
| Paging.Pager.PagesReadBack | internal/domain/core/processor/stage_01_preprocess_processors.go:367-392 | the pages, one after the other, are all parts in order, and spell the chunk's text |
| Paging.Pager.WithinExactly | internal/domain/core/processor/stage_01_preprocess_processors.go:367-392 | every page is within the limit if and only if every part is |
| Paging.Pager.OverLimitPages | internal/domain/core/processor/stage_01_preprocess_processors.go:376-383 | whatever the parts count, a page over the limit is parts without tokens and one oversized part at its end |
| Paging.Pager.PagingIsOptimal | internal/domain/core/processor/stage_01_preprocess_processors.go:367-392 | no grouping of the parts, in order and within the limit, has fewer pages |
| Paging.Pager.PagesCloseWhenFull | internal/domain/core/processor/stage_01_preprocess_processors.go:376-383 | a page is closed exactly when it counts something and has no room for the part that opens the next |
| Paging.Pager.UndecoratedPagesFitExactly | internal/domain/core/processor/processor_support.go:144-171 | for a monotone counter and kinds rendered as their bare content, every page is within the limit if and only if every rune of every fragment fits on its own |
| Paging.Pager.UndecoratedPagesFit | internal/domain/core/processor/processor_support.go:144-171 | without monotonicity, fitting runes still make every page fit |
| Paging.Pager.MixedPagesFitExactly | internal/domain/core/processor/processor_support.go:144-171 | for a monotone counter and decorated fragments that fit whole, every page is within the limit if and only if every rune of the other fragments fits on its own |
| Paging.Pager.MixedPagesFit | internal/domain/core/processor/processor_support.go:144-171 | any kinds and any counter: every page is within the limit when each fragment fits whole, or is rendered as its bare content with fitting runes |
| Paging.Pager.OlderSplitterUnreached | internal/domain/core/processor/processor_support.go:144-171 | the older splitter behind the budget splitter never gets a fragment with text |
| Paging.DecoratedPageOverLimit | internal/domain/core/components/prompt_construction.go:182-205 | a JSON fragment whose content fits and whose page does not |
| Segmentation.Segment | internal/domain/core/components/rag_clean.go:309-394 | the line loop with its flushes gives the fragments that the lines' roles call for, and counts titles and boilerplate right |
| Segmentation.PreprocessBody | internal/domain/core/components/rag_clean.go:295-417 | with fragments, the report is the true counts; without, the cleaned text stays as one fragment and nothing counts as removed |
| Segmentation.RoleOfLine | internal/domain/core/components/rag_clean.go:339-381 | every line has exactly one role, and which one follows from the text and from whether the line above became a title: blank, boilerplate, underlined title, heading, body, or the underline of that title |
| Segmentation.SegmentationLosesNothing | internal/domain/core/components/rag_clean.go:309-416 | white space aside, the fragments spell every title and body line once, in order, and the title fragments are the promoted titles |
| Segmentation.ParagraphsBecomeBody | internal/domain/core/components/rag_clean.go:309-394 | paragraphs become one body fragment, a blank between their lines and a blank line between them; a title behind them closes it |
| Canonical.Normalizer.UniqueLabels | internal/domain/core/components/rag_clean.go:203-228 | whatever order the map is read in, the sorted labels are the same list |
| Canonical.Normalizer.ComputeStableSources | internal/domain/core/components/rag_clean.go:203-228 | an empty list falls back to the chunk's own source, then labels are cleaned, kept once and sorted |
| Canonical.Normalizer.SortedLabelsKeepFirsts | internal/domain/core/components/rag_clean.go:203-228 | a label list is sorted and keeps exactly the first label of every case-folded key |
| Canonical.Normalizer.SameLabelsExactly | internal/domain/core/components/rag_clean.go:203-228 | two value lists give one label list if and only if they agree on the first label of every key |
| Canonical.Normalizer.StableSourcesStayExactly | internal/domain/core/components/rag_clean.go:203-228 | a second pass changes nothing if and only if the list was settled and every label it leaves is final |
| Canonical.Normalizer.FallsBackLate | internal/domain/core/components/rag_clean.go:203-209 | one blank source and a fallback: empty after one pass, not after two |
| Canonical.Normalizer.ComputeStableChunks | internal/domain/core/components/rag_clean.go:83-97 | every chunk normalised, then a stable sort by key pair |
| Canonical.Normalizer.StableChunksPermute | internal/domain/core/components/rag_clean.go:83-97 | the result is a sorted permutation of the normalised chunks |
| Canonical.Normalizer.StableChunksOrdered | internal/domain/core/components/rag_clean.go:664-683 | canonical chunks stand in the order of their case-folded sources, and under equal ones of their ids, or without an id of their texts |
| Canonical.Normalizer.NormalizedTells | internal/domain/core/components/rag_clean.go:99-144 | a normalised chunk keeps its id and its cleaned fragments one by one; its page references are trimmed, sorted, and kept once per case-folded form |
| Canonical.Normalizer.StableChunksSameExactly | internal/domain/core/components/rag_clean.go:83-97 | two inputs give one list if and only if they bring the same normalised chunks in the same order under every key pair |
| Canonical.Normalizer.StableChunksOrderIndependent | internal/domain/core/components/rag_clean.go:664-678 | with distinct key pairs any reordering gives the identical list |
| Canonical.Normalizer.ResourcingIsAbsorbed | internal/domain/core/components/rag_clean.go:99-144 | normalising the sources of a normalised chunk once more is absorbed by the next normalisation |
| TextCleaning.ComputeNormalizeCode | internal/domain/core/components/rag_clean.go:633-639 | the loop over the lines is the specified code cleaning |
| TextCleaning.CodeStaysExactly | internal/domain/core/components/rag_clean.go:633-639 | cleaning code twice is cleaning it once if and only if no line of the cleaned code but the last ends in a carriage return; otherwise the second pass makes it shorter |
| TextCleaning.CodeNotIdempotent | internal/domain/core/components/rag_clean.go:634 | two carriage returns in front of a line end: each pass takes one |
| TextCleaning.ComputeNormalizeWhitespace | internal/domain/core/components/text_clean.go:131-142 | the loop over the lines is the specified cleaning |
| TextCleaning.ActiveTextTwice | internal/domain/core/components/text_clean.go:100-105 | sanitising an active turn twice is sanitising it once |
| TextCleaning.StableTextStaysExactly | internal/domain/core/components/text_clean.go:106-112 | sanitising stable text twice is sanitising it once if and only if masking the identifiers of what is left changes white space at most |
| TextCleaning.PlainLabelStaysExactly | internal/domain/core/components/rag_clean.go:230-242 | a label that was no URL is final if and only if its normal white space makes no other URL of it |
| Cleaning.Cleaner.FragmentFinalExactly | internal/domain/core/components/rag_clean.go:252-271 | a second cleaning leaves a fragment alone if and only if its language is final and, for code, no line but the last ends in a carriage return, for other kinds the cleaner leaves the text alone |
| Cleaning.Cleaner.NormalizeChunkStaysExactly | internal/domain/core/components/rag_clean.go:99-144 | normalising a chunk twice is normalising it once if and only if its source list was settled and its labels and fragments are final |
| Cleaning.Cleaner.StableChunksStayExactly | internal/domain/core/components/rag_clean.go:83-97 | a canonical chunk list is a fixed point if and only if every chunk was settled and final in this sense |
| Cleaning.CodeFragmentNotFinal | internal/domain/core/components/rag_clean.go:252-271 | a concrete code fragment that two passes change, each in another way |
| Sorting.SameResultExactly | internal/domain/core/components/rag_clean.go:88-95 | a stable sort of two lists agrees if and only if they carry the same members in the same order under every key |
| Sorting.OrderIndependent | internal/domain/core/components/rag_clean.go:88-95 | with distinct keys a stable sort forgets the order of its input |
| PageKeys.ComputeStableArtifactKey | internal/domain/core/components/chunk_select.go:39-59 | the collected, sanitised and sorted parts, joined by colons |
| PageKeys.PageKeySegments | internal/domain/core/processor/stage_01_preprocess_processors.go:394-405 | a page key is a list of segments joined by colons, the hash and the page number at fixed places from its end |
| PageKeys.PageKeyRoundTripExactly | internal/support/redis/redis_repository.go:654-666 | a hexadecimal hash comes back out of its key if and only if no sanitised source is the word "hash" |
| PageKeys.PageKeyRoundTrip | internal/support/redis/redis_repository.go:654-666 | any colon-free hash comes back when no sanitised source is the word "hash" |
| Collapse.View.CollapseChunks | internal/domain/core/processor/stage_01_preprocess_processors.go:172-200 | the loop keeps the first chunk of every text with the sources of all; removed and merged counts are the true differences |
| Collapse.View.CollapseKeepsCitations | internal/domain/core/processor/stage_01_preprocess_processors.go:172-200 | every text stays once, in order of first appearance, and cites exactly the union of its duplicates' sources |
| Collapse.View.NothingRemovedExactly | internal/domain/core/processor/stage_01_preprocess_processors.go:179-189 | nothing is removed if and only if no two chunks share a text |
| Collapse.MergeContinues | internal/domain/core/processor/stage_01_preprocess_processors.go:407-422 | making a merged list unique is making the whole concatenation unique |
| Collapse.UniqueStrings | internal/domain/core/processor/stage_01_preprocess_processors.go:407-422 | the loop keeps the first occurrence of every trimmed label that is not blank |
| Collapse.AddUniqueSet | internal/domain/core/processor/stage_01_preprocess_processors.go:407-422 | as a set, the unique labels are exactly the labels given |
| Prompt.Prompter.StablePromptSegments | internal/domain/core/components/prompt_construction.go:37-70 | the loop gives the system and memory messages of all but the last, each in order, and the last as the active turn |
| Prompt.Prompter.WritePrompt | internal/domain/core/components/prompt_construction.go:72-98 | the builder writes the sections of the assembled prompt |
| PromptText.KindIsSelected | internal/domain/core/components/prompt_construction.go:58-68 | the messages of a kind are exactly those with that role, in order |
| PromptText.PromptIsPieces | internal/domain/core/components/prompt_construction.go:72-98 | the prompt is, trimmed, the canonical chunks, the system messages and then the others before the last, and the last message, section by section behind their headings |
| PromptText.PromptSpells | internal/domain/core/components/prompt_construction.go:72-98 | white space aside the prompt spells the headings of its sections and the role and text of every message, the sources and fragments of every chunk, once and in order, and nothing else |
| PromptText.ChunkTextSpells | internal/domain/core/components/prompt_construction.go:167-205 | white space aside a chunk's text is its fragments in order, each with what is written around it |
| Prompt.Prompter.IdentityIgnoresOrderAndTurn | internal/domain/core/prefix_cache_identity.go:63-106 | the identity depends on the model, on the system and the memory messages before the last, each in order, and on what the chunks bring under each pair of keys |
| Prompt.Prompter.IdentityIgnoresChunkOrder | internal/domain/core/prefix_cache_identity.go:63-106 | with distinct key pairs the chunks may come in any order |
| Prompt.Prompter.SwapKeepsKinds | internal/domain/core/components/prompt_construction.go:58-68 | swapping a neighbouring system and memory message changes neither subsequence |
| Prompt.Prompter.ActiveTurnOnlyChangesTail | internal/domain/core/components/prompt_construction.go:72-98 | prompts that differ in the last message only share everything up to the opening of the active turn |
| Prompt.Prompter.CanonicalMessagesKeepSegmentsExactly | internal/domain/core/processor/stage_01_preprocess_processors.go:330-331 | canonical messages fall into the segments they were made of if and only if their cleaned texts are final |
| Refiner.Refiner.CanonicalizeStepStaysExactly | internal/domain/core/processor/stage_01_preprocess_processors.go:318-336 | the step leaves the message segments alone if and only if the texts before the last message are final, and the canonical chunk list if and only if every preprocessed chunk is |
| Refiner.Refiner.CanonicalizeStepKeepsPrompt | internal/domain/core/processor/stage_01_preprocess_processors.go:318-336 | with final texts and chunks the step changes neither the prompt nor its identity |
| Refiner.Refiner.ResourcingIsAbsorbed | internal/domain/core/processor/stage_01_preprocess_processors.go:334-336 | the step's own pass over the sources is absorbed by the next normalisation of the chunk list |
| Prompt.Prompter.DiagnosisIsExact | internal/support/redis/redis_repository.go:485-508 | for an injective hash the diagnosis from hashes is the one from the segment prompts themselves; combined_changed never occurs |
| MissBlame.RunsBlameExactly | internal/support/redis/redis_repository.go:300-409 | in every run of requests a registration that misses reports what differs from the prefix last registered under its scope, while that record lives, and a cold start otherwise; a hit reports none |
| MissBlame.SessionOfRun | internal/support/redis/redis_repository.go:376-383 | in every run the record of a session is that of the prefix last registered under it, and runs out with the TTL applied then |
| PrefixScope.SharedScopeExactly | internal/domain/core/processor/stage_04_finalize_processors.go:120-123 | two requests share a scope under different namespaces if and only if the longer namespace is the shorter one, a bar and the front of that one's session |
| PrefixScope.ScopesTiedExactly | internal/domain/core/processor/stage_04_finalize_processors.go:120-123 | in the runs of the prefix-cache processor every scope belongs to one namespace if and only if no two requests are of that kind |
| PrefixScope.PlainCallersNeverExpire | internal/domain/core/prefix_cache_identity.go:115-130 | with bar-free sessions, or bar-free tenants, policies and models, ordered runs of a steady configuration never report ttl_expired |
| PrefixScope.StraddlingReportsExpiry | internal/support/redis/redis_repository.go:485-492 | two requests with one prompt, one scope and different namespaces: the second is reported as expired, whatever the lifetimes |
| PrefixScope.SomeStraddle | internal/domain/core/prefix_cache_identity.go:115-130 | where namespaces carry the tenant, for every policy and model, a tenant and a session that hold a bar make such requests |
| StablePrompt.TextsAreToldExactly | internal/domain/core/components/prompt_construction.go:114-137 | segment texts are the only clean ones with their stable prompt if and only if they are clean: the heading of a later section is no inner paragraph of any, and not the last one where a section follows |
| StablePrompt.CleanTextsAreTold | internal/domain/core/components/prompt_construction.go:114-137 | clean segment texts with one stable prompt are the same texts |
| StablePrompt.CleanReading | internal/domain/core/components/prompt_construction.go:114-137 | every stable prompt is that of clean segment texts |
| StablePrompt.BuiltFromTexts | internal/domain/core/components/prompt_construction.go:114-137 | the sections and the stable prompt that are built, from the sanitised and trimmed texts |
| StablePrompt.RequestsAreTold | internal/domain/core/components/prompt_construction.go:104-137 | requests with clean segment texts share a stable prompt if and only if all of their sections agree |
| Prompt.Prompter.StablePromptIsAmbiguous | internal/domain/core/components/prompt_construction.go:114-137 | for any two texts that sanitising leaves alone, a system text that quotes the memory heading between them gives the stable prompt of the two texts apart |
| Witnesses.QuotedHeadingIsAmbiguous | internal/domain/core/components/prompt_construction.go:104-137 | two concrete message lists with one stable prompt, one without and one with a memory section |
| PrefixRegistry.RedisRepository.RegisterPrefix | internal/support/redis/redis_repository.go:300-409 | the whole new store and the report of a registration, in every case |
| PrefixRegistry.RedisRepository.Persist | internal/support/redis/redis_repository.go:370-390 | entry and session record get one payload and one expiry, the hot score is one more |
| PrefixRegistry.LiveSessionHasLiveEntry | internal/support/redis/redis_repository.go:300-408 | in every sequential run of a steady configuration, a live session record names an entry that is live and expires no earlier |
| PrefixRegistry.ExpiryReportedExactly | internal/support/redis/redis_repository.go:485-492 | ttl_expired is reported if and only if the session's live record names this very entry, and the entry is gone |
| PrefixRegistry.NoExpiryReportsExactly | internal/support/redis/redis_repository.go:485-515 | a configuration is steady if and only if no sequential run, in which every scope that is not blank keeps to one namespace, ever reports ttl_expired |
| PrefixRegistry.HitCountIsStreak | internal/support/redis/redis_repository.go:325-345 | a live entry's hit count is the number of registrations since it was last created, and it is hot from the threshold on |
| RegistryRuns.HitsExactly | internal/support/redis/redis_repository.go:300-409 | a registration hits if and only if the last one about its storage key has not run out; then it counts one more and keeps the time of creation, otherwise it starts anew |
| RegistryRuns.HotScoreExactly | internal/support/redis/redis_repository.go:510-533 | the reported hot score is the number of registrations of the hash since its hot set last started anew |
| PrefixRegistry.ScoresKeepUpExactly | internal/support/redis/redis_repository.go:510-533 | hot scores never fall behind hit counts, in any run, if and only if all entries get one TTL |
| PrefixRegistry.StorageKeyInjective | internal/support/redis/redis_repository.go:427-437 | a storage key determines its colon-free hash and the hot set it counts in |
| PrefixRegistry.HitCountAtMostWrites | internal/support/redis/redis_repository.go:300-409 | however loads and writes interleave, a hit count never exceeds the completed writes for its key |
| SummaryStore.Clerk.PrepareIsIdempotent | internal/support/redis/redis_repository.go:548-581 | preparing a prepared artifact changes nothing, whatever the clock says |
| SummaryStore.ComputeAppendUnique | internal/support/redis/redis_repository.go:668-683 | the first value and then the others, trimmed, once each, blanks dropped |
| SummaryStore.AppendUniqueStays | internal/support/redis/redis_repository.go:668-683 | listing a reference in front of a list that already starts with it changes nothing |
| SummaryStore.Clerk.PreparedValidatesExactly | internal/support/redis/redis_repository.go:628-652 | a prepared artifact validates if and only if its versions are known, its key's hash is trimmed and its time has not run out |
| SummaryStore.Clerk.SaveLoadRoundTrip | internal/support/redis/redis_repository.go:196-218 | what was saved loads back unchanged exactly while its slot lives and it validates, and is deleted otherwise |
| SummaryStore.Clerk.LegacyLoadsOnceAndForAll | internal/support/redis/redis_repository.go:446-465 | a legacy payload that loads is replaced by one artifact, which is what keeps loading |
| SummaryStore.Clerk.LegacyLoadsItsText | internal/support/redis/redis_repository.go:594-626 | a legacy payload that loads gives its own text, under the hash of its key |
| SummaryStore.PageStore.SavePage | internal/support/redis/redis_repository.go:94-123 | a live page keeps its content and only its expiry is renewed; no other key changes |
| SummaryStore.PageStore.SaveSummary | internal/support/redis/redis_repository.go:196-218 | the prepared artifact is stored, or nothing changes |
| SummaryStore.PageStore.LoadSummaryArtifact | internal/support/redis/redis_repository.go:446-465 | the slot after a load and what it yields: migrated, kept or deleted; no other key changes |
| SummaryStore.PageStore.LoadResolvedPage | internal/support/redis/redis_repository.go:146-194 | a valid summary, else the raw page, else a miss; no other key changes |
| SummaryStore.Clerk.LoadTwice | internal/support/redis/redis_repository.go:446-465 | whatever lies in a slot, loading it again at the same moment yields the same |
| SummaryStore.PageStore.PageIn | internal/service/refine_service.go:160-202 | the answers for all keys in order, or an error if and only if one of them is a miss; reading changes no answer |
| SummaryQueue.NextKeepsInvariant | internal/support/redis/redis_repository.go:261-298 | every step, with replies lost before or after the effect, keeps: delivered is pending or acked and never both, delivered once, held by one worker, acked means saved |
| SummaryQueue.RunKeepsInvariant | internal/support/summary/summary_worker.go:44-128 | the invariant holds after every run of producers, workers, failures and stops |
| SummaryQueue.AckedJobsAgree | internal/support/redis/redis_repository.go:559-562 | in every run an acknowledged job's hash agrees with all of its page keys, and there was something to say about it |
| SummaryDelivery.RunKeepsStore | internal/support/redis/redis_repository.go:196-218 | after every run the store holds, under exactly the written references, the payload of the last write; every write is a prepared summary of a message whose job carries the reference; every counted save has been written |
| SummaryDelivery.StoredIsServedExactly | internal/support/redis/redis_repository.go:446-465 | what a write stored is served if and only if its slot lives, its key is clean and its artifact has not run out |
| SummaryDelivery.AckedJobsAreServed | internal/support/summary/summary_worker.go:102-128 | under every page reference of an acknowledged job readers get the text of the job that wrote it last, exactly while that lasts, whatever page is stored |
| SummaryDelivery.RunForgetsNone | internal/support/summary/summary_worker.go:44-100 | in every run a delivered message that is not acknowledged stays in the batch of the worker that read it, in stream order, unless that worker has stopped or the message carries no job |
| SummaryQueue.AcknowledgeableExactly | internal/support/redis/redis_repository.go:548-581 | some run acknowledges a job if and only if its hash agrees with all of its page keys and there is something to say about it |
| SummaryQueue.Writer.SummaryBlankExactly | internal/domain/core/components/summary.go:26-42 | a summary is blank if and only if neither the source nor any fragment, or without fragments the plain content, says anything |
| SummaryQueue.SummaryAccepted | internal/support/summary/provider.go:34-58 | the provider's artifact is accepted under a page key if and only if the job agrees with that key |
| SummaryQueue.SummaryWorker.HandleJob | internal/support/summary/summary_worker.go:102-128 | summarising and saving, reference by reference, is a run of the protocol; failure stops the worker |
| SummaryQueue.SummaryWorker.HandleAndAck | internal/support/summary/summary_worker.go:80-100 | a handled message is acknowledged before the next one is taken up; a failure stops the worker |
| SummaryQueue.SummaryWorker.ProcessMessages | internal/support/summary/summary_worker.go:80-100 | a batch is a run of the protocol; success means that all of its messages are acknowledged |
| Compaction.ComputeSafeCompactContent | internal/domain/core/processor/stage_03_compaction_processors.go:185-207 | the loop is the line compaction, between a split and a trim |
| Compaction.CompactionKeepsExactly | internal/domain/core/processor/stage_03_compaction_processors.go:186-205 | of any lines exactly these are left, trimmed on their right and in order: the first, those that are not blank and differ from the line above, and blank ones below one that is not blank |
| Compaction.SafeCompactKeepsExactly | internal/domain/core/processor/stage_03_compaction_processors.go:185-207 | the lines of a compacted text are the lines that stay, outer white space trimmed |
| Compaction.CompactLinesTwice | internal/domain/core/processor/stage_03_compaction_processors.go:186-205 | compacting compacted lines changes nothing |
| Compaction.CompactLinesStayExactly | internal/domain/core/processor/stage_03_compaction_processors.go:186-205 | compaction keeps a line list if and only if no line ends in a blank or tab, no blank line follows a blank one and no other line repeats the one above |
| Compaction.SafeCompactStaysExactly | internal/domain/core/processor/stage_03_compaction_processors.go:185-207 | compacting a text twice is compacting it once if and only if, of the lines left once the ends are trimmed, neither the first two nor the last two agree |
| Compaction.SafeCompactNotIdempotent | internal/domain/core/processor/stage_03_compaction_processors.go:206 | a leading blank and a trailing carriage return, each leaving a text that compacts further |
| Pipeline.SnipKeepsEnds | internal/domain/core/processor/stage_02_transform_processors.go:281-289 | snipped text is the first and the last lines around one marker line, and short text itself |
| Pipeline.Env.SnipStopsAtBudget | internal/domain/core/processor/stage_02_transform_processors.go:146-160 | chunks are snipped in order up to the point where the budget is met, and the rest are untouched |
| Pipeline.Env.SanitizeSparesActiveTurn | internal/domain/core/processor/stage_01_preprocess_processors.go:260-272 | every message is sanitised in its place, except a last one whose role is not system |
| Pipeline.Env.ProcessKeeps | internal/domain/core/processor/stage_02_transform_processors.go:129-176 | no processor makes the cached count stale, and none touches the budget, the input count or the audits |
| Pipeline.Env.StepKeeps | internal/domain/core/pipeline.go:182-247 | a turn of the loop keeps the count, the chain of audits, and that audited aggressive steps started over budget |
| PipelineRuns.SkipsExactly | internal/domain/core/pipeline.go:266-279 | processor by processor, when a step is passed over: only aggressive ones within budget, below their trigger, or for want of fragments |
| PipelineRuns.RunTakesDueSteps | internal/domain/core/pipeline.go:182-247 | a successful run hands each due step's result to the next step and passes over the others; its audits name exactly the due steps, in list order, with their counts |
| PipelineRuns.RunFailsExactly | internal/domain/core/pipeline.go:200-216 | a run fails if and only if some step is due at its turn and its processor fails |
| PipelineRuns.ListedStepsAreAudited | internal/domain/core/pipeline.go:182-247 | within budget or over it, every listed step that nothing holds back has its audit |
| PipelineRuns.CanonicalizeLeaves | internal/domain/core/processor/stage_01_preprocess_processors.go:308-343 | behind a canonicalize turn stand the canonical lists and its three metadata entries |
| PipelineRuns.ContentStepsChangeExactly | internal/domain/core/processor/stage_02_transform_processors.go:237-279 | fragment by fragment, what the content steps change: the kinds they are for, and for compaction only over budget and threshold |
| Pipeline.Env.RunIsTruthfulExactly | internal/domain/core/pipeline.go:163-278 | for every step list the response's counts, budget flag and audit chain are right if and only if the caller's count was zero or right |
| RequestHeap.CloneRequest | internal/domain/core/processor/processor_support.go:45-65 | the clone shows the same value and owns fresh arrays, no two of them shared |
| RequestHeap.ChangeFragments | internal/domain/core/processor/stage_02_transform_processors.go:264-279 | the in-place fragment loop is the content transform, and reports whether anything changed |
| RequestHeap.SnipRequest | internal/domain/core/processor/stage_02_transform_processors.go:129-176 | snipping a clone in place gives the specified request, and writes to nothing that existed before |
| RequestHeap.AutoCompact | internal/domain/core/processor/stage_03_compaction_processors.go:57-92 | compacting a clone in place gives the specified request, and writes to nothing that existed before |
| RequestHeap.CompactRequest | internal/domain/core/processor/stage_01_preprocess_processors.go:221-252 | layout compaction of a clone in place gives the specified request, and writes to nothing that existed before |
| RequestHeap.SanitizeRequest | internal/domain/core/processor/stage_01_preprocess_processors.go:254-306 | sanitising a clone in place gives the specified request, and writes to nothing that existed before |
| RequestHeap.PageRequest | internal/domain/core/processor/stage_01_preprocess_processors.go:129-156 | paging writes chunks of a clone over in place, gives the specified request, and writes to nothing that existed before |
| RequestHeap.CollapseRequest | internal/domain/core/processor/stage_01_preprocess_processors.go:172-203 | collapsing a clone: its messages in place, a filtered list in place of its chunks |
| RequestHeap.CanonicalRequest | internal/domain/core/processor/stage_01_preprocess_processors.go:308-343 | canonicalising a clone: new lists in place of its messages and chunks, three metadata entries |
| RequestHeap.TransformRequest | internal/domain/core/processor/stage_02_transform_processors.go:237-262 | a structured transform of a clone gives the specified request, and writes to nothing that existed before |
| RequestHeap.AsyncRequest | internal/domain/core/processor/stage_03_compaction_processors.go:94-157 | asynchronous compaction of a clone adds the job ids of all chunks that count enough, and changes no text |
| RequestHeap.AssembleRequest | internal/domain/core/processor/stage_04_finalize_processors.go:176-207 | assembling writes the prompt, its count and the metadata of a clone |
| RequestHeap.ProcessRequest | internal/domain/core/processor/processor_support.go:45-65 | every processor writes to a clone only: its result is a fresh request with the specified value, or an error, and nothing that existed before has changed |
| RequestHeap.StepRequest | internal/domain/core/pipeline.go:182-241 | one turn of the loop: a skipped step hands on the same request, any other a fresh one with one more audit |
| RequestHeap.RunRequest | internal/domain/core/pipeline.go:163-264 | a run returns the specified response and writes at most three scalar fields of the caller's request |
| Refiner.Refiner.ResponsesAreTruthfulExactly | internal/domain/core/pipeline.go:163-278 | the truthfulness of responses for the pipeline with its pager, prompter and duplicate view, with no assumption about cleaners, transforms or stores |
| Refiner.Refiner.PageOutChunks | internal/domain/core/processor/stage_01_preprocess_processors.go:129-154 | the chunks are those of the pipeline's paging step, and the store is that after exactly the specified row of page writes |
| PageSaving.SavePages | internal/domain/core/processor/stage_01_preprocess_processors.go:143-150 | the pages of a chunk are saved in order under their numbered keys, which become its references |
| Refiner.Refiner.PagedChunkReadsBackExactly | internal/domain/core/processor/stage_01_preprocess_processors.go:140-151 | while its pages live, and whatever is saved later, a reference of a paged chunk resolves; it gives its own page's text if and only if the summary served under its key is that text or, without a summary, the key was free or already held it |
| Refiner.Refiner.PagedChunksReadBackExactly | internal/domain/core/processor/stage_01_preprocess_processors.go:134-154 | after a whole paging step, and whatever is saved later, a chunk's references read back its pages in order if and only if under each key the summary served is the page's text, or none is served and neither the store nor an earlier chunk brought another text |
| PageSaving.LaterSavesKeep | internal/support/redis/redis_repository.go:94-123 | as long as a key lives, no row of later saves writes over what it holds |
| Refiner.Refiner.PageOrderStaysExactly | internal/domain/core/components/rag_clean.go:641-662 | the canonical form of a paged chunk names the same pages, in page order if and only if there are at most nine |
| Refiner.Refiner.CanonicalRefsReadBackExactly | internal/domain/core/components/rag_clean.go:641-662 | distinct page texts that read back do so in the order of the canonical references if and only if there are at most nine |
| Refiner.Refiner.SharedKeyServesFirst | internal/domain/core/processor/stage_01_preprocess_processors.go:141-146 | of two chunks that share a page key, the page stored under the second one's reference is the first one's |
| Witnesses.SecondChunkServesFirst | internal/domain/core/processor/stage_01_preprocess_processors.go:141-146 | two concrete chunks that differ in a masked identifier: the page stored under the second one's first reference is the first one's |
| PageSaving.WriteAllHolds | internal/support/redis/redis_repository.go:94-123 | after a row of page saves the live keys are the old ones and the written ones, and the first content of a key stays |
| Refiner.Refiner.PagedJobAcknowledgeableExactly | internal/domain/core/processor/stage_03_compaction_processors.go:109-137 | the job of a chunk just paged out can be acknowledged if and only if the first page has the chunk's whole canonical text and there is something to say about it |
| Refiner.Refiner.SeveralPagesNeverAcknowledged | internal/domain/core/processor/stage_03_compaction_processors.go:109-137 | where cleaning keeps the runes of a chunk of bare content and of its first page, and there are more pages, its job is never acknowledged |
| Witnesses.PagedJobIsStuck | internal/domain/core/processor/stage_03_compaction_processors.go:109-137 | a concrete chunk of two pages whose job no run acknowledges |
| SpanDepth.DepthIndex.Resolve | internal/support/tempo/tempo_repository.go:526-544 | the memoised recursion returns the hop count of the parent links and only ever adds right depths to the memo |
| SpanDepth.IndexParents | internal/support/tempo/tempo_repository.go:519-524 | the parent links of the records with an id, later records over earlier ones |
| SpanDepth.BuildDepthIndex | internal/support/tempo/tempo_repository.go:518-549 | for acyclic parent links the index holds exactly the named spans and their ancestors, each with its depth |
| SpanDepth.DepthsExistExactly | internal/support/tempo/tempo_repository.go:526-544 | parent links are acyclic if and only if every span has a depth |
| SpanDepth.IndexIsUnique | internal/support/tempo/tempo_repository.go:545-547 | whatever order the records are resolved in, there is one index |
| SpanDepth.OrderDoesNotMatter | internal/support/tempo/tempo_repository.go:518-549 | with distinct span ids, permuted records have the same index |
| SpanDepth.LastRecordWins | internal/support/tempo/tempo_repository.go:519-525 | on duplicate ids the last record gives the parent |

## Left out

- gRPC and HTTP controllers, mappers, configuration, metrics and tracing: plumbing that copies fields.
- `fallbackDiff`, which `diffLines` turns to beyond 1500 lines: it does not reconstruct the new list, and the model only says when it is chosen.
- The tokenizer, case folding, SHA-256, JSON, URL and HTML parsing, regular expressions and emoji filters: function parameters. Go's JSON round trip of entries and artifacts is taken as faithful.
- Invalid UTF-8: strings are sequences of runes, so lengths in bytes do not appear; the four structured transforms (JSON, table, code outline, error stack) are parameters for that reason too.
- Redis: string keys with an expiry, hot scores as maps, one stream with one consumer group. Pages and summaries are two maps, so a page key that starts with the summary prefix is not modelled, nor are a page TTL of zero, which Redis reads as no expiry, and eviction.
- A store failure in the middle of paging or of a registration: what was written before it stays in Redis; the model reports a failed step and has no partial state.
- `Worker.Run`: the endless loop is modelled as steps in any order (consume, summarise, save, ack, stop), and its batches as methods.
- Completion of summary jobs: a pending message of a stopped worker is not claimed again in the code, so only safety is stated.
- The older line and rune splitters of `processor_support.go`: not reached for fragments with text, which is proved, and not safe for the budget.
- The gates of the prefix-cache processor (minimum tokens and segments), its predictions and `analyzePrefixRegistration`: metadata only, given to the pipeline as a parameter.
- Audit details, durations and semantic notes of the processors.
- Aliasing of source and reference lists between chunks: they are values in the model; messages, chunks and fragments are arrays, which is where processors write in place.
- RequestHeap.CollapseRequest: which chunks the filtered list holds is computed on values; the list then gets arrays of its own, where the code keeps those of the clone.
- Refiner.Refiner.CanonicalizeStepStaysExactly: what body segmentation does to chunk content before the step is not part of it; it changes the prompt on purpose.
- Cleaning.Cleaner.StableChunksStayExactly: URL reading, JSON normalisation, identifier masking and case folding are parameters; a label, a language and a text that is not code are taken to be final after their second cleaning. Code needs no such assumption.
- Refiner.Refiner.PageOrderStaysExactly: case folding is taken to leave the page keys alone, as it does with keys whose parts it has folded before.
- Prewarmed prefixes: their scopes start with `prewarm`, which no namespace does; only the scopes of requests are modelled.
- Segmentation.RoleOfLine: the boilerplate, heading and word-count tests are parameters.
- Dashboards, trace search and detail views other than the span depth, trace evaluations, and the wording of heuristic summaries.
