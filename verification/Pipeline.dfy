/** The refine pipeline on request values: what each processor does to a request, and whole runs. */
module Pipeline {
  import opened Text
  import opened Seqs
  import opened Content
  import opened Compaction

  datatype Audit = Audit(name: string, before: int, after: int, aggressive: bool)

  datatype Request = Request(
    messages: seq<Message>,
    chunks: seq<Chunk>,
    budget: int,
    keepHead: int,
    keepTail: int,
    threshold: int,
    currentTokens: int,
    inputTokens: int,
    optimizedPrompt: string,
    audits: seq<Audit>,
    metadata: map<string, string>,
    pendingJobs: seq<string>)

  datatype Result<T> = Ok(value: T) | Failed

  datatype Response = Response(optimizedPrompt: string, inputTokens: int, outputTokens: int, budgetMet: bool,
                               request: Request)

  /** The registered processors. */
  datatype Name =
    | Paging | Collapse | Compact | Sanitize | Canonicalize
    | JSONTrim | TableReduce | CodeOutline | ErrorStackFocus | Snip
    | AutoCompactSync | AutoCompactAsync | PrefixCache | AssembleStep

  datatype Descriptor = Descriptor(aggressive: bool, structuredOnly: bool, minTrigger: int)

  // ----- middle-out snipping -----

  const SNIPPED := "[... middle content snipped ...]"

  /** snipContent. */
  function SnipWith(content: string, keepHead: nat, keepTail: nat, marker: string): string {
    var lines := Split(content, "\n");
    if |lines| <= keepHead + keepTail then content
    else Join(lines[..keepHead], "\n") + "\n" + marker + "\n" + Join(lines[|lines| - keepTail..], "\n")
  }

  function SnipContent(content: string, keepHead: nat, keepTail: nat): string {
    SnipWith(content, keepHead, keepTail, SNIPPED)
  }

  lemma JoinAround(head: seq<string>, marker: string, tail: seq<string>)
    requires head != [] && tail != []
    ensures Join(head + [marker] + tail, "\n") == Join(head, "\n") + "\n" + marker + "\n" + Join(tail, "\n")
  {
    JoinLinesAppend(head, [marker]);
    JoinLinesAppend(head + [marker], tail);
  }

  /** The lines that stay: all of them, or the first and the last ones around one marker line. */
  function KeptLines(lines: seq<string>, keepHead: nat, keepTail: nat, marker: string): seq<string> {
    if |lines| <= keepHead + keepTail then lines
    else lines[..keepHead] + [marker] + lines[|lines| - keepTail..]
  }

  lemma KeptLinesJoin(lines: seq<string>, keepHead: nat, keepTail: nat, marker: string)
    requires keepHead > 0 && keepTail > 0 && |lines| > keepHead + keepTail
    ensures Join(lines[..keepHead], "\n") + "\n" + marker + "\n" + Join(lines[|lines| - keepTail..], "\n")
      == Join(KeptLines(lines, keepHead, keepTail, marker), "\n")
  {
    JoinAround(lines[..keepHead], marker, lines[|lines| - keepTail..]);
  }

  /** Read line by line, snipped text is the kept lines and nothing else. */
  lemma SnipKeepsEnds(content: string, keepHead: nat, keepTail: nat, marker: string)
    requires keepHead > 0 && keepTail > 0
    ensures SnipWith(content, keepHead, keepTail, marker) ==
      Join(KeptLines(Split(content, "\n"), keepHead, keepTail, marker), "\n")
  {
    var lines := Split(content, "\n");
    SplitJoin(content, "\n");
    if |lines| > keepHead + keepTail {
      KeptLinesJoin(lines, keepHead, keepTail, marker);
    }
  }

  function CanonicalMetadata(metadata: map<string, string>): map<string, string> {
    metadata["canonicalized_rag" := "true"]["canonicalized_messages" := "true"]
            ["normalization_version" := "stable-prefix-v2"]
  }

  function KeepHead(r: Request): nat {
    if r.keepHead <= 0 then 18 else r.keepHead
  }

  function KeepTail(r: Request): nat {
    if r.keepTail <= 0 then 8 else r.keepTail
  }

  /** A content transform on the fragments of a chunk that are eligible for it. */
  function OnFragments(fragments: seq<Fragment>, eligible: string -> bool, change: string -> string): seq<Fragment> {
    if fragments == [] then []
    else
      [if eligible(fragments[0].kind) then fragments[0].(content := change(fragments[0].content)) else fragments[0]]
      + OnFragments(fragments[1..], eligible, change)
  }

  lemma {:induction false} OnFragmentsAt(fragments: seq<Fragment>, eligible: string -> bool, change: string -> string,
                                         i: nat)
    requires i < |fragments|
    ensures |OnFragments(fragments, eligible, change)| == |fragments|
    ensures var f := OnFragments(fragments, eligible, change)[i];
      f == if eligible(fragments[i].kind) then fragments[i].(content := change(fragments[i].content)) else fragments[i]
  {
    if |fragments| > 1 {
      OnFragmentsAt(fragments[1..], eligible, change, if i > 0 then i - 1 else 0);
    }
  }

  function OnChunks(chunks: seq<Chunk>, eligible: string -> bool, change: string -> string): seq<Chunk> {
    if chunks == [] then []
    else [ChangeChunk(chunks[0], eligible, change)] + OnChunks(chunks[1..], eligible, change)
  }

  function OnMessages(messages: seq<Message>, change: string -> string): seq<Message> {
    if messages == [] then []
    else [messages[0].(content := change(messages[0].content))] + OnMessages(messages[1..], change)
  }

  function ChangeChunk(c: Chunk, eligible: string -> bool, change: string -> string): Chunk {
    c.(fragments := OnFragments(c.fragments, eligible, change))
  }

  function SnipChange(keepHead: nat, keepTail: nat): string -> string {
    (content: string) => SnipContent(content, keepHead, keepTail)
  }

  /** snipChunk. */
  function SnipBy(change: string -> string): Chunk -> Chunk {
    (chunk: Chunk) => ChangeChunk(chunk, SnipKinds(), change)
  }

  function SnipChunk(r: Request): Chunk -> Chunk {
    SnipBy(SnipChange(KeepHead(r), KeepTail(r)))
  }

  // ----- the kinds that the processors look at -----

  function SnipKinds(): string -> bool {
    kind => kind in {"code", "tool-output", "log", "error-stack", "json"}
  }

  function AllKinds(): string -> bool {
    kind => true
  }

  function SanitizeKinds(): string -> bool {
    kind => kind != "code" && kind != "json"
  }

  function SafeCompactKinds(): string -> bool {
    kind => kind in {"tool-output", "log", "error-stack"}
  }

  function TargetKind(p: Name): string -> bool {
    kind => kind == match p
      case JSONTrim => "json"
      case TableReduce => "table"
      case CodeOutline => "code"
      case _ => "error-stack"
  }

  /** Everything around the processors that this model leaves open. */
  datatype Env = Env(
    tokenizer: Tokenizer,
    assemble: (seq<Message>, seq<Chunk>) -> string,
    pageLimit: int,
    pageOut: Chunk -> Chunk,
    collapse: seq<Chunk> -> seq<Chunk>,
    squeeze: string -> string,
    compact: string -> string,
    sanitize: string -> string,
    isSystem: string -> bool,
    canonicalMessages: seq<Message> -> seq<Message>,
    canonicalChunks: seq<Chunk> -> seq<Chunk>,
    transform: Name -> string -> string,
    metadataAfter: (Name, Request) -> map<string, string>,
    jobID: Chunk -> string,
    storeFails: (Name, Request) -> bool)
  {
    function CountChunk(chunk: Chunk): nat {
      tokenizer.CountText(ChunkText(chunk))
    }

    /** CountRequest: the prompt when there is one, otherwise the prompt that would be assembled. */
    function CountRequest(r: Request): nat {
      tokenizer.CountText(if r.optimizedPrompt != "" then r.optimizedPrompt else assemble(r.messages, r.chunks))
    }

    function Recount(r: Request): Request {
      r.(currentTokens := CountRequest(r))
    }

    function DescriptorOf(p: Name): Descriptor {
      match p
      case Paging => Descriptor(false, true, pageLimit + 1)
      case JSONTrim => Descriptor(true, true, 64)
      case TableReduce => Descriptor(true, true, 64)
      case CodeOutline => Descriptor(true, true, 96)
      case ErrorStackFocus => Descriptor(true, true, 48)
      case Snip => Descriptor(true, true, 48)
      case AutoCompactSync => Descriptor(false, true, 0)
      case AutoCompactAsync => Descriptor(true, true, 0)
      case _ => Descriptor(false, false, 0)
    }

    /** shouldSkipProcessor. */
    predicate Skips(r: Request, p: Name) {
      var d := DescriptorOf(p);
      || (r.currentTokens <= r.budget && d.aggressive)
      || (d.minTrigger > 0 && r.currentTokens < d.minTrigger)
      || (d.structuredOnly && forall i :: 0 <= i < |r.chunks| ==> r.chunks[i].fragments == [])
    }

    // ----- what each processor does -----

    function Paged(chunks: seq<Chunk>): seq<Chunk> {
      if chunks == [] then []
      else [PagedOne(chunks[0])] + Paged(chunks[1..])
    }

    function PagedOne(chunk: Chunk): Chunk {
      if CountChunk(chunk) <= pageLimit then chunk else pageOut(chunk)
    }

    /** Sanitising leaves the active turn alone, unless its role is system. */
    function SanitizedMessages(messages: seq<Message>): seq<Message> {
      if messages == [] then []
      else
        [if |messages| == 1 && !isSystem(messages[0].role) then messages[0]
         else messages[0].(content := sanitize(messages[0].content))]
        + SanitizedMessages(messages[1..])
    }

    function SanitizedOne(messages: seq<Message>, i: nat): Message
      requires i < |messages|
    {
      if i == |messages| - 1 && !isSystem(messages[i].role) then messages[i]
      else messages[i].(content := sanitize(messages[i].content))
    }

    /** Every message but an active turn is sanitised, in its place. */
    lemma {:induction false} SanitizeSparesActiveTurn(messages: seq<Message>)
      ensures |SanitizedMessages(messages)| == |messages|
      ensures forall i :: 0 <= i < |messages| ==> SanitizedMessages(messages)[i] == SanitizedOne(messages, i)
    {
      if messages != [] {
        SanitizeSparesActiveTurn(messages[1..]);
      }
    }

    /** One chunk's turn in SnipProcessor: small chunks stay, and only a change is counted again. */
    function SnipTurn(snip: Chunk -> Chunk, r: Request, i: nat): Request
      requires i < |r.chunks|
    {
      if CountChunk(r.chunks[i]) <= 48 || snip(r.chunks[i]) == r.chunks[i] then r
      else Recount(r.(chunks := r.chunks[i := snip(r.chunks[i])]))
    }

    /** The chunk loop of SnipProcessor from chunk i on: it stops as soon as the request is within budget. */
    function SnipFrom(snip: Chunk -> Chunk, r: Request, i: nat): Request
      requires i <= |r.chunks|
      decreases |r.chunks| - i
    {
      if i == |r.chunks| || r.currentTokens <= r.budget then r else SnipFrom(snip, SnipTurn(snip, r, i), i + 1)
    }

    function Threshold(r: Request): int {
      if r.threshold <= 0 then r.budget else r.threshold
    }

    /** Go's division by two. */
    function Half(n: int): int {
      if n >= 0 then n / 2 else -((-n) / 2)
    }

    predicate Compacts(r: Request) {
      r.currentTokens > r.budget && r.currentTokens > Threshold(r)
    }

    function JobIDs(chunks: seq<Chunk>, floor: int): seq<string> {
      if chunks == [] then [] else JobIDOf(chunks[0], floor) + JobIDs(chunks[1..], floor)
    }

    /** A chunk that counts less than the floor gets no job. */
    function JobIDOf(chunk: Chunk, floor: int): seq<string> {
      if CountChunk(chunk) < floor then [] else [jobID(chunk)]
    }

    /** The processors that rewrite messages or chunks and then count again. */
    function Rewritten(p: Name, r: Request): Request {
      match p
      case Paging => r.(chunks := Paged(r.chunks))
      case Collapse => r.(chunks := collapse(r.chunks), messages := OnMessages(r.messages, squeeze))
      case Compact => r.(messages := OnMessages(r.messages, compact), chunks := OnChunks(r.chunks, AllKinds(), compact))
      case Sanitize => r.(messages := SanitizedMessages(r.messages),
        chunks := OnChunks(r.chunks, SanitizeKinds(), sanitize))
      case Canonicalize =>
        r.(messages := canonicalMessages(r.messages), chunks := canonicalChunks(r.chunks),
          metadata := CanonicalMetadata(r.metadata))
      case AutoCompactSync => r.(chunks := OnChunks(r.chunks, SafeCompactKinds(), SafeCompacter()))
      case _ => r.(chunks := OnChunks(r.chunks, TargetKind(p), transform(p)))
    }

    function Process(p: Name, r: Request): Result<Request> {
      match p
      case Paging => if storeFails(p, r) then Failed else Ok(Recount(Rewritten(p, r)))
      case Snip => Ok(SnipFrom(SnipChunk(r), r, 0))
      case AutoCompactSync => if !Compacts(r) then Ok(r) else Ok(Recount(Rewritten(p, r)))
      case AutoCompactAsync =>
        if !Compacts(r) then Ok(r)
        else if storeFails(p, r) then Failed
        else
          var q := r.(pendingJobs := r.pendingJobs + JobIDs(r.chunks, Half(Threshold(r))));
          Ok(q.(metadata := metadataAfter(p, q)))
      case PrefixCache => if storeFails(p, r) then Failed else Ok(r.(metadata := metadataAfter(p, r)))
      case AssembleStep =>
        var prompt := assemble(r.messages, r.chunks);
        Ok(r.(optimizedPrompt := prompt, currentTokens := tokenizer.CountText(prompt), metadata := metadataAfter(p, r)))
      case _ => Ok(Recount(Rewritten(p, r)))
    }

    // ----- what every processor keeps -----

    /** The cached token count is the count. */
    predicate Counted(r: Request) {
      r.currentTokens == CountRequest(r)
    }

    predicate SameFrame(r: Request, q: Request) {
      q.budget == r.budget && q.inputTokens == r.inputTokens && q.audits == r.audits
      && q.keepHead == r.keepHead && q.keepTail == r.keepTail && q.threshold == r.threshold
    }

    ghost predicate AssemblesTrimmed() {
      forall messages, chunks :: Trimmed(assemble(messages, chunks))
    }

    predicate PromptSettled(r: Request) {
      r.optimizedPrompt == "" || !Blank(r.optimizedPrompt)
    }

    /** A processor's result next to its input: counted, in the same frame, with the same prompt. */
    predicate SnipLike(r: Request, q: Request) {
      Counted(q) && SameFrame(r, q) && q.optimizedPrompt == r.optimizedPrompt && q.messages == r.messages
    }

    lemma {:induction false} SnipKeeps(snip: Chunk -> Chunk, r: Request, i: nat)
      requires Counted(r) && i <= |r.chunks|
      ensures SnipLike(r, SnipFrom(snip, r, i))
      decreases |r.chunks| - i
    {
      if i < |r.chunks| && r.currentTokens > r.budget {
        SnipKeeps(snip, SnipTurn(snip, r, i), i + 1);
      }
    }

    lemma CanonicalizeRewrites(r: Request)
      ensures Rewritten(Canonicalize, r).messages == canonicalMessages(r.messages)
      ensures Rewritten(Canonicalize, r).chunks == canonicalChunks(r.chunks)
    {}

    /** The cached count is right and the budget and the audits are as they were. */
    predicate Keeps(r: Request, q: Request) {
      Counted(q) && SameFrame(r, q) && (PromptSettled(r) ==> PromptSettled(q))
    }

    lemma RewrittenKeepsFrame(p: Name, r: Request)
      ensures SameFrame(r, Rewritten(p, r)) && Rewritten(p, r).optimizedPrompt == r.optimizedPrompt
    {}

    lemma RewrittenKeeps(p: Name, r: Request)
      ensures Keeps(r, Recount(Rewritten(p, r)))
    {
      RewrittenKeepsFrame(p, r);
    }

    lemma AssembleKeeps(r: Request)
      requires AssemblesTrimmed()
      ensures Keeps(r, Process(AssembleStep, r).value)
    {
      TrimmedStays(assemble(r.messages, r.chunks));
    }

    /** No processor makes the cached count stale, and none touches the budget or the audits. */
    lemma ProcessKeeps(p: Name, r: Request)
      requires Counted(r) && Process(p, r).Ok? && AssemblesTrimmed()
      ensures Keeps(r, Process(p, r).value)
    {
      match p
      case Snip => SnipKeeps(SnipChunk(r), r, 0);
      case AssembleStep => AssembleKeeps(r);
      case AutoCompactAsync =>
      case PrefixCache =>
      case _ => RewrittenKeeps(p, r);
    }

    /** The chunk after its turn: small chunks stay, the others are snipped. */
    function Turned(snip: Chunk -> Chunk, chunk: Chunk): Chunk {
      if CountChunk(chunk) <= 48 then chunk else snip(chunk)
    }

    /** Chunks i to k have had their turn, the others are untouched; k short of the end means the budget is met. */
    ghost predicate StoppedAt(snip: Chunk -> Chunk, r: Request, q: Request, i: nat, k: nat) {
      && i <= k <= |r.chunks| == |q.chunks|
      && (forall j :: 0 <= j < |r.chunks| ==>
            q.chunks[j] == if i <= j < k then Turned(snip, r.chunks[j]) else r.chunks[j])
      && (k < |r.chunks| ==> q.currentTokens <= q.budget)
    }

    lemma TurnChanges(snip: Chunk -> Chunk, r: Request, i: nat)
      requires i < |r.chunks|
      ensures SnipTurn(snip, r, i).chunks == r.chunks[i := Turned(snip, r.chunks[i])]
    {}

    lemma TurnFirst(snip: Chunk -> Chunk, r: Request, next: Request, q: Request, i: nat, k: nat)
      requires i < |r.chunks| && next.chunks == r.chunks[i := Turned(snip, r.chunks[i])]
      requires StoppedAt(snip, next, q, i + 1, k)
      ensures StoppedAt(snip, r, q, i, k)
    {}

    lemma TurnUnfolds(snip: Chunk -> Chunk, r: Request, i: nat)
      requires i < |r.chunks| && r.currentTokens > r.budget
      ensures SnipFrom(snip, r, i) == SnipFrom(snip, SnipTurn(snip, r, i), i + 1)
    {}

    /** Snipping takes the chunks in order and stops as soon as the request is within budget. */
    lemma {:induction false} SnipStopsAtBudget(snip: Chunk -> Chunk, r: Request, i: nat)
      requires i <= |r.chunks|
      ensures exists k: nat :: StoppedAt(snip, r, SnipFrom(snip, r, i), i, k)
      decreases |r.chunks| - i
    {
      if i == |r.chunks| || r.currentTokens <= r.budget {
        assert SnipFrom(snip, r, i) == r && StoppedAt(snip, r, r, i, i);
      } else {
        var next := SnipTurn(snip, r, i);
        TurnChanges(snip, r, i);
        TurnUnfolds(snip, r, i);
        SnipStopsAtBudget(snip, next, i + 1);
        var k: nat :| StoppedAt(snip, next, SnipFrom(snip, next, i + 1), i + 1, k);
        TurnFirst(snip, r, next, SnipFrom(snip, next, i + 1), i, k);
      }
    }

    // ----- whole runs -----

    /** Where the chain stands in front of audit i. */
    static function Standing(audits: seq<Audit>, from: nat, start: int, i: nat): int
      requires i <= |audits|
    {
      if i <= from then start else audits[i - 1].after
    }

    /** Each audit starts where the one before it ended, the first at `start`. */
    ghost predicate Chained(audits: seq<Audit>, from: nat, start: int) {
      from <= |audits| && forall i: nat :: from <= i < |audits| ==> audits[i].before == Standing(audits, from, start, i)
    }

    lemma AuditAppended(audits: seq<Audit>, from: nat, start: int, audit: Audit)
      requires Chained(audits, from, start) && audit.before == Standing(audits, from, start, |audits|)
      ensures Chained(audits + [audit], from, start) &&
        Standing(audits + [audit], from, start, |audits| + 1) == audit.after
    {
      var more := audits + [audit];
      forall i: nat | from <= i < |more|
        ensures more[i].before == Standing(more, from, start, i)
      {
        assert Standing(more, from, start, i) == Standing(audits, from, start, i);
      }
    }

    /** What a run keeps between two steps, given the request it was started with. */
    ghost predicate OnTrack(first: Request, r: Request) {
      && Counted(r)
      && r.budget == first.budget
      && r.inputTokens == CountRequest(first)
      && first.audits <= r.audits
      && Chained(r.audits, |first.audits|, r.inputTokens)
      && Standing(r.audits, |first.audits|, r.inputTokens, |r.audits|) == r.currentTokens
      && (forall i :: |first.audits| <= i < |r.audits| && r.audits[i].aggressive ==> r.audits[i].before > r.budget)
      && (PromptSettled(first) ==> PromptSettled(r))
    }

    /** One turn of the loop of Pipeline.Run. */
    function Step(p: Name, r: Request): Result<Request> {
      if Skips(r, p) then Ok(r)
      else match Process(p, r)
        case Failed => Failed
        case Ok(next) => Ok(Audited(p, r.currentTokens, if next.currentTokens == 0 then Recount(next) else next))
    }

    function Audited(p: Name, before: int, next: Request): Request {
      next.(audits := next.audits + [Audit(DescriptorName(p), before, next.currentTokens, DescriptorOf(p).aggressive)])
    }

    function Steps(steps: seq<Name>, r: Request): Result<Request> {
      if steps == [] then Ok(r)
      else match Step(steps[0], r)
        case Failed => Failed
        case Ok(next) => Steps(steps[1..], next)
    }

    function Started(first: Request): Request {
      var r := if first.currentTokens == 0 then Recount(first) else first;
      r.(inputTokens := r.currentTokens)
    }

    function Finished(r: Request): Response {
      var prompt := assemble(r.messages, r.chunks);
      var q :=
        if Blank(r.optimizedPrompt) then r.(optimizedPrompt := prompt, currentTokens := tokenizer.CountText(prompt))
        else r;
      Response(q.optimizedPrompt, q.inputTokens, q.currentTokens, q.currentTokens <= q.budget, q)
    }

    static function DescriptorName(p: Name): string {
      match p
      case Paging => "paging"
      case Collapse => "collapse"
      case Compact => "compact"
      case Sanitize => "sanitize"
      case Canonicalize => "canonicalize"
      case JSONTrim => "json_trim"
      case TableReduce => "table_reduce"
      case CodeOutline => "code_outline"
      case ErrorStackFocus => "error_stack_focus"
      case Snip => "snip"
      case AutoCompactSync => "auto_compact_sync"
      case AutoCompactAsync => "auto_compact_async"
      case PrefixCache => "prefix_cache"
      case AssembleStep => "assemble"
    }

    lemma StepKeeps(p: Name, r: Request, first: Request)
      requires OnTrack(first, r) && AssemblesTrimmed() && Step(p, r).Ok?
      ensures OnTrack(first, Step(p, r).value)
      ensures |Step(p, r).value.audits| <= |r.audits| + 1
    {
      if !Skips(r, p) {
        ProcessKeeps(p, r);
        var next := Process(p, r).value;
        AuditAppended(r.audits, |first.audits|, r.inputTokens,
          Audit(DescriptorName(p), r.currentTokens, next.currentTokens, DescriptorOf(p).aggressive));
      }
    }

    lemma {:induction false} StepsKeep(steps: seq<Name>, r: Request, first: Request)
      requires OnTrack(first, r) && AssemblesTrimmed() && Steps(steps, r).Ok?
      ensures OnTrack(first, Steps(steps, r).value)
      ensures |Steps(steps, r).value.audits| <= |r.audits| + |steps|
    {
      if steps != [] {
        StepKeeps(steps[0], r, first);
        StepsKeep(steps[1..], Step(steps[0], r).value, first);
      }
    }

    /** What a response says is so. */
    ghost predicate Truthful(first: Request, response: Response) {
      var audits := response.request.audits;
      && response.inputTokens == CountRequest(first)
      && response.outputTokens == tokenizer.CountText(response.optimizedPrompt)
      && (response.budgetMet <==> response.outputTokens <= first.budget)
      && first.audits <= audits && Chained(audits, |first.audits|, response.inputTokens)
      && (PromptSettled(first) ==>
            Standing(audits, |first.audits|, response.inputTokens, |audits|) == response.outputTokens)
      && (forall i :: |first.audits| <= i < |audits| && audits[i].aggressive ==> audits[i].before > first.budget)
    }

    lemma {:induction false} SnipKeepsInput(snip: Chunk -> Chunk, r: Request, i: nat)
      requires i <= |r.chunks|
      ensures SnipFrom(snip, r, i).inputTokens == r.inputTokens
      decreases |r.chunks| - i
    {
      if i < |r.chunks| && r.currentTokens > r.budget {
        SnipKeepsInput(snip, SnipTurn(snip, r, i), i + 1);
      }
    }

    lemma ProcessKeepsInput(p: Name, r: Request)
      requires Process(p, r).Ok?
      ensures Process(p, r).value.inputTokens == r.inputTokens
    {
      match p
      case Snip => SnipKeepsInput(SnipChunk(r), r, 0);
      case AssembleStep =>
      case AutoCompactAsync =>
      case PrefixCache =>
      case _ => RewrittenKeepsFrame(p, r);
    }

    lemma {:induction false} StepsKeepInput(steps: seq<Name>, r: Request)
      requires Steps(steps, r).Ok?
      ensures Steps(steps, r).value.inputTokens == r.inputTokens
    {
      if steps != [] {
        if !Skips(r, steps[0]) {
          ProcessKeepsInput(steps[0], r);
        }
        StepsKeepInput(steps[1..], Step(steps[0], r).value);
      }
    }

    /** Every step list: the response is truthful exactly when the count the caller cached is right or left at zero. */
    lemma RunIsTruthfulExactly(steps: seq<Name>, first: Request)
      requires AssemblesTrimmed() && Steps(steps, Started(first)).Ok?
      ensures Truthful(first, Finished(Steps(steps, Started(first)).value)) <==>
        first.currentTokens == 0 || Counted(first)
    {
      if first.currentTokens == 0 || Counted(first) {
        StepsKeep(steps, Started(first), first);
      } else {
        StepsKeepInput(steps, Started(first));
      }
    }
  }
}
