/** Requests as the processors hold them: records with arrays, copied before they are written to. */
module RequestHeap {
  import opened Text
  import opened Seqs
  import opened Content
  import opened Compaction
  import opened Pipeline

  /** A chunk as it lies in a request: its fragments are an array of their own. */
  datatype Slot = Slot(id: string, source: string, sources: seq<string>, pageRefs: seq<string>,
                       fragments: array<Fragment>)

  ghost predicate SlotShows(slot: Slot, chunk: Chunk)
    reads slot.fragments
  {
    && slot.id == chunk.id && slot.source == chunk.source && slot.sources == chunk.sources &&
      slot.pageRefs == chunk.pageRefs
    && slot.fragments[..] == chunk.fragments
  }

  function ValueOf(slot: Slot): Chunk
    reads slot.fragments
  {
    Chunk(slot.id, slot.source, slot.sources, slot.fragments[..], slot.pageRefs)
  }

  class RefineRequest {
    var messages: array<Message>
    var chunks: array<Slot>
    var budget: int
    var keepHead: int
    var keepTail: int
    var threshold: int
    var currentTokens: int
    var inputTokens: int
    var optimizedPrompt: string
    var audits: seq<Audit>
    var metadata: map<string, string>
    var pendingJobs: seq<string>

    /** The fields that are not arrays. */
    ghost predicate ScalarsShow(v: Request)
      reads this
    {
      v == Request(v.messages, v.chunks, budget, keepHead, keepTail, threshold, currentTokens, inputTokens,
                   optimizedPrompt, audits, metadata, pendingJobs)
    }

    ghost function Arrays(): set<array<Fragment>>
      reads this`chunks, chunks
    {
      set i | 0 <= i < chunks.Length :: chunks[i].fragments
    }

    ghost predicate ChunksShow(values: seq<Chunk>)
      reads this`chunks, chunks, Arrays()
    {
      |values| == chunks.Length && forall i :: 0 <= i < |values| ==> SlotShows(chunks[i], values[i])
    }

    /** The request, read as a value, is `v`. */
    ghost predicate Shows(v: Request)
      reads this, messages, chunks, Arrays()
    {
      ScalarsShow(v) && messages[..] == v.messages && ChunksShow(v.chunks)
    }

    /** No two chunks share an array. */
    ghost predicate Separate()
      reads this`chunks, chunks
    {
      forall i, j :: 0 <= i < j < chunks.Length ==> chunks[i].fragments != chunks[j].fragments
    }

    /** The other fields of `r`, with arrays of its own. */
    constructor CopyOf(r: RefineRequest, messages: array<Message>, chunks: array<Slot>)
      ensures this.messages == messages && this.chunks == chunks
      ensures SameScalars(r)
    {
      this.messages, this.chunks := messages, chunks;
      budget, keepHead, keepTail, threshold := r.budget, r.keepHead, r.keepTail, r.threshold;
      currentTokens, inputTokens, optimizedPrompt := r.currentTokens, r.inputTokens, r.optimizedPrompt;
      audits, metadata, pendingJobs := r.audits, r.metadata, r.pendingJobs;
    }

    ghost predicate SameScalars(r: RefineRequest)
      reads this, r
    {
      forall v: Request {:trigger ScalarsShow(v)} :: r.ScalarsShow(v) <==> ScalarsShow(v)
    }

    /** The chunks as values. */
    method ReadChunks() returns (values: seq<Chunk>)
      ensures ChunksShow(values)
    {
      values := [];
      for i := 0 to chunks.Length
        invariant |values| == i && forall k :: 0 <= k < i ==> SlotShows(chunks[k], values[k])
      {
        values := values + [ValueOf(chunks[i])];
      }
    }

    method Snapshot() returns (v: Request)
      ensures Shows(v)
    {
      var values := ReadChunks();
      v := Request(messages[..], values, budget, keepHead, keepTail, threshold, currentTokens, inputTokens,
                   optimizedPrompt, audits, metadata, pendingJobs);
    }

    /** The chunks show one list only. */
    lemma ChunksShowOne(a: seq<Chunk>, b: seq<Chunk>)
      requires ChunksShow(a) && ChunksShow(b)
      ensures a == b
    {
      assert forall i :: 0 <= i < |a| ==> SlotShows(chunks[i], a[i]) && SlotShows(chunks[i], b[i]);
    }

    /** A request shows one value only. */
    lemma ShowsOne(v: Request, w: Request)
      requires Shows(v) && Shows(w)
      ensures v == w
    {
      ChunksShowOne(v.chunks, w.chunks);
    }
  }

  // ----- copying -----

  method CopyMessages(a: array<Message>) returns (b: array<Message>)
    ensures fresh(b) && b[..] == a[..]
  {
    b := new Message[a.Length](i requires 0 <= i < a.Length reads a => a[i]);
  }

  method CopyFragments(a: array<Fragment>) returns (b: array<Fragment>)
    ensures fresh(b) && b[..] == a[..]
  {
    b := new Fragment[a.Length](i requires 0 <= i < a.Length reads a => a[i]);
  }

  ghost predicate Apart(slots: seq<Slot>) {
    forall i, j :: 0 <= i < j < |slots| ==> slots[i].fragments != slots[j].fragments
  }

  /** The chunk loop of cloneRequest. */
  method CopySlots(chunks: array<Slot>) returns (slots: seq<Slot>)
    ensures |slots| == chunks.Length && Apart(slots)
    ensures forall i :: 0 <= i < |slots| ==> fresh(slots[i].fragments) && SlotShows(slots[i], ValueOf(chunks[i]))
  {
    slots := [];
    for i := 0 to chunks.Length
      invariant |slots| == i && Apart(slots)
      invariant forall k :: 0 <= k < i ==> fresh(slots[k].fragments) && SlotShows(slots[k], ValueOf(chunks[k]))
    {
      var fragments := CopyFragments(chunks[i].fragments);
      slots := slots + [chunks[i].(fragments := fragments)];
    }
  }

  /** cloneRequest: the copy shows the same value and shares nothing that a processor writes to. */
  method CloneRequest(r: RefineRequest, ghost v: Request) returns (q: RefineRequest)
    requires r.Shows(v)
    ensures fresh(q) && fresh(q.messages) && fresh(q.chunks) && fresh(q.Arrays())
    ensures q.Separate() && q.Shows(v)
  {
    var messages := CopyMessages(r.messages);
    var slots := CopySlots(r.chunks);
    var chunks := new Slot[|slots|](i requires 0 <= i < |slots| => slots[i]);
    q := new RefineRequest.CopyOf(r, messages, chunks);
  }

  // ----- writing to the copy -----

  function Change(f: Fragment, eligible: string -> bool, change: string -> string): Fragment {
    if eligible(f.kind) then f.(content := change(f.content)) else f
  }

  lemma OnFragmentsAll(fragments: seq<Fragment>, eligible: string -> bool, change: string -> string, out: seq<Fragment>)
    requires |out| == |fragments| && forall k :: 0 <= k < |out| ==> out[k] == Change(fragments[k], eligible, change)
    ensures out == OnFragments(fragments, eligible, change)
  {
    forall k | 0 <= k < |out|
      ensures |OnFragments(fragments, eligible, change)| == |out| &&
        OnFragments(fragments, eligible, change)[k] == out[k]
    {
      OnFragmentsAt(fragments, eligible, change, k);
    }
    if out == [] {
      assert fragments == [];
    } else {
      OnFragmentsAt(fragments, eligible, change, 0);
    }
  }

  /** The fragment loops of the snipping and compacting processors: only a content that changes is written. */
  method ChangeFragments(fragments: array<Fragment>, eligible: string -> bool, change: string -> string)
    returns (changed: bool)
    modifies fragments
    ensures fragments[..] == OnFragments(old(fragments[..]), eligible, change)
    ensures changed <==> fragments[..] != old(fragments[..])
  {
    changed := false;
    ghost var was := fragments[..];
    for j := 0 to fragments.Length
      invariant forall k :: 0 <= k < fragments.Length ==>
        fragments[k] == if k < j then Change(was[k], eligible, change) else was[k]
      invariant changed <==> fragments[..] != was
    {
      if eligible(fragments[j].kind) {
        var next := change(fragments[j].content);
        if next != fragments[j].content {
          fragments[j] := fragments[j].(content := next);
          assert fragments[..][j] != was[j];
          changed := true;
        }
      }
    }
    OnFragmentsAll(was, eligible, change, fragments[..]);
  }

  lemma {:induction false} OnChunksAt(chunks: seq<Chunk>, eligible: string -> bool, change: string -> string)
    ensures |OnChunks(chunks, eligible, change)| == |chunks|
    ensures forall i :: 0 <= i < |chunks| ==>
      OnChunks(chunks, eligible, change)[i] == ChangeChunk(chunks[i], eligible, change)
  {
    if chunks != [] {
      OnChunksAt(chunks[1..], eligible, change);
    }
  }

  /** A content transform on every eligible fragment, in place. */
  method ChangeChunks(q: RefineRequest, ghost values: seq<Chunk>, eligible: string -> bool, change: string -> string)
    requires q.ChunksShow(values) && q.Separate()
    modifies q.Arrays()
    ensures q.ChunksShow(OnChunks(values, eligible, change))
  {
    OnChunksAt(values, eligible, change);
    for i := 0 to q.chunks.Length
      invariant forall k :: 0 <= k < |values| ==>
        SlotShows(q.chunks[k], if k < i then ChangeChunk(values[k], eligible, change) else values[k])
    {
      var changed := ChangeFragments(q.chunks[i].fragments, eligible, change);
    }
  }

  lemma {:induction false} OnMessagesAt(messages: seq<Message>, change: string -> string)
    ensures |OnMessages(messages, change)| == |messages|
    ensures forall i :: 0 <= i < |messages| ==>
      OnMessages(messages, change)[i] == messages[i].(content := change(messages[i].content))
  {
    if messages != [] {
      OnMessagesAt(messages[1..], change);
    }
  }

  method ChangeMessages(messages: array<Message>, change: string -> string)
    modifies messages
    ensures messages[..] == OnMessages(old(messages[..]), change)
  {
    ghost var was := messages[..];
    OnMessagesAt(was, change);
    for i := 0 to messages.Length
      invariant forall k :: 0 <= k < messages.Length ==>
        messages[k] == if k < i then was[k].(content := change(was[k].content)) else was[k]
    {
      messages[i] := messages[i].(content := change(messages[i].content));
    }
    assert messages[..] == OnMessages(was, change);
  }

  // ----- processors on requests -----

  /** CurrentTokens is written again from a full count. */
  method RecountIn(env: Env, q: RefineRequest, ghost u: Request)
    requires q.Shows(u)
    modifies q`currentTokens
    ensures q.Shows(env.Recount(u))
  {
    var now := q.Snapshot();
    q.ShowsOne(now, u);
    q.currentTokens := env.CountRequest(now);
  }

  /** A content transform on every eligible fragment, and a new count. */
  method RewriteChunks(env: Env, q: RefineRequest, kinds: string -> bool, change: string -> string, ghost v: Request)
    requires q.Shows(v) && q.Separate()
    modifies q`currentTokens, q.Arrays()
    ensures q.Shows(env.Recount(v.(chunks := OnChunks(v.chunks, kinds, change))))
  {
    ChangeChunks(q, v.chunks, kinds, change);
    RecountIn(env, q, v.(chunks := OnChunks(v.chunks, kinds, change)));
  }

  method CompactRequest(env: Env, r: RefineRequest, ghost v: Request) returns (q: RefineRequest)
    requires r.Shows(v)
    ensures fresh(q) && fresh(q.messages) && fresh(q.chunks) && fresh(q.Arrays())
    ensures q.Shows(env.Process(Compact, v).value)
  {
    q := CloneRequest(r, v);
    ghost var w := v.(messages := OnMessages(v.messages, env.compact));
    ChangeMessages(q.messages, env.compact);
    assert q.Shows(w);
    RewriteChunks(env, q, AllKinds(), env.compact, w);
  }

  method AutoCompact(env: Env, r: RefineRequest, ghost v: Request) returns (q: RefineRequest)
    requires r.Shows(v)
    ensures fresh(q) && fresh(q.messages) && fresh(q.chunks) && fresh(q.Arrays())
    ensures q.Shows(env.Process(AutoCompactSync, v).value)
  {
    q := CloneRequest(r, v);
    var threshold := if q.threshold <= 0 then q.budget else q.threshold;
    if !(q.currentTokens <= q.budget || q.currentTokens <= threshold) {
      RewriteChunks(env, q, SafeCompactKinds(), SafeCompacter(), v);
    }
  }

  /** The message loop of SanitizeProcessor.Process. */
  method SanitizeMessages(env: Env, messages: array<Message>)
    modifies messages
    ensures messages[..] == env.SanitizedMessages(old(messages[..]))
  {
    ghost var was := messages[..];
    env.SanitizeSparesActiveTurn(was);
    for i := 0 to messages.Length
      invariant forall k :: 0 <= k < messages.Length ==>
        messages[k] == if k < i then env.SanitizedOne(was, k) else was[k]
    {
      if !(i == messages.Length - 1 && !env.isSystem(messages[i].role)) {
        messages[i] := messages[i].(content := env.sanitize(messages[i].content));
      }
    }
    assert messages[..] == env.SanitizedMessages(was);
  }

  method SanitizeRequest(env: Env, r: RefineRequest, ghost v: Request) returns (q: RefineRequest)
    requires r.Shows(v)
    ensures fresh(q) && fresh(q.messages) && fresh(q.chunks) && fresh(q.Arrays())
    ensures q.Shows(env.Process(Sanitize, v).value)
  {
    q := CloneRequest(r, v);
    SanitizeMessages(env, q.messages);
    RewriteChunks(env, q, SanitizeKinds(), env.sanitize, v.(messages := env.SanitizedMessages(v.messages)));
  }

  /** One chunk's turn in SnipProcessor.Process. */
  method SnipOne(env: Env, q: RefineRequest, i: nat, change: string -> string, ghost u: Request)
    requires q.Shows(u) && q.Separate() && i < q.chunks.Length
    modifies q`currentTokens, q.chunks[i].fragments
    ensures q.Shows(env.SnipTurn(SnipBy(change), u, i))
  {
    if env.CountChunk(ValueOf(q.chunks[i])) <= 48 {
      return;
    }
    var changed := ChangeFragments(q.chunks[i].fragments, SnipKinds(), change);
    if changed {
      RecountIn(env, q, u.(chunks := u.chunks[i := SnipBy(change)(u.chunks[i])]));
    }
  }

  /** What is left to do from chunk i on leads to the goal. */
  ghost predicate Snipping(env: Env, q: RefineRequest, change: string -> string, u: Request, i: nat, goal: Request)
    reads q, q.messages, q.chunks, q.Arrays()
  {
    q.Shows(u) && q.Separate() && i <= |u.chunks| && env.SnipFrom(SnipBy(change), u, i) == goal
  }

  /** One turn of the chunk loop, and what is left of it. */
  method SnipNext(env: Env, q: RefineRequest, i: nat, change: string -> string, ghost u: Request, ghost goal: Request)
    returns (ghost u': Request)
    requires Snipping(env, q, change, u, i, goal) && i < q.chunks.Length && q.currentTokens > q.budget
    modifies q`currentTokens, q.chunks[i].fragments
    ensures Snipping(env, q, change, u', i + 1, goal)
  {
    SnipOne(env, q, i, change, u);
    u' := env.SnipTurn(SnipBy(change), u, i);
  }

  /** The chunk loop of SnipProcessor.Process. */
  method SnipLoop(env: Env, q: RefineRequest, change: string -> string, ghost v: Request)
    requires q.Shows(v) && q.Separate()
    modifies q`currentTokens, q.Arrays()
    ensures q.Shows(env.SnipFrom(SnipBy(change), v, 0))
  {
    var i := 0;
    ghost var u, goal, arrays := v, env.SnipFrom(SnipBy(change), v, 0), q.Arrays();
    while i < q.chunks.Length && q.currentTokens > q.budget
      invariant i <= q.chunks.Length
      invariant Snipping(env, q, change, u, i, goal)
    {
      u := SnipNext(env, q, i, change, u, goal);
      i := i + 1;
    }
  }

  method SnipRequest(env: Env, r: RefineRequest, ghost v: Request) returns (q: RefineRequest)
    requires r.Shows(v)
    ensures fresh(q) && fresh(q.messages) && fresh(q.chunks) && fresh(q.Arrays())
    ensures q.Shows(env.Process(Snip, v).value)
  {
    q := CloneRequest(r, v);
    var change := SnipChange(if q.keepHead <= 0 then 18 else q.keepHead, if q.keepTail <= 0 then 8 else q.keepTail);
    if q.currentTokens > q.budget {
      SnipLoop(env, q, change, v);
    }
  }

  // ----- processors that put new chunks or new lists in place of old ones -----

  lemma {:induction false} PagedAt(env: Env, chunks: seq<Chunk>)
    ensures |env.Paged(chunks)| == |chunks|
    ensures forall i :: 0 <= i < |chunks| ==> env.Paged(chunks)[i] == env.PagedOne(chunks[i])
  {
    if chunks != [] {
      PagedAt(env, chunks[1..]);
    }
  }

  method PlaceChunk(c: Chunk) returns (slot: Slot)
    ensures fresh(slot.fragments) && SlotShows(slot, c)
  {
    var fragments := new Fragment[|c.fragments|](j requires 0 <= j < |c.fragments| => c.fragments[j]);
    slot := Slot(c.id, c.source, c.sources, c.pageRefs, fragments);
  }

  /** A chunk over the limit gives way to its first page. */
  method PageSlot(env: Env, slot: Slot, ghost value: Chunk, ghost paged: Chunk) returns (out: Slot)
    requires SlotShows(slot, value) && paged == env.PagedOne(value)
    ensures SlotShows(out, paged)
    ensures out == slot || fresh(out.fragments)
  {
    out := slot;
    var chunk := ValueOf(slot);
    assert chunk == value;
    if env.CountChunk(chunk) > env.pageLimit {
      out := PlaceChunk(env.pageOut(chunk));
    }
  }

  /** One chunk's turn in PagingProcessor.Process. */
  method PageAt(env: Env, q: RefineRequest, i: nat, ghost value: Chunk, ghost paged: Chunk) returns (ghost out: Slot)
    requires i < q.chunks.Length && SlotShows(q.chunks[i], value) && paged == env.PagedOne(value)
    modifies q.chunks
    ensures q.chunks[..] == old(q.chunks[..])[i := out] && SlotShows(out, paged)
    ensures out == old(q.chunks[i]) || fresh(out.fragments)
  {
    var slot := PageSlot(env, q.chunks[i], value, paged);
    q.chunks[i] := slot;
    out := slot;
  }

  /** The first i slots show their paged chunks, the others are as they were. */
  ghost predicate PagedUpTo(slots: seq<Slot>, was: seq<Slot>, paged: seq<Chunk>, i: nat)
    reads set k | 0 <= k < |slots| :: slots[k].fragments
  {
    && |slots| == |was| == |paged|
    && (forall k :: 0 <= k < |slots| && k < i ==> SlotShows(slots[k], paged[k]))
    && (forall k :: i <= k < |slots| ==> slots[k] == was[k])
  }

  /** The chunk loop of PagingProcessor.Process. */
  method PageChunks(env: Env, q: RefineRequest, ghost values: seq<Chunk>, ghost paged: seq<Chunk>)
    requires q.ChunksShow(values) && |paged| == |values|
    requires forall k :: 0 <= k < |values| ==> paged[k] == env.PagedOne(values[k])
    modifies q.chunks
    ensures q.ChunksShow(paged)
    ensures forall k :: 0 <= k < q.chunks.Length ==> q.chunks[k] == old(q.chunks[k]) || fresh(q.chunks[k].fragments)
  {
    ghost var was := q.chunks[..];
    for i := 0 to q.chunks.Length
      invariant PagedUpTo(q.chunks[..], was, paged, i)
      invariant forall k :: 0 <= k < q.chunks.Length ==> q.chunks[k] == was[k] || fresh(q.chunks[k].fragments)
    {
      assert q.chunks[..][i] == was[i];
      var _ := PageAt(env, q, i, values[i], paged[i]);
    }
  }

  /** A clone, its arrays listed. */
  method ClonedSlots(r: RefineRequest, ghost v: Request) returns (q: RefineRequest, ghost was: seq<Slot>)
    requires r.Shows(v)
    ensures fresh(q) && fresh(q.messages) && fresh(q.chunks) && q.Shows(v)
    ensures was == q.chunks[..] && forall k :: 0 <= k < |was| ==> fresh(was[k].fragments)
  {
    q := CloneRequest(r, v);
    was := q.chunks[..];
    assert forall k :: 0 <= k < |was| ==> was[k].fragments in q.Arrays();
  }

  method PagedClone(env: Env, r: RefineRequest, ghost v: Request, ghost paged: seq<Chunk>) returns (q: RefineRequest)
    requires r.Shows(v) && |paged| == |v.chunks|
    requires forall k :: 0 <= k < |paged| ==> paged[k] == env.PagedOne(v.chunks[k])
    ensures fresh(q) && fresh(q.messages) && fresh(q.chunks) && fresh(q.Arrays())
    ensures q.Shows(v.(chunks := paged))
  {
    ghost var was;
    q, was := ClonedSlots(r, v);
    PageChunks(env, q, v.chunks, paged);
  }

  method PageRequest(env: Env, r: RefineRequest, ghost v: Request) returns (q: RefineRequest)
    requires r.Shows(v)
    ensures fresh(q) && fresh(q.messages) && fresh(q.chunks) && fresh(q.Arrays())
    ensures q.Shows(env.Recount(env.Rewritten(Paging, v)))
  {
    ghost var paged := env.Paged(v.chunks);
    PagedAt(env, v.chunks);
    q := PagedClone(env, r, v, paged);
    RecountIn(env, q, v.(chunks := paged));
  }

  /** A list of chunks of its own in place of the old one. */
  method ReplaceChunks(q: RefineRequest, values: seq<Chunk>)
    modifies q`chunks
    ensures fresh(q.chunks) && fresh(q.Arrays()) && q.ChunksShow(values)
  {
    var slots: seq<Slot> := [];
    for i := 0 to |values|
      invariant |slots| == i && forall k :: 0 <= k < i ==> fresh(slots[k].fragments) && SlotShows(slots[k], values[k])
    {
      var slot := PlaceChunk(values[i]);
      slots := slots + [slot];
    }
    q.chunks := new Slot[|slots|](i requires 0 <= i < |slots| => slots[i]);
  }

  method CollapseRequest(env: Env, r: RefineRequest, ghost v: Request) returns (q: RefineRequest)
    requires r.Shows(v)
    ensures fresh(q) && fresh(q.messages) && fresh(q.chunks) && fresh(q.Arrays())
    ensures q.Shows(env.Recount(env.Rewritten(Collapse, v)))
  {
    q := CloneRequest(r, v);
    var chunks := q.ReadChunks();
    q.ChunksShowOne(chunks, v.chunks);
    ReplaceChunks(q, env.collapse(chunks));
    ChangeMessages(q.messages, env.squeeze);
    RecountIn(env, q, env.Rewritten(Collapse, v));
  }

  method CanonicalRequest(env: Env, r: RefineRequest, ghost v: Request) returns (q: RefineRequest)
    requires r.Shows(v)
    ensures fresh(q) && fresh(q.messages) && fresh(q.chunks) && fresh(q.Arrays())
    ensures q.Shows(env.Recount(env.Rewritten(Canonicalize, v)))
  {
    q := CloneRequest(r, v);
    var chunks := q.ReadChunks();
    q.ChunksShowOne(chunks, v.chunks);
    ReplaceMessages(q, env.canonicalMessages(q.messages[..]));
    ReplaceChunks(q, env.canonicalChunks(chunks));
    q.metadata := CanonicalMetadata(q.metadata);
    env.CanonicalizeRewrites(v);
    RecountIn(env, q, env.Rewritten(Canonicalize, v));
  }

  method ReplaceMessages(q: RefineRequest, messages: seq<Message>)
    modifies q`messages
    ensures fresh(q.messages) && q.messages[..] == messages
  {
    q.messages := new Message[|messages|](i requires 0 <= i < |messages| => messages[i]);
  }

  predicate Transforms(p: Name) {
    p in {JSONTrim, TableReduce, CodeOutline, ErrorStackFocus}
  }

  method TransformRequest(env: Env, p: Name, r: RefineRequest, ghost v: Request) returns (q: RefineRequest)
    requires r.Shows(v) && Transforms(p)
    ensures fresh(q) && fresh(q.messages) && fresh(q.chunks) && fresh(q.Arrays())
    ensures q.Shows(env.Recount(env.Rewritten(p, v)))
  {
    q := CloneRequest(r, v);
    RewriteChunks(env, q, TargetKind(p), env.transform(p), v);
  }

  // ----- processors that write other fields only -----

  /** The chunk loop of AutoCompactAsyncProcessor.Process. */
  method CollectJobs(env: Env, chunks: seq<Chunk>, floor: int) returns (ids: seq<string>)
    ensures ids == env.JobIDs(chunks, floor)
  {
    ids := [];
    var todo := chunks;
    while |todo| > 0
      invariant ids + env.JobIDs(todo, floor) == env.JobIDs(chunks, floor)
    {
      Assoc(ids, env.JobIDOf(todo[0], floor), env.JobIDs(todo[1..], floor));
      ids := ids + env.JobIDOf(todo[0], floor);
      todo := todo[1..];
    }
  }

  method EnqueueJobs(env: Env, q: RefineRequest, floor: int, ghost v: Request)
    requires q.Shows(v)
    modifies q`pendingJobs, q`metadata
    ensures var w := v.(pendingJobs := v.pendingJobs + env.JobIDs(v.chunks, floor));
      q.Shows(w.(metadata := env.metadataAfter(AutoCompactAsync, w)))
  {
    var chunks := q.ReadChunks();
    q.ChunksShowOne(chunks, v.chunks);
    var ids := CollectJobs(env, chunks, floor);
    q.pendingJobs := q.pendingJobs + ids;
    var now := q.Snapshot();
    q.ShowsOne(now, v.(pendingJobs := v.pendingJobs + ids));
    q.metadata := env.metadataAfter(AutoCompactAsync, now);
  }

  method AsyncRequest(env: Env, r: RefineRequest, ghost v: Request) returns (q: RefineRequest)
    requires r.Shows(v) && env.Process(AutoCompactAsync, v).Ok?
    ensures fresh(q) && fresh(q.messages) && fresh(q.chunks) && fresh(q.Arrays())
    ensures q.Shows(env.Process(AutoCompactAsync, v).value)
  {
    q := CloneRequest(r, v);
    var threshold := if q.threshold <= 0 then q.budget else q.threshold;
    if q.currentTokens > q.budget && q.currentTokens > threshold {
      EnqueueJobs(env, q, env.Half(threshold), v);
    }
    AsyncMeans(env, v);
  }

  lemma AsyncMeans(env: Env, v: Request)
    requires env.Process(AutoCompactAsync, v).Ok?
    ensures env.Process(AutoCompactAsync, v).value ==
      if v.currentTokens > v.budget && v.currentTokens > env.Threshold(v) then
        var w := v.(pendingJobs := v.pendingJobs + env.JobIDs(v.chunks, env.Half(env.Threshold(v))));
        w.(metadata := env.metadataAfter(AutoCompactAsync, w))
      else v
  {}

  method PrefixCacheRequest(env: Env, r: RefineRequest, ghost v: Request) returns (q: RefineRequest)
    requires r.Shows(v)
    ensures fresh(q) && fresh(q.messages) && fresh(q.chunks) && fresh(q.Arrays())
    ensures q.Shows(v.(metadata := env.metadataAfter(PrefixCache, v)))
  {
    q := CloneRequest(r, v);
    var now := q.Snapshot();
    q.ShowsOne(now, v);
    q.metadata := env.metadataAfter(PrefixCache, now);
  }

  method AssembleRequest(env: Env, r: RefineRequest, ghost v: Request) returns (q: RefineRequest)
    requires r.Shows(v)
    ensures fresh(q) && fresh(q.messages) && fresh(q.chunks) && fresh(q.Arrays())
    ensures q.Shows(env.Process(AssembleStep, v).value)
  {
    q := CloneRequest(r, v);
    var now := q.Snapshot();
    q.ShowsOne(now, v);
    var prompt := env.assemble(now.messages, now.chunks);
    WritePrompt(q, prompt, env.tokenizer.CountText(prompt), env.metadataAfter(AssembleStep, now), v);
  }

  method WritePrompt(q: RefineRequest, prompt: string, tokens: int, metadata: map<string, string>, ghost v: Request)
    requires q.Shows(v)
    modifies q`optimizedPrompt, q`currentTokens, q`metadata
    ensures q.Shows(v.(optimizedPrompt := prompt, currentTokens := tokens, metadata := metadata))
  {
    q.optimizedPrompt, q.currentTokens, q.metadata := prompt, tokens, metadata;
  }

  // ----- every processor, and whole runs -----

  /** A processor's Process: a clone that is written to, or an error; the request it was given is only read. */
  method ProcessRequest(env: Env, p: Name, r: RefineRequest, ghost v: Request) returns (result: Result<RefineRequest>)
    requires r.Shows(v)
    ensures result.Ok? <==> env.Process(p, v).Ok?
    ensures result.Ok? ==>
      && fresh(result.value) && fresh(result.value.messages) && fresh(result.value.chunks)
      && fresh(result.value.Arrays())
    ensures result.Ok? ==> result.value.Shows(env.Process(p, v).value)
  {
    var now := r.Snapshot();
    r.ShowsOne(now, v);
    if env.Process(p, now).Failed? {
      return Failed;
    }
    var q: RefineRequest;
    match p {
      case Paging => q := PageRequest(env, r, v);
      case Collapse => q := CollapseRequest(env, r, v);
      case Compact => q := CompactRequest(env, r, v);
      case Sanitize => q := SanitizeRequest(env, r, v);
      case Canonicalize => q := CanonicalRequest(env, r, v);
      case Snip => q := SnipRequest(env, r, v);
      case AutoCompactSync => q := AutoCompact(env, r, v);
      case AutoCompactAsync => q := AsyncRequest(env, r, v);
      case PrefixCache => q := PrefixCacheRequest(env, r, v);
      case AssembleStep => q := AssembleRequest(env, r, v);
      case _ => q := TransformRequest(env, p, r, v);
    }
    return Ok(q);
  }

  /** One turn of the loop of Pipeline.Run. */
  method StepRequest(env: Env, p: Name, r: RefineRequest, ghost u: Request) returns (result: Result<RefineRequest>)
    requires r.Shows(u)
    ensures result.Ok? <==> env.Step(p, u).Ok?
    ensures result.Ok? ==> result.value == r || fresh(result.value)
    ensures result.Ok? ==> result.value.Shows(env.Step(p, u).value)
  {
    var now := r.Snapshot();
    r.ShowsOne(now, u);
    if env.Skips(now, p) {
      return Ok(r);
    }
    result := ProcessRequest(env, p, r, u);
    if result.Ok? {
      AuditRequest(env, p, r.currentTokens, result.value, env.Process(p, u).value);
    }
  }

  /** A request that was not counted is counted, and the step is added to its audits. */
  method AuditRequest(env: Env, p: Name, before: int, q: RefineRequest, ghost next: Request)
    requires q.Shows(next)
    modifies q`currentTokens, q`audits
    ensures q.Shows(env.Audited(p, before, if next.currentTokens == 0 then env.Recount(next) else next))
  {
    if q.currentTokens == 0 {
      RecountIn(env, q, next);
    }
    q.audits := q.audits + [Audit(env.DescriptorName(p), before, q.currentTokens, env.DescriptorOf(p).aggressive)];
  }

  /** Pipeline.Run on the caller's request: it may write three of its fields, and the messages and chunks are as they
      were. */
  method RunRequest(env: Env, steps: seq<Name>, first: RefineRequest, ghost v: Request)
    returns (result: Result<Response>)
    requires first.Shows(v)
    modifies first`currentTokens, first`inputTokens, first`optimizedPrompt
    ensures match env.Steps(steps, env.Started(v))
      case Failed => result == Failed
      case Ok(last) => result == Ok(env.Finished(last))
    ensures first.Shows(v.(currentTokens := first.currentTokens, inputTokens := first.inputTokens,
      optimizedPrompt := first.optimizedPrompt))
  {
    var r := first;
    if r.currentTokens == 0 {
      RecountIn(env, r, v);
    }
    r.inputTokens := r.currentTokens;
    ghost var u := env.Started(v);
    var todo := steps;
    while |todo| > 0
      invariant r.Shows(u) && (r == first || fresh(r))
      invariant env.Steps(todo, u) == env.Steps(steps, env.Started(v))
    {
      var next := StepRequest(env, todo[0], r, u);
      if next.Failed? {
        return Failed;
      }
      u := env.Step(todo[0], u).value;
      todo, r := todo[1..], next.value;
    }
    var response := FinishRequest(env, r, u);
    result := Ok(response);
  }

  /** The end of Pipeline.Run: a request without a prompt gets one, and the response repeats what the request says. */
  method FinishRequest(env: Env, r: RefineRequest, ghost u: Request) returns (response: Response)
    requires r.Shows(u)
    modifies r`currentTokens, r`optimizedPrompt
    ensures response == env.Finished(u)
    ensures r.Shows(env.Finished(u).request)
  {
    if Blank(r.optimizedPrompt) {
      var now := r.Snapshot();
      r.ShowsOne(now, u);
      r.optimizedPrompt := env.assemble(now.messages, now.chunks);
      r.currentTokens := env.tokenizer.CountText(r.optimizedPrompt);
    }
    var last := r.Snapshot();
    r.ShowsOne(last, env.Finished(u).request);
    response := Response(r.optimizedPrompt, r.inputTokens, r.currentTokens, r.currentTokens <= r.budget, last);
  }
}
