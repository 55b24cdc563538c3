/** Which steps of a run take their turn, what their audits say, and what the content steps change. */
module PipelineRuns {
  import opened Text
  import opened Seqs
  import opened Content
  import opened Compaction
  import opened Pipeline

  // ----- which steps are due -----

  predicate OverBudget(r: Request) {
    r.currentTokens > r.budget
  }

  predicate HasFragments(r: Request) {
    exists i :: 0 <= i < |r.chunks| && r.chunks[i].fragments != []
  }

  /** Whether a step takes its turn, processor by processor. */
  predicate Due(env: Env, p: Name, r: Request) {
    match p
    case Paging => HasFragments(r) && (env.pageLimit < 0 || r.currentTokens > env.pageLimit)
    case JSONTrim => OverBudget(r) && HasFragments(r) && r.currentTokens >= 64
    case TableReduce => OverBudget(r) && HasFragments(r) && r.currentTokens >= 64
    case CodeOutline => OverBudget(r) && HasFragments(r) && r.currentTokens >= 96
    case ErrorStackFocus => OverBudget(r) && HasFragments(r) && r.currentTokens >= 48
    case Snip => OverBudget(r) && HasFragments(r) && r.currentTokens >= 48
    case AutoCompactSync => HasFragments(r)
    case AutoCompactAsync => OverBudget(r) && HasFragments(r)
    case _ => Always(p)
  }

  /** The steps that nothing holds back. */
  predicate Always(p: Name) {
    p in {Collapse, Compact, Sanitize, Canonicalize, PrefixCache, AssembleStep}
  }

  lemma SkipsExactly(env: Env, p: Name, r: Request)
    ensures env.Skips(r, p) <==> !Due(env, p, r)
  {
    assert HasFragments(r) <==> !(forall i :: 0 <= i < |r.chunks| ==> r.chunks[i].fragments == []);
  }

  // ----- one turn -----

  /** A due step hands on what its processor makes of the request, recounted if the count is zero, with one more audit;
      any other step hands on the request. */
  ghost predicate Turn(env: Env, p: Name, r: Request, q: Request) {
    if !Due(env, p, r) then q == r
    else
      && env.Process(p, r).Ok?
      && var done := env.Process(p, r).value;
      && q == done.(currentTokens := q.currentTokens, audits := q.audits)
      && q.currentTokens == (if done.currentTokens == 0 then env.CountRequest(done) else done.currentTokens)
      && |q.audits| == |r.audits| + 1 && q.audits[..|r.audits|] == r.audits
      && var audit := q.audits[|r.audits|];
      && audit.name == Env.DescriptorName(p)
      && audit.before == r.currentTokens && audit.after == q.currentTokens
      && (audit.aggressive <==> p in {JSONTrim, TableReduce, CodeOutline, ErrorStackFocus, Snip, AutoCompactAsync})
  }

  lemma {:induction false} SnipKeepsAudits(env: Env, snip: Chunk -> Chunk, r: Request, i: nat)
    requires i <= |r.chunks|
    ensures env.SnipFrom(snip, r, i).audits == r.audits
    decreases |r.chunks| - i
  {
    if i < |r.chunks| && r.currentTokens > r.budget {
      SnipKeepsAudits(env, snip, env.SnipTurn(snip, r, i), i + 1);
    }
  }

  lemma ProcessKeepsAudits(env: Env, p: Name, r: Request)
    requires env.Process(p, r).Ok?
    ensures env.Process(p, r).value.audits == r.audits
  {
    match p
    case Snip => SnipKeepsAudits(env, SnipChunk(r), r, 0);
    case AssembleStep =>
    case AutoCompactAsync =>
    case PrefixCache =>
    case _ => env.RewrittenKeepsFrame(p, r);
  }

  lemma StepIsTurn(env: Env, p: Name, r: Request)
    requires env.Step(p, r).Ok?
    ensures Turn(env, p, r, env.Step(p, r).value)
  {
    SkipsExactly(env, p, r);
    if Due(env, p, r) {
      ProcessKeepsAudits(env, p, r);
    }
  }

  // ----- whole runs -----

  /** The requests between the steps of a run, the first and the last included. */
  ghost predicate Trail(env: Env, steps: seq<Name>, rs: seq<Request>) {
    |rs| == |steps| + 1 && forall i :: 0 <= i < |steps| ==> Turn(env, steps[i], rs[i], rs[i + 1])
  }

  function DueFlags(env: Env, steps: seq<Name>, rs: seq<Request>): seq<bool>
    requires |rs| == |steps| + 1
  {
    seq(|steps|, i requires 0 <= i < |steps| => Due(env, steps[i], rs[i]))
  }

  function StepNames(steps: seq<Name>): seq<string> {
    seq(|steps|, i requires 0 <= i < |steps| => Env.DescriptorName(steps[i]))
  }

  function AuditNames(audits: seq<Audit>): seq<string> {
    seq(|audits|, i requires 0 <= i < |audits| => audits[i].name)
  }

  /** A trail from r to q, whose audits name exactly the steps that were due, in list order. */
  ghost predicate Leads(env: Env, steps: seq<Name>, r: Request, q: Request, rs: seq<Request>) {
    && Trail(env, steps, rs) && rs[0] == r && rs[|steps|] == q
    && AuditNames(q.audits) == AuditNames(r.audits) + Selected(StepNames(steps), DueFlags(env, steps, rs))
  }

  lemma TrailCons(env: Env, p: Name, steps: seq<Name>, r: Request, rs: seq<Request>)
    requires Trail(env, steps, rs) && Turn(env, p, r, rs[0])
    ensures Trail(env, [p] + steps, [r] + rs)
    ensures DueFlags(env, [p] + steps, [r] + rs) == [Due(env, p, r)] + DueFlags(env, steps, rs)
    ensures StepNames([p] + steps) == [Env.DescriptorName(p)] + StepNames(steps)
  {
    var all, more := [r] + rs, [p] + steps;
    forall i | 0 <= i < |more|
      ensures Turn(env, more[i], all[i], all[i + 1])
    {
      if i > 0 {
        assert Turn(env, steps[i - 1], rs[i - 1], rs[i]);
      }
    }
  }

  lemma SelectedCons<T>(x: T, xs: seq<T>, flag: bool, keep: seq<bool>)
    requires |keep| == |xs|
    ensures Selected([x] + xs, [flag] + keep) == (if flag then [x] else []) + Selected(xs, keep)
  {
    assert ([x] + xs)[1..] == xs && ([flag] + keep)[1..] == keep;
  }

  lemma TurnNames(env: Env, p: Name, r: Request, q: Request)
    requires Turn(env, p, r, q)
    ensures AuditNames(q.audits) == AuditNames(r.audits) + if Due(env, p, r) then [Env.DescriptorName(p)] else []
  {
    if Due(env, p, r) {
      assert q.audits == r.audits + [q.audits[|r.audits|]];
    }
  }

  lemma LeadsCons(env: Env, p: Name, steps: seq<Name>, r: Request, q: Request, rs: seq<Request>)
    requires rs != [] && Turn(env, p, r, rs[0]) && Leads(env, steps, rs[0], q, rs)
    ensures Leads(env, [p] + steps, r, q, [r] + rs)
  {
    TrailCons(env, p, steps, r, rs);
    TurnNames(env, p, r, rs[0]);
    SelectedCons(Env.DescriptorName(p), StepNames(steps), Due(env, p, r), DueFlags(env, steps, rs));
    Assoc(AuditNames(r.audits), if Due(env, p, r) then [Env.DescriptorName(p)] else [],
      Selected(StepNames(steps), DueFlags(env, steps, rs)));
  }

  /** A successful run takes exactly the due steps, in list order: its audits name them and no others. */
  lemma {:induction false} RunTakesDueSteps(env: Env, steps: seq<Name>, r: Request)
    requires env.Steps(steps, r).Ok?
    ensures exists rs :: Leads(env, steps, r, env.Steps(steps, r).value, rs)
  {
    if steps == [] {
      assert Leads(env, steps, r, r, [r]);
    } else {
      var next, q := env.Step(steps[0], r).value, env.Steps(steps, r).value;
      RunTakesDueSteps(env, steps[1..], next);
      var rs :| Leads(env, steps[1..], next, q, rs);
      StepIsTurn(env, steps[0], r);
      LeadsCons(env, steps[0], steps[1..], r, q, rs);
      assert steps == [steps[0]] + steps[1..];
    }
  }

  /** A run fails exactly when some step is due at its turn and its processor fails. */
  ghost predicate FailsAt(env: Env, steps: seq<Name>, r: Request, rs: seq<Request>) {
    var i := |rs| - 1;
    && 0 <= i < |steps| && Trail(env, steps[..i], rs) && rs[0] == r
    && Due(env, steps[i], rs[i]) && env.Process(steps[i], rs[i]).Failed?
  }

  lemma StepFailsExactly(env: Env, p: Name, r: Request)
    ensures env.Step(p, r).Failed? <==> Due(env, p, r) && env.Process(p, r).Failed?
  {
    SkipsExactly(env, p, r);
  }

  lemma {:induction false} FailedRunStops(env: Env, steps: seq<Name>, r: Request)
    requires env.Steps(steps, r).Failed?
    ensures exists rs :: FailsAt(env, steps, r, rs)
  {
    StepFailsExactly(env, steps[0], r);
    if env.Step(steps[0], r).Failed? {
      assert FailsAt(env, steps, r, [r]);
    } else {
      FailedRunStops(env, steps[1..], env.Step(steps[0], r).value);
      var rs :| FailsAt(env, steps[1..], env.Step(steps[0], r).value, rs);
      StepIsTurn(env, steps[0], r);
      FailsLater(env, steps[0], steps[1..], r, rs);
      assert steps == [steps[0]] + steps[1..];
    }
  }

  lemma FailsLater(env: Env, p: Name, steps: seq<Name>, r: Request, rs: seq<Request>)
    requires rs != [] && FailsAt(env, steps, rs[0], rs) && Turn(env, p, r, rs[0])
    ensures FailsAt(env, [p] + steps, r, [r] + rs)
  {
    var i := |rs| - 1;
    TrailCons(env, p, steps[..i], r, rs);
    assert ([p] + steps)[..i + 1] == [p] + steps[..i];
    assert ([p] + steps)[i + 1] == steps[i] && ([r] + rs)[i + 1] == rs[i];
  }

  lemma TurnIsStep(env: Env, p: Name, r: Request, q: Request)
    requires Turn(env, p, r, q)
    ensures env.Step(p, r) == Ok(q)
  {
    SkipsExactly(env, p, r);
    if Due(env, p, r) {
      ProcessKeepsAudits(env, p, r);
      StepIsTurn(env, p, r);
      assert q.audits == env.Step(p, r).value.audits;
    }
  }

  lemma {:induction false} StopsMeansFailed(env: Env, steps: seq<Name>, r: Request, rs: seq<Request>)
    requires FailsAt(env, steps, r, rs)
    ensures env.Steps(steps, r).Failed?
    decreases |rs|
  {
    var i := |rs| - 1;
    StepFailsExactly(env, steps[i], rs[i]);
    if i > 0 {
      assert steps[..i][0] == steps[0] && Turn(env, steps[..i][0], rs[0], rs[1]);
      TurnIsStep(env, steps[0], rs[0], rs[1]);
      forall j | 0 <= j < i - 1
        ensures Turn(env, steps[1..][..i - 1][j], rs[1..][j], rs[1..][j + 1])
      {
        assert steps[..i][j + 1] == steps[j + 1];
        assert Turn(env, steps[..i][j + 1], rs[j + 1], rs[j + 2]);
      }
      StopsMeansFailed(env, steps[1..], rs[1], rs[1..]);
    }
  }

  lemma RunFailsExactly(env: Env, steps: seq<Name>, r: Request)
    ensures env.Steps(steps, r).Failed? <==> exists rs :: FailsAt(env, steps, r, rs)
  {
    if env.Steps(steps, r).Failed? {
      FailedRunStops(env, steps, r);
    }
    if exists rs :: FailsAt(env, steps, r, rs) {
      var rs :| FailsAt(env, steps, r, rs);
      StopsMeansFailed(env, steps, r, rs);
    }
  }

  // ----- steps that nothing holds back -----

  /** Behind its turn a canonicalize step has left its lists and its metadata. */
  lemma CanonicalizeLeaves(env: Env, r: Request, q: Request)
    requires Turn(env, Canonicalize, r, q)
    ensures q.messages == env.canonicalMessages(r.messages) && q.chunks == env.canonicalChunks(r.chunks)
    ensures q.metadata == r.metadata["canonicalized_rag" := "true"]["canonicalized_messages" := "true"]
                                    ["normalization_version" := "stable-prefix-v2"]
  {}

  lemma AssembleLeaves(env: Env, r: Request, q: Request)
    requires Turn(env, AssembleStep, r, q)
    ensures q.optimizedPrompt == env.assemble(r.messages, r.chunks) && q.messages == r.messages && q.chunks == r.chunks
  {}

  lemma {:induction false} NamedAudits(names: seq<string>, flags: seq<bool>, i: nat)
    requires |flags| == |names| && i < |names| && flags[i]
    ensures names[i] in Selected(names, flags)
  {
    SelectedExactly(names, flags);
  }

  /** Within budget or over it: each listed step that nothing holds back has its audit. */
  lemma ListedStepsAreAudited(env: Env, steps: seq<Name>, r: Request, p: Name)
    requires env.Steps(steps, r).Ok? && p in steps && Always(p)
    ensures var audits := env.Steps(steps, r).value.audits;
      exists k :: |r.audits| <= k < |audits| && audits[k].name == Env.DescriptorName(p)
  {
    var q := env.Steps(steps, r).value;
    RunTakesDueSteps(env, steps, r);
    var rs :| Leads(env, steps, r, q, rs);
    var i :| 0 <= i < |steps| && steps[i] == p;
    var taken := Selected(StepNames(steps), DueFlags(env, steps, rs));
    NamedAudits(StepNames(steps), DueFlags(env, steps, rs), i);
    var l :| 0 <= l < |taken| && taken[l] == Env.DescriptorName(p);
    var k := |r.audits| + l;
    assert AuditNames(q.audits)[k] == taken[l];
    assert q.audits[k].name == Env.DescriptorName(p);
  }

  // ----- what the content steps change -----

  predicate ContentStep(p: Name) {
    p in {Compact, Sanitize, JSONTrim, TableReduce, CodeOutline, ErrorStackFocus, AutoCompactSync}
  }

  /** What a content step makes of a fragment, kind by kind. */
  function FragmentAfter(env: Env, p: Name, r: Request, f: Fragment): Fragment {
    match p
    case Compact => f.(content := env.compact(f.content))
    case Sanitize => if f.kind == "code" || f.kind == "json" then f else f.(content := env.sanitize(f.content))
    case JSONTrim => if f.kind == "json" then f.(content := env.transform(p)(f.content)) else f
    case TableReduce => if f.kind == "table" then f.(content := env.transform(p)(f.content)) else f
    case CodeOutline => if f.kind == "code" then f.(content := env.transform(p)(f.content)) else f
    case ErrorStackFocus => if f.kind == "error-stack" then f.(content := env.transform(p)(f.content)) else f
    case AutoCompactSync =>
      if OverBudget(r) && r.currentTokens > (if r.threshold <= 0 then r.budget else r.threshold)
         && f.kind in {"tool-output", "log", "error-stack"}
      then f.(content := SafeCompactContent(f.content)) else f
    case _ => f
  }

  /** The same chunks, each with its fragments after the step. */
  ghost predicate ChunksAfter(env: Env, p: Name, r: Request, chunks: seq<Chunk>) {
    |chunks| == |r.chunks| && forall i :: 0 <= i < |chunks| ==> ChunkAfter(env, p, r, r.chunks[i], chunks[i])
  }

  ghost predicate ChunkAfter(env: Env, p: Name, r: Request, was: Chunk, chunk: Chunk) {
    && chunk == was.(fragments := chunk.fragments) && |chunk.fragments| == |was.fragments|
    && forall j :: 0 <= j < |was.fragments| ==> chunk.fragments[j] == FragmentAfter(env, p, r, was.fragments[j])
  }

  lemma {:induction false} OnChunksAt(chunks: seq<Chunk>, eligible: string -> bool, change: string -> string)
    ensures |OnChunks(chunks, eligible, change)| == |chunks|
    ensures forall i :: 0 <= i < |chunks| ==>
      OnChunks(chunks, eligible, change)[i] == ChangeChunk(chunks[i], eligible, change)
  {
    if chunks != [] {
      OnChunksAt(chunks[1..], eligible, change);
    }
  }

  /** An eligible fragment is changed, any other stays. */
  function Adjusted(f: Fragment, eligible: string -> bool, change: string -> string): Fragment {
    if eligible(f.kind) then f.(content := change(f.content)) else f
  }

  lemma ChangedChunks(env: Env, p: Name, r: Request, eligible: string -> bool, change: string -> string)
    requires forall f: Fragment :: Adjusted(f, eligible, change) == FragmentAfter(env, p, r, f)
    ensures ChunksAfter(env, p, r, OnChunks(r.chunks, eligible, change))
  {
    OnChunksAt(r.chunks, eligible, change);
    var chunks := OnChunks(r.chunks, eligible, change);
    forall i | 0 <= i < |chunks|
      ensures ChunkAfter(env, p, r, r.chunks[i], chunks[i])
    {
      var was := r.chunks[i].fragments;
      forall j | 0 <= j < |was|
        ensures |chunks[i].fragments| == |was|
        ensures chunks[i].fragments[j] == FragmentAfter(env, p, r, was[j])
      {
        OnFragmentsAt(was, eligible, change, j);
        assert chunks[i].fragments[j] == Adjusted(was[j], eligible, change);
      }
      assert was == [] ==> chunks[i].fragments == [];
    }
  }

  lemma AllStay(env: Env, p: Name, r: Request)
    requires forall f: Fragment :: FragmentAfter(env, p, r, f) == f
    ensures ChunksAfter(env, p, r, r.chunks)
  {}

  /** A content step changes the contents of the kinds it is for, and nothing else about the chunks. */
  lemma ContentStepsChangeExactly(env: Env, p: Name, r: Request)
    requires ContentStep(p)
    ensures env.Process(p, r).Ok? && ChunksAfter(env, p, r, env.Process(p, r).value.chunks)
  {
    match p
    case Compact => ChangedChunks(env, p, r, AllKinds(), env.compact);
    case Sanitize => ChangedChunks(env, p, r, SanitizeKinds(), env.sanitize);
    case AutoCompactSync =>
      if env.Compacts(r) {
        ChangedChunks(env, p, r, SafeCompactKinds(), SafeCompacter());
      } else {
        AllStay(env, p, r);
      }
    case _ => ChangedChunks(env, p, r, TargetKind(p), env.transform(p));
  }
}
