/** What the summary store holds after any run of the workers, and what readers of an acknowledged job's pages get. */
module SummaryDelivery {
  import opened Options
  import opened Text
  import opened PageKeys
  import opened SummaryStore
  import opened SummaryQueue

  // ----- every write is a summary of its message -----

  /** The artifact is what the provider makes of the message's job. */
  ghost predicate Summary(s: System, id: nat, a: Artifact) {
    id < |s.stream| && s.stream[id].Carries? && exists made :: Summarize(s.writer, s.stream[id].job, made) == Some(a)
  }

  /** The stored artifact is a summary of the message, prepared for a page reference of its job. */
  ghost predicate Sound(s: System, write: Write) {
    exists a :: Summary(s, write.id, a) && write.ref in s.stream[write.id].job.pageRefs
      && s.clerk.Prepare(write.ref, a, write.at) == Some(write.stored)
  }

  predicate IsLast(writes: seq<Write>, ref: string, k: nat) {
    k < |writes| && writes[k].ref == ref && forall l :: k < l < |writes| ==> writes[l].ref != ref
  }

  predicate IsStored(s: System, ref: string, k: nat) {
    IsLast(s.writes, ref, k) && ref in s.summaries
    && s.summaries[ref] == s.clerk.Saved(s.writes[k].stored, s.writes[k].at).value
  }

  /** The slot of a reference holds the payload of the last write for it. */
  ghost predicate HoldsLast(s: System, ref: string) {
    exists k :: IsStored(s, ref, k)
  }

  /** The save has been written. */
  ghost predicate Written(s: System, save: Save) {
    exists k :: 0 <= k < |s.writes| && WroteIt(s.writes[k], save)
  }

  predicate WroteIt(write: Write, save: Save) {
    write.id == save.id && write.ref == save.ref && write.stored == save.stored
  }

  ghost predicate WorksOnSummary(s: System, worker: Worker) {
    worker.Busy? && worker.batch != [] && worker.artifact.Some? ==> Summary(s, worker.batch[0], worker.artifact.value)
  }

  /** The store holds, under exactly the written references, the last write for each; every write is sound, every save
      has been written, and every artifact at hand is a summary of its message. */
  ghost predicate StoreTells(s: System) {
    && (forall ref :: ref in s.summaries ==> HoldsLast(s, ref))
    && (forall k :: 0 <= k < |s.writes| ==> s.writes[k].ref in s.summaries && Sound(s, s.writes[k]))
    && (forall save :: save in s.saves ==> Written(s, save))
    && (forall w :: w in s.workers ==> WorksOnSummary(s, s.workers[w]))
  }

  lemma SummaryStays(s: System, t: System, id: nat, a: Artifact)
    requires s.stream <= t.stream && t.writer == s.writer && Summary(s, id, a)
    ensures Summary(t, id, a)
  {
    var made :| Summarize(s.writer, s.stream[id].job, made) == Some(a);
    assert Summarize(t.writer, t.stream[id].job, made) == Some(a);
  }

  lemma SoundStays(s: System, t: System, write: Write)
    requires s.stream <= t.stream && t.writer == s.writer && t.clerk == s.clerk && Sound(s, write)
    ensures Sound(t, write)
  {
    var a :| Summary(s, write.id, a) && write.ref in s.stream[write.id].job.pageRefs
      && s.clerk.Prepare(write.ref, a, write.at) == Some(write.stored);
    SummaryStays(s, t, write.id, a);
    assert Summary(t, write.id, a) && write.ref in t.stream[write.id].job.pageRefs;
  }

  /** Steps that write nothing: only worker w needs a look. */
  lemma QuietStep(s: System, t: System, w: nat)
    requires StoreTells(s)
    requires s.stream <= t.stream && t.writer == s.writer && t.clerk == s.clerk
    requires t.writes == s.writes && t.saves == s.saves && t.summaries == s.summaries
    requires forall v :: v in t.workers && v != w ==> v in s.workers && t.workers[v] == s.workers[v]
    requires w in t.workers ==> WorksOnSummary(t, t.workers[w])
    ensures StoreTells(t)
  {
    forall ref | ref in t.summaries
      ensures HoldsLast(t, ref)
    {
      assert HoldsLast(s, ref);
      var k :| IsStored(s, ref, k);
      assert IsStored(t, ref, k);
    }
    forall k | 0 <= k < |t.writes|
      ensures t.writes[k].ref in t.summaries && Sound(t, t.writes[k])
    {
      SoundStays(s, t, s.writes[k]);
    }
    forall save | save in t.saves
      ensures Written(t, save)
    {
      assert Written(s, save);
      var k :| 0 <= k < |s.writes| && WroteIt(s.writes[k], save);
      assert WroteIt(t.writes[k], save);
    }
    WorkersStay(s, t, w);
  }

  lemma WorkersStay(s: System, t: System, w: nat)
    requires forall v :: v in s.workers ==> WorksOnSummary(s, s.workers[v])
    requires s.stream <= t.stream && t.writer == s.writer
    requires forall v :: v in t.workers && v != w ==> v in s.workers && t.workers[v] == s.workers[v]
    requires w in t.workers ==> WorksOnSummary(t, t.workers[w])
    ensures forall v :: v in t.workers ==> WorksOnSummary(t, t.workers[v])
  {
    forall v | v in t.workers && v != w
      ensures WorksOnSummary(t, t.workers[v])
    {
      var worker := s.workers[v];
      assert WorksOnSummary(s, worker);
      if worker.Busy? && worker.batch != [] && worker.artifact.Some? {
        SummaryStays(s, t, worker.batch[0], worker.artifact.value);
      }
    }
  }

  // ----- a step that writes -----

  lemma LastAfter(writes: seq<Write>, write: Write, ref: string, k: nat)
    requires if ref == write.ref then k == |writes| else IsLast(writes, ref, k)
    ensures IsLast(writes + [write], ref, k)
  {}

  /** One more write: the store holds it under its reference, and everything else as before. */
  lemma OneMoreWrite(s: System, t: System, write: Write)
    requires StoreTells(s) && Sound(s, write)
    requires t.stream == s.stream && t.writer == s.writer && t.clerk == s.clerk
    requires t.writes == s.writes + [write]
    requires t.summaries == s.summaries[write.ref := s.clerk.Saved(write.stored, write.at).value]
    ensures forall ref :: ref in t.summaries ==> HoldsLast(t, ref)
    ensures forall k :: 0 <= k < |t.writes| ==> t.writes[k].ref in t.summaries && Sound(t, t.writes[k])
  {
    forall ref | ref in t.summaries
      ensures HoldsLast(t, ref)
    {
      if ref == write.ref {
        LastAfter(s.writes, write, ref, |s.writes|);
        assert IsStored(t, ref, |s.writes|);
      } else {
        assert HoldsLast(s, ref);
        var k :| IsStored(s, ref, k);
        LastAfter(s.writes, write, ref, k);
        assert IsStored(t, ref, k);
      }
    }
    forall k | 0 <= k < |t.writes|
      ensures t.writes[k].ref in t.summaries && Sound(t, t.writes[k])
    {
      SoundStays(s, t, if k < |s.writes| then s.writes[k] else write);
    }
  }

  /** What the next save of worker w writes, when it is accepted. */
  function NextWrite(s: System, w: nat, now: Time): Write
    requires CanSave(s, w) && s.clerk.Prepare(NextRef(s, w), s.workers[w].artifact.value, now).Some?
  {
    var prepared := s.clerk.Prepare(NextRef(s, w), s.workers[w].artifact.value, now);
    Write(s.workers[w].batch[0], NextRef(s, w), prepared.value, now)
  }

  lemma NextWriteIsSound(s: System, w: nat, now: Time)
    requires StoreTells(s) && CanSave(s, w)
    requires s.clerk.Prepare(NextRef(s, w), s.workers[w].artifact.value, now).Some?
    ensures Sound(s, NextWrite(s, w, now))
  {
    assert WorksOnSummary(s, s.workers[w]);
    assert Summary(s, s.workers[w].batch[0], s.workers[w].artifact.value);
    assert NextRef(s, w) in s.stream[s.workers[w].batch[0]].job.pageRefs;
  }

  lemma SavesStayWritten(s: System, t: System, write: Write)
    requires forall save :: save in s.saves ==> Written(s, save)
    requires t.writes == s.writes + [write]
    requires forall save :: save in t.saves && save !in s.saves ==> WroteIt(write, save)
    ensures forall save :: save in t.saves ==> Written(t, save)
  {
    forall save | save in t.saves
      ensures Written(t, save)
    {
      if save in s.saves {
        assert Written(s, save);
        var k :| 0 <= k < |s.writes| && WroteIt(s.writes[k], save);
        assert WroteIt(t.writes[k], save);
      } else {
        assert WroteIt(t.writes[|s.writes|], save);
      }
    }
  }

  lemma SaveTells(s: System, w: nat, now: Time, written: bool, replied: bool)
    requires StoreTells(s) && CanSave(s, w)
    ensures StoreTells(SaveStep(s, w, now, written, replied))
  {
    var t, worker := SaveStep(s, w, now, written, replied), s.workers[w];
    var prepared := s.clerk.Prepare(NextRef(s, w), worker.artifact.value, now);
    assert WorksOnSummary(s, worker);
    if prepared.None? || !written {
      QuietStep(s, t, w);
    } else {
      NextWriteIsSound(s, w, now);
      WriteTells(s, t, w, NextWrite(s, w, now));
    }
  }

  /** A step that writes, logs the save if it is replied to, and lets worker w go on or stops it. */
  lemma WriteTells(s: System, t: System, w: nat, write: Write)
    requires StoreTells(s) && Sound(s, write) && w in s.workers && s.workers[w].Busy?
    requires t.stream == s.stream && t.writer == s.writer && t.clerk == s.clerk
    requires t.writes == s.writes + [write]
    requires t.summaries == s.summaries[write.ref := s.clerk.Saved(write.stored, write.at).value]
    requires t.saves == s.saves || t.saves == s.saves + {Save(write.id, write.ref, write.stored)}
    requires w in t.workers && t.workers == s.workers[w := t.workers[w]]
    requires t.workers[w].Busy? ==>
      t.workers[w].batch == s.workers[w].batch && t.workers[w].artifact == s.workers[w].artifact
    ensures StoreTells(t)
  {
    OneMoreWrite(s, t, write);
    SavesStayWritten(s, t, write);
    assert WorksOnSummary(s, s.workers[w]);
    if t.workers[w].Busy? && t.workers[w].batch != [] && t.workers[w].artifact.Some? {
      SummaryStays(s, t, t.workers[w].batch[0], t.workers[w].artifact.value);
    }
    WorkersStay(s, t, w);
  }

  lemma SummarizeTells(s: System, w: nat, now: Time)
    requires StoreTells(s) && CanSummarize(s, w)
    ensures StoreTells(SummarizeStep(s, w, now))
  {
    var t, id := SummarizeStep(s, w, now), s.workers[w].batch[0];
    var artifact := Summarize(s.writer, s.stream[id].job, now);
    if artifact.Some? {
      assert Summary(t, id, artifact.value);
    }
    QuietStep(s, t, w);
  }

  lemma NextKeepsStore(s: System, step: Step)
    requires StoreTells(s)
    ensures StoreTells(Next(s, step))
  {
    match step
    case Enqueue(m) => EnqueueTells(s, m);
    case Enter(w) => if w !in s.workers { QuietStep(s, Put(s, w, Idle), w); }
    case Consume(w, count, replied) => if CanConsume(s, w) { QuietStep(s, ConsumeStep(s, w, count, replied), w); }
    case SummarizeHead(w, now) => if CanSummarize(s, w) { SummarizeTells(s, w, now); }
    case SaveNext(w, now, written, replied) => if CanSave(s, w) { SaveTells(s, w, now, written, replied); }
    case AckHead(w, applied, replied) => if CanAck(s, w) { QuietStep(s, AckStep(s, w, applied, replied), w); }
    case Halt(w) => if w in s.workers { QuietStep(s, Put(s, w, Stopped), w); }
  }

  lemma EnqueueTells(s: System, m: Message)
    requires StoreTells(s)
    ensures StoreTells(s.(stream := s.stream + [m]))
  {
    var t := s.(stream := s.stream + [m]);
    forall w | w in s.workers
      ensures WorksOnSummary(t, s.workers[w])
    {
      var worker := s.workers[w];
      assert WorksOnSummary(s, worker);
      if worker.Busy? && worker.batch != [] && worker.artifact.Some? {
        SummaryStays(s, t, worker.batch[0], worker.artifact.value);
      }
    }
    QuietStep(s, t, 0);
  }

  /** After every run the store holds, under exactly the references that were written, the payload of the last write;
      every write is a summary of its message, prepared for a page reference of its job. */
  lemma {:induction false} RunKeepsStore(clerk: Clerk, writer: Writer, steps: seq<Step>)
    ensures StoreTells(Run(Start(clerk, writer), steps))
  {
    if steps != [] {
      RunKeepsStore(clerk, writer, steps[..|steps| - 1]);
      NextKeepsStore(Run(Start(clerk, writer), steps[..|steps| - 1]), steps[|steps| - 1]);
    }
  }

  // ----- what a reader gets -----

  /** The clock showed real times when the summary was made and written. */
  predicate Dated(write: Write) {
    write.at > 0 && write.stored.createdAt >= 0
  }

  /** The slot lives, its key is clean and its artifact has not run out. */
  predicate Lasts(clerk: Clerk, write: Write, at: Time) {
    at < write.at + clerk.pageTTL && clerk.CleanKey(write.ref) && at < write.stored.expiresAt
  }

  /** A sound write says what the job it was made for says, and its job carries the reference. */
  lemma SoundWriteTells(s: System, write: Write)
    requires Sound(s, write)
    ensures write.id < |s.stream| && s.stream[write.id].Carries?
    ensures var job := s.stream[write.id].job;
      write.ref in job.pageRefs && write.stored.summaryText == TrimSpace(s.writer.SummaryText(job))
  {
    var a :| Summary(s, write.id, a) && write.ref in s.stream[write.id].job.pageRefs
      && s.clerk.Prepare(write.ref, a, write.at) == Some(write.stored);
    TrimIdempotent(s.writer.SummaryText(s.stream[write.id].job));
  }

  /** What was stored by a write is served exactly while it lasts. */
  lemma StoredIsServedExactly(s: System, ref: string, k: nat, at: Time)
    requires IsStored(s, ref, k) && Sound(s, s.writes[k]) && Dated(s.writes[k]) && s.clerk.pageTTL > 0
    ensures var write := s.writes[k];
      s.clerk.Served(s.summaries, ref, at) == if Lasts(s.clerk, write, at) then Some(write.stored) else None
  {
    var write := s.writes[k];
    var a :| Summary(s, write.id, a) && write.ref in s.stream[write.id].job.pageRefs
      && s.clerk.Prepare(write.ref, a, write.at) == Some(write.stored);
    SummaryIsPlain(s, write.id, a);
    s.clerk.SaveLoadRoundTrip(ref, a, write.at, at);
    s.clerk.PreparedValidatesExactly(ref, a, write.at, at);
  }

  lemma SummaryIsPlain(s: System, id: nat, a: Artifact)
    requires Summary(s, id, a)
    ensures a.provider == HEURISTIC && a.providerVersion == HEURISTIC_V1 && a.schemaVersion == SCHEMA_V1
    ensures TrimSpace(HEURISTIC_V1) == HEURISTIC_V1 && TrimSpace(SCHEMA_V1) == SCHEMA_V1
  {
    TrimmedStays(HEURISTIC_V1);
    TrimmedStays(SCHEMA_V1);
  }

  lemma AckedIsStored(s: System, id: nat, ref: string)
    requires Invariant(s) && StoreTells(s) && id in s.acked
    requires id < |s.stream| && s.stream[id].Carries? && ref in s.stream[id].job.pageRefs
    ensures exists k :: IsStored(s, ref, k)
  {
    assert AckedIsSaved(s, id);
    var refs := s.stream[id].job.pageRefs;
    var i :| 0 <= i < |refs| && refs[i] == ref;
    assert SavedFor(s, id, refs[i]);
    var save :| save in s.saves && save.id == id && save.ref == ref;
    assert Written(s, save);
    var k :| 0 <= k < |s.writes| && WroteIt(s.writes[k], save);
    assert s.writes[k].ref in s.summaries && HoldsLast(s, ref);
  }

  /** Whatever page is under a key, a reader gets the text of the job that wrote its summary last, while that lasts. */
  ghost predicate ReadsSummary(s: System, ref: string, k: nat, at: Time, pages: Pages)
    requires k < |s.writes|
  {
    var write, answer := s.writes[k], s.clerk.Answer(pages, s.summaries, ref, at);
    && write.id < |s.stream| && s.stream[write.id].Carries? && ref in s.stream[write.id].job.pageRefs
    && (Lasts(s.clerk, write, at) ==>
          && answer.Resolved? && answer.isSummary
          && answer.content == TrimSpace(s.writer.SummaryText(s.stream[write.id].job)))
    && (!Lasts(s.clerk, write, at) ==> !(answer.Resolved? && answer.isSummary))
  }

  /** The last write for the reference is what its readers get, whenever they come and whatever page is stored. */
  ghost predicate ServesWrite(s: System, ref: string, k: nat) {
    && IsStored(s, ref, k)
    && (Dated(s.writes[k]) ==> forall at, pages :: ReadsSummary(s, ref, k, at, pages))
  }

  lemma LastWriteIsServed(s: System, ref: string, k: nat)
    requires StoreTells(s) && IsStored(s, ref, k) && s.clerk.pageTTL > 0
    ensures ServesWrite(s, ref, k)
  {
    assert Sound(s, s.writes[k]);
    if Dated(s.writes[k]) {
      forall at, pages
        ensures ReadsSummary(s, ref, k, at, pages)
      {
        ReadAt(s, ref, k, at, pages);
      }
    }
  }

  lemma ReadAt(s: System, ref: string, k: nat, at: Time, pages: Pages)
    requires IsStored(s, ref, k) && Sound(s, s.writes[k]) && Dated(s.writes[k]) && s.clerk.pageTTL > 0
    ensures ReadsSummary(s, ref, k, at, pages)
  {
    SoundWriteTells(s, s.writes[k]);
    StoredIsServedExactly(s, ref, k, at);
  }

  lemma AckedIsServed(s: System, id: nat, ref: string)
    requires Invariant(s) && StoreTells(s) && id in s.acked && s.clerk.pageTTL > 0
    requires id < |s.stream| && s.stream[id].Carries? && ref in s.stream[id].job.pageRefs
    ensures exists k :: ServesWrite(s, ref, k)
  {
    AckedIsStored(s, id, ref);
    var k :| IsStored(s, ref, k);
    LastWriteIsServed(s, ref, k);
  }

  /** In every run, under every page reference of an acknowledged job lies the summary of the last job that wrote it,
      and readers get its text exactly while it lasts. */
  lemma AckedJobsAreServed(clerk: Clerk, writer: Writer, steps: seq<Step>, id: nat, ref: string)
    requires clerk.pageTTL > 0
    requires var s := Run(Start(clerk, writer), steps);
      id in s.acked && id < |s.stream| && s.stream[id].Carries? && ref in s.stream[id].job.pageRefs
    ensures exists k :: ServesWrite(Run(Start(clerk, writer), steps), ref, k)
  {
    RunKeepsInvariant(clerk, writer, steps);
    RunKeepsStore(clerk, writer, steps);
    ClerkStays(clerk, writer, steps);
    AckedIsServed(Run(Start(clerk, writer), steps), id, ref);
  }

  lemma {:induction false} ClerkStays(clerk: Clerk, writer: Writer, steps: seq<Step>)
    ensures Run(Start(clerk, writer), steps).clerk == clerk && Run(Start(clerk, writer), steps).writer == writer
  {
    if steps != [] {
      ClerkStays(clerk, writer, steps[..|steps| - 1]);
    }
  }

  // ----- no delivered job is forgotten -----

  /** The batch of a worker, in stream order. */
  function BatchOf(s: System, w: nat): seq<nat> {
    if w in s.workers && s.workers[w].Busy? then s.workers[w].batch else []
  }

  ghost predicate InOrder(batch: seq<nat>) {
    forall k, l :: 0 <= k < l < |batch| ==> batch[k] < batch[l]
  }

  predicate IsStopped(s: System, w: nat) {
    w in s.workers && s.workers[w].Stopped?
  }

  /** A pending message with a job is in the batch of the worker it was delivered to, unless that worker has stopped. */
  ghost predicate Remembered(s: System, id: nat) {
    id < |s.deliveries| && id < |s.stream| &&
    var w := s.deliveries[id].1;
    w in s.workers && (IsStopped(s, w) || s.stream[id].BlankPayload? || id in BatchOf(s, w))
  }

  ghost predicate NoneForgotten(s: System) {
    && s.next == |s.deliveries| && s.next <= |s.stream|
    && (forall id :: id in s.pending ==> Remembered(s, id))
    && (forall w :: w in s.workers ==> InOrder(BatchOf(s, w)))
  }

  lemma {:induction false} WithJobsKeeps(stream: seq<Message>, ids: seq<nat>, id: nat)
    requires forall i :: 0 <= i < |ids| ==> ids[i] < |stream|
    requires id in ids && stream[id].Carries?
    ensures id in WithJobs(stream, ids)
  {
    if id != ids[0] {
      WithJobsKeeps(stream, ids[1..], id);
    }
  }

  /** What a read delivers to worker w is remembered. */
  lemma ReadIsRemembered(s: System, w: nat, count: nat, replied: bool, id: nat)
    requires CanConsume(s, w) && s.next == |s.deliveries| && id in Taken(s, count)
    ensures Remembered(ConsumeStep(s, w, count, replied), id)
  {
    var t, ids := ConsumeStep(s, w, count, replied), Taken(s, count);
    IdsAreRange(s.next, t.next);
    assert ids[id - s.next] == id;
    assert t.deliveries[id] == (id, w);
    if !IsStopped(t, w) && s.stream[id].Carries? {
      WithJobsKeeps(s.stream, ids, id);
    }
  }

  lemma ConsumeForgetsNone(s: System, w: nat, count: nat, replied: bool)
    requires CanConsume(s, w) && NoneForgotten(s)
    ensures NoneForgotten(ConsumeStep(s, w, count, replied))
  {
    var t, ids := ConsumeStep(s, w, count, replied), Taken(s, count);
    IdsAreRange(s.next, t.next);
    WithJobsFacts(s.stream, ids);
    forall id | id in t.pending
      ensures Remembered(t, id)
    {
      if id in ids {
        ReadIsRemembered(s, w, count, replied, id);
      } else {
        assert Remembered(s, id);
        assert t.deliveries[id] == s.deliveries[id];
      }
    }
    forall v | v in t.workers
      ensures InOrder(BatchOf(t, v))
    {
      assert v != w ==> InOrder(BatchOf(s, v));
    }
  }

  /** What worker w has given up is no longer pending. */
  ghost predicate HandsOn(s: System, t: System, w: nat) {
    forall id :: id in BatchOf(s, w) && id in t.pending ==> id in BatchOf(t, w)
  }

  /** Steps that deliver nothing: whatever worker w gives up is acknowledged, or w stops. */
  lemma OthersRemember(s: System, t: System, w: nat)
    requires NoneForgotten(s)
    requires s.stream <= t.stream && t.deliveries == s.deliveries && t.next == s.next && t.pending <= s.pending
    requires w in t.workers && forall v :: v in s.workers ==> v in t.workers
    requires forall v :: v in t.workers && v != w ==> v in s.workers && t.workers[v] == s.workers[v]
    requires InOrder(BatchOf(t, w))
    requires !IsStopped(t, w) ==> !IsStopped(s, w) && HandsOn(s, t, w)
    ensures NoneForgotten(t)
  {
    forall id | id in t.pending
      ensures Remembered(t, id)
    {
      assert Remembered(s, id);
    }
    forall v | v in t.workers
      ensures InOrder(BatchOf(t, v))
    {
      assert v != w ==> InOrder(BatchOf(s, v));
    }
  }

  lemma AckForgetsNone(s: System, w: nat, applied: bool, replied: bool)
    requires CanAck(s, w) && NoneForgotten(s)
    ensures NoneForgotten(AckStep(s, w, applied, replied))
  {
    var t, batch := AckStep(s, w, applied, replied), s.workers[w].batch;
    assert InOrder(BatchOf(s, w));
    assert BatchOf(t, w) == (if IsStopped(t, w) then [] else batch[1..]);
    forall id | id in batch && id != batch[0]
      ensures id in batch[1..]
    {
      var k :| 0 <= k < |batch| && batch[k] == id;
      assert batch[1..][k - 1] == id;
    }
    OthersRemember(s, t, w);
  }

  lemma NextForgetsNone(s: System, step: Step)
    requires NoneForgotten(s)
    ensures NoneForgotten(Next(s, step))
  {
    match step
    case Enqueue(m) => EnqueueForgetsNone(s, m);
    case Enter(w) => if w !in s.workers { OthersRemember(s, Put(s, w, Idle), w); }
    case Consume(w, count, replied) => if CanConsume(s, w) { ConsumeForgetsNone(s, w, count, replied); }
    case SummarizeHead(w, now) => if CanSummarize(s, w) { SameBatch(s, SummarizeStep(s, w, now), w); }
    case SaveNext(w, now, written, replied) =>
      if CanSave(s, w) { SameBatch(s, SaveStep(s, w, now, written, replied), w); }
    case AckHead(w, applied, replied) => if CanAck(s, w) { AckForgetsNone(s, w, applied, replied); }
    case Halt(w) => if w in s.workers { OthersRemember(s, Put(s, w, Stopped), w); }
  }

  lemma SameBatch(s: System, t: System, w: nat)
    requires NoneForgotten(s) && w in s.workers && !IsStopped(s, w)
    requires t.stream == s.stream && t.deliveries == s.deliveries && t.next == s.next && t.pending == s.pending
    requires w in t.workers && t.workers == s.workers[w := t.workers[w]]
    requires IsStopped(t, w) || BatchOf(t, w) == BatchOf(s, w)
    ensures NoneForgotten(t)
  {
    assert InOrder(BatchOf(s, w));
    OthersRemember(s, t, w);
  }

  lemma EnqueueForgetsNone(s: System, m: Message)
    requires NoneForgotten(s)
    ensures NoneForgotten(s.(stream := s.stream + [m]))
  {
    var t := s.(stream := s.stream + [m]);
    forall id | id in t.pending
      ensures Remembered(t, id)
    {
      assert Remembered(s, id);
    }
    forall w | w in t.workers
      ensures InOrder(BatchOf(t, w))
    {
      assert InOrder(BatchOf(s, w));
    }
  }

  /** In every run each message that is delivered and not acknowledged is still in the batch of the worker that read
      it, in stream order, unless that worker has stopped or the message carries no job. */
  lemma {:induction false} RunForgetsNone(clerk: Clerk, writer: Writer, steps: seq<Step>)
    ensures NoneForgotten(Run(Start(clerk, writer), steps))
  {
    if steps != [] {
      RunForgetsNone(clerk, writer, steps[..|steps| - 1]);
      NextForgetsNone(Run(Start(clerk, writer), steps[..|steps| - 1]), steps[|steps| - 1]);
    }
  }
}
