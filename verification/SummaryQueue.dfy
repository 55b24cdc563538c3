/** The summary stream with its consumer group, and the workers that summarise, save and acknowledge. */
module SummaryQueue {
  import opened Options
  import opened Text
  import opened Content
  import opened PageKeys
  import opened SummaryStore

  datatype Job = Job(
    jobID: string,
    chunkID: string,
    source: string,
    contentHash: string,
    pageRefs: seq<string>,
    fragments: seq<Fragment>,
    content: string)

  /** The wording of summaries, of a fragment and of plain text, is left open. */
  datatype Writer = Writer(fragment: Fragment -> string, plain: string -> string) {
    function Worded(fragments: seq<Fragment>): seq<string> {
      if fragments == [] then []
      else (if Blank(fragment(fragments[0])) then [] else [fragment(fragments[0])]) + Worded(fragments[1..])
    }

    /** SummarizeJob: the source and what the fragments say, or what the plain content says. */
    function SummaryText(job: Job): string {
      if job.fragments == [] then plain(job.content)
      else
        var parts := (if Blank(job.source) then [] else ["Source: " + job.source]) + Worded(job.fragments);
        TrimSpace(Join(parts, "\n\n"))
    }

    /** There is something to say about the job. */
    predicate Speaks(job: Job) {
      if job.fragments == [] then !Blank(plain(job.content))
      else !Blank(job.source) || exists i :: 0 <= i < |job.fragments| && !Blank(fragment(job.fragments[i]))
    }

    predicate Silent(fragments: seq<Fragment>) {
      forall i :: 0 <= i < |fragments| ==> Blank(fragment(fragments[i]))
    }

    lemma {:induction false} WordedBlank(fragments: seq<Fragment>)
      ensures EraseAll(Worded(fragments)) == "" <==> Silent(fragments)
    {
      if fragments != [] {
        var head, rest := fragments[0], fragments[1..];
        WordedBlank(rest);
        EraseTrim(fragment(head));
        EraseAllAppend(if Blank(fragment(head)) then [] else [fragment(head)], Worded(rest));
        EraseAllOne(fragment(head));
        assert Silent(fragments) <==> Blank(fragment(head)) && Silent(rest) by {
          assert forall i :: 0 < i < |fragments| ==> fragments[i] == rest[i - 1];
          assert forall i :: 0 <= i < |rest| ==> rest[i] == fragments[i + 1];
        }
      }
    }

    /** A summary is blank exactly when neither the source nor any fragment, or not the plain content, says anything. */
    lemma SummaryBlankExactly(job: Job)
      ensures !Blank(SummaryText(job)) <==> Speaks(job)
    {
      if job.fragments != [] {
        var source := if Blank(job.source) then [] else ["Source: " + job.source];
        JoinedBlank(source + Worded(job.fragments));
        EraseAllAppend(source, Worded(job.fragments));
        WordedBlank(job.fragments);
        SourceShows("Source: " + job.source);
      }
    }
  }

  lemma JoinedBlank(parts: seq<string>)
    ensures Blank(TrimSpace(Join(parts, "\n\n"))) <==> EraseAll(parts) == ""
  {
    EraseSpaces("\n\n");
    EraseJoin(parts, "\n\n");
    EraseTrim(Join(parts, "\n\n"));
    EraseTrim(TrimSpace(Join(parts, "\n\n")));
  }

  lemma SourceShows(line: string)
    requires line != "" && !IsSpace(line[0])
    ensures EraseAll([line]) != ""
  {
    EraseAllOne(line);
    EraseMember(line, line[0]);
  }

  /** The payload field of a stream message. */
  datatype Message = BlankPayload | BadPayload | Carries(job: Job)

  /** HeuristicProvider.Summarize: a blank summary is an error. */
  function Summarize(writer: Writer, job: Job, now: Time): Option<Artifact> {
    var text := writer.SummaryText(job);
    if Blank(text) then None
    else Some(Artifact(
      ArtifactID(job.contentHash, HEURISTIC, HEURISTIC_V1), job.jobID, "", "", "", job.chunkID, job.source,
      job.pageRefs, TrimSpace(job.contentHash), TrimSpace(text), [], HEURISTIC, HEURISTIC_V1, SCHEMA_V1, now, 0))
  }

  /** Where a worker stands: `batch` are the messages it still has to handle, the first one up to `done` saved
      references. */
  datatype Worker = Idle | Busy(batch: seq<nat>, artifact: Option<Artifact>, done: nat) | Stopped

  /** One successful SaveSummary on behalf of a message. */
  datatype Save = Save(id: nat, ref: string, stored: Artifact)

  /** One write of SaveSummary on behalf of a message, whether its reply came back or not. */
  datatype Write = Write(id: nat, ref: string, stored: Artifact, at: Time)

  /** The stream, the group's cursor, its pending and acknowledged messages, all deliveries made, the workers and the
      store. */
  datatype System = System(
    clerk: Clerk,
    writer: Writer,
    stream: seq<Message>,
    next: nat,
    pending: set<nat>,
    acked: set<nat>,
    deliveries: seq<(nat, nat)>,
    workers: map<nat, Worker>,
    saves: set<Save>,
    writes: seq<Write>,
    summaries: Summaries)

  function Start(clerk: Clerk, writer: Writer): System {
    System(clerk, writer, [], 0, {}, {}, [], map[], {}, [], map[])
  }

  datatype Step =
    | Enqueue(message: Message)
    | Enter(w: nat)
    | Consume(w: nat, count: nat, replied: bool)
    | SummarizeHead(w: nat, now: Time)
    | SaveNext(w: nat, now: Time, written: bool, replied: bool)
    | AckHead(w: nat, applied: bool, replied: bool)
    | Halt(w: nat)

  function Min(a: nat, b: nat): nat {
    if a < b then a else b
  }

  function Ids(from: nat, to: nat): (r: seq<nat>)
    requires from <= to
  {
    seq(to - from, i requires 0 <= i => from + i)
  }

  lemma IdsAreRange(from: nat, to: nat)
    requires from <= to
    ensures forall i: nat :: i in Ids(from, to) <==> from <= i < to
  {
    forall i: nat | from <= i < to
      ensures i in Ids(from, to)
    {
      assert Ids(from, to)[i - from] == i;
    }
  }

  /** The messages of a read that carry a job; blank payloads are passed over. */
  function WithJobs(stream: seq<Message>, ids: seq<nat>): seq<nat>
    requires forall i :: 0 <= i < |ids| ==> ids[i] < |stream|
  {
    if ids == [] then []
    else (if stream[ids[0]].Carries? then [ids[0]] else []) + WithJobs(stream, ids[1..])
  }

  function Put(s: System, w: nat, worker: Worker): System {
    s.(workers := s.workers[w := worker])
  }

  predicate IsBusy(s: System, w: nat) {
    w in s.workers && s.workers[w].Busy? && s.workers[w].batch != [] && s.workers[w].batch[0] < |s.stream|
      && s.stream[s.workers[w].batch[0]].Carries?
  }

  /** A batch of which nothing has been summarised yet. */
  predicate FreshBatch(worker: Worker, batch: seq<nat>) {
    worker.Busy? && worker.artifact.None? && worker.batch == batch
  }

  predicate CanSave(s: System, w: nat) {
    IsBusy(s, w) && s.workers[w].artifact.Some? && s.workers[w].done < |s.stream[s.workers[w].batch[0]].job.pageRefs|
  }

  function NextRef(s: System, w: nat): string
    requires CanSave(s, w)
  {
    s.stream[s.workers[w].batch[0]].job.pageRefs[s.workers[w].done]
  }

  /** SaveSummary for the next page reference; a rejected or failed save stops the worker, and so does a reply that is
      lost after the write. */
  function SaveStep(s: System, w: nat, now: Time, written: bool, replied: bool): System
    requires CanSave(s, w)
  {
    var worker, ref := s.workers[w], NextRef(s, w);
    var prepared := s.clerk.Prepare(ref, worker.artifact.value, now);
    if prepared.None? || !written then Put(s, w, Stopped)
    else
      var t := s.(summaries := s.summaries[ref := s.clerk.Saved(prepared.value, now).value],
                  writes := s.writes + [Write(worker.batch[0], ref, prepared.value, now)]);
      if !replied then Put(t, w, Stopped)
      else Put(t, w, worker.(done := worker.done + 1)).(saves := s.saves + {Save(worker.batch[0], ref, prepared.value)})
  }

  predicate CanConsume(s: System, w: nat) {
    w in s.workers && s.workers[w].Idle? && s.next <= |s.stream|
  }

  /** The ids a read of at most `count` new messages takes. */
  function Taken(s: System, count: nat): seq<nat>
    requires s.next <= |s.stream|
  {
    Ids(s.next, s.next + Min(count, |s.stream| - s.next))
  }

  /** ConsumeSummaryJobs: the read delivers; a lost reply or an unreadable payload stops the worker all the same. */
  function ConsumeStep(s: System, w: nat, count: nat, replied: bool): System
    requires CanConsume(s, w)
  {
    var ids := Taken(s, count);
    var batch := WithJobs(s.stream, ids);
    s.(next := s.next + |ids|,
       pending := s.pending + (set i | i in ids),
       deliveries := s.deliveries + seq(|ids|, i requires 0 <= i < |ids| => (ids[i], w)),
       workers := s.workers[w :=
         if !replied || (exists i :: i in ids && s.stream[i].BadPayload?) then Stopped
         else if batch == [] then Idle
         else Busy(batch, None, 0)])
  }

  predicate CanSummarize(s: System, w: nat) {
    IsBusy(s, w) && s.workers[w].artifact.None?
  }

  function SummarizeStep(s: System, w: nat, now: Time): System
    requires CanSummarize(s, w)
  {
    var artifact := Summarize(s.writer, s.stream[s.workers[w].batch[0]].job, now);
    Put(s, w, if artifact.None? then Stopped else s.workers[w].(artifact := artifact, done := 0))
  }

  predicate CanAck(s: System, w: nat) {
    IsBusy(s, w) && s.workers[w].artifact.Some? && s.workers[w].done >= |s.stream[s.workers[w].batch[0]].job.pageRefs|
  }

  /** AckSummaryJob, then the next message of the batch; a failed acknowledgement stops the worker. */
  function AckStep(s: System, w: nat, applied: bool, replied: bool): System
    requires CanAck(s, w)
  {
    var id, rest := s.workers[w].batch[0], s.workers[w].batch[1..];
    s.(pending := if applied then s.pending - {id} else s.pending,
       acked := if applied then s.acked + {id} else s.acked,
       workers := s.workers[w :=
         if !applied || !replied then Stopped else if rest == [] then Idle else Busy(rest, None, 0)])
  }

  /** One step of the system; a step that is not enabled changes nothing. */
  function Next(s: System, step: Step): System {
    match step
    case Enqueue(m) => s.(stream := s.stream + [m])
    case Enter(w) => if w in s.workers then s else Put(s, w, Idle)
    case Consume(w, count, replied) => if CanConsume(s, w) then ConsumeStep(s, w, count, replied) else s
    case SummarizeHead(w, now) => if CanSummarize(s, w) then SummarizeStep(s, w, now) else s
    case SaveNext(w, now, written, replied) => if CanSave(s, w) then SaveStep(s, w, now, written, replied) else s
    case AckHead(w, applied, replied) => if CanAck(s, w) then AckStep(s, w, applied, replied) else s
    case Halt(w) => if w in s.workers then Put(s, w, Stopped) else s
  }

  function Run(s: System, steps: seq<Step>): System {
    if steps == [] then s else Next(Run(s, steps[..|steps| - 1]), steps[|steps| - 1])
  }

  // ----- what every step keeps -----

  /** Each delivered message is pending or acknowledged, never both; the others wait behind the cursor. */
  ghost predicate Partitioned(s: System) {
    && s.next <= |s.stream|
    && s.pending !! s.acked
    && (forall i :: i in s.pending || i in s.acked <==> 0 <= i < s.next)
  }

  /** Every message in front of the cursor has been delivered exactly once, in stream order. */
  ghost predicate DeliveredOnce(s: System) {
    |s.deliveries| == s.next && forall i :: 0 <= i < s.next ==> s.deliveries[i].0 == i
  }

  /** A worker holds distinct pending messages with a job, delivered to it. */
  ghost predicate Holds(s: System, w: nat, worker: Worker) {
    worker.Busy? ==>
      && worker.batch != []
      && (forall k :: 0 <= k < |worker.batch| ==> Held(s, w, worker.batch[k]))
      && (forall k, l :: 0 <= k < l < |worker.batch| ==> worker.batch[k] != worker.batch[l])
      && (worker.artifact.Some? ==> SavedUpTo(s, worker.batch[0], worker.done))
  }

  ghost predicate Held(s: System, w: nat, id: nat) {
    && id in s.pending && id < s.next && id < |s.stream| && s.stream[id].Carries?
    && id < |s.deliveries| && s.deliveries[id].1 == w
  }

  /** SaveSummary has succeeded for the first n page references of a message. */
  ghost predicate SavedUpTo(s: System, id: nat, n: nat)
    requires id < |s.stream| && s.stream[id].Carries?
  {
    forall k :: 0 <= k < n && k < |s.stream[id].job.pageRefs| ==> SavedFor(s, id, s.stream[id].job.pageRefs[k])
  }

  ghost predicate SavedFor(s: System, id: nat, ref: string) {
    exists save :: save in s.saves && save.id == id && save.ref == ref
  }

  /** An acknowledged message carries a job whose every page reference has been saved. */
  ghost predicate AckedIsSaved(s: System, id: nat) {
    id < |s.stream| && s.stream[id].Carries? && SavedUpTo(s, id, |s.stream[id].job.pageRefs|)
  }

  ghost predicate Invariant(s: System) {
    && Partitioned(s)
    && DeliveredOnce(s)
    && (forall w :: w in s.workers ==> Holds(s, w, s.workers[w]))
    && (forall id :: id in s.acked ==> AckedIsSaved(s, id))
  }

  lemma {:induction false} WithJobsFacts(stream: seq<Message>, ids: seq<nat>)
    requires forall i :: 0 <= i < |ids| ==> ids[i] < |stream|
    requires forall i, j :: 0 <= i < j < |ids| ==> ids[i] < ids[j]
    ensures forall id :: id in WithJobs(stream, ids) ==> id in ids && stream[id].Carries?
    ensures forall k, l :: 0 <= k < l < |WithJobs(stream, ids)| ==> WithJobs(stream, ids)[k] < WithJobs(stream, ids)[l]
  {
    if ids != [] {
      WithJobsFacts(stream, ids[1..]);
      forall id | id in WithJobs(stream, ids[1..])
        ensures id > ids[0]
      {
        var k :| 0 <= k < |ids[1..]| && ids[1..][k] == id;
        assert ids[k + 1] == id;
      }
      var rest := WithJobs(stream, ids[1..]);
      forall k, l | 0 <= k < l < |WithJobs(stream, ids)|
        ensures WithJobs(stream, ids)[k] < WithJobs(stream, ids)[l]
      {
        if stream[ids[0]].Carries? {
          assert WithJobs(stream, ids)[l] == rest[l - 1] && rest[l - 1] in rest;
        } else {
          assert WithJobs(stream, ids) == rest;
        }
      }
    }
  }

  /** Steps only ever add messages, saves and deliveries, so what is held or saved stays so. */
  ghost predicate Grows(s: System, t: System) {
    && s.stream <= t.stream && s.saves <= t.saves && s.deliveries <= t.deliveries && s.next <= t.next
  }

  lemma SavedStays(s: System, t: System, id: nat, n: nat)
    requires Grows(s, t) && id < |s.stream| && s.stream[id].Carries? && SavedUpTo(s, id, n)
    ensures t.stream[id] == s.stream[id] && SavedUpTo(t, id, n)
  {
    forall k | 0 <= k < n && k < |s.stream[id].job.pageRefs|
      ensures SavedFor(t, id, t.stream[id].job.pageRefs[k])
    {
      assert SavedFor(s, id, s.stream[id].job.pageRefs[k]);
    }
  }

  lemma HoldsStays(s: System, t: System, w: nat, worker: Worker)
    requires Holds(s, w, worker) && Grows(s, t)
    requires worker.Busy? ==> forall k :: 0 <= k < |worker.batch| ==> worker.batch[k] in t.pending
    ensures Holds(t, w, worker)
  {
    if worker.Busy? {
      assert Held(s, w, worker.batch[0]);
      forall k | 0 <= k < |worker.batch|
        ensures Held(t, w, worker.batch[k])
      {
        assert Held(s, w, worker.batch[k]);
      }
      if worker.artifact.Some? {
        SavedStays(s, t, worker.batch[0], worker.done);
      }
    }
  }

  /** What is left to show once a step has grown the system and moved at most worker w and message `gone`. */
  lemma OthersKeep(s: System, t: System, w: nat, gone: set<nat>)
    requires Invariant(s) && Grows(s, t)
    requires forall v :: v in t.workers && v != w ==> v in s.workers && t.workers[v] == s.workers[v]
    requires s.pending - gone <= t.pending
    requires forall id :: id in gone ==> id < |s.deliveries| && s.deliveries[id].1 == w
    requires t.acked <= s.acked + gone
    ensures forall v :: v in t.workers && v != w ==> Holds(t, v, t.workers[v])
    ensures forall id :: id in t.acked && id !in gone ==> AckedIsSaved(t, id)
  {
    forall v | v in t.workers && v != w
      ensures Holds(t, v, t.workers[v])
    {
      var worker := s.workers[v];
      assert Holds(s, v, worker);
      if worker.Busy? {
        forall k | 0 <= k < |worker.batch|
          ensures worker.batch[k] in t.pending
        {
          assert Held(s, v, worker.batch[k]);
        }
      }
      HoldsStays(s, t, v, worker);
    }
    forall id | id in t.acked && id !in gone
      ensures AckedIsSaved(t, id)
    {
      assert AckedIsSaved(s, id);
      SavedStays(s, t, id, |s.stream[id].job.pageRefs|);
    }
  }

  lemma ConsumeKeeps(s: System, w: nat, count: nat, replied: bool)
    requires CanConsume(s, w) && Invariant(s)
    ensures Invariant(ConsumeStep(s, w, count, replied))
  {
    var t, ids := ConsumeStep(s, w, count, replied), Taken(s, count);
    WithJobsFacts(s.stream, ids);
    IdsAreRange(s.next, t.next);
    OthersKeep(s, t, w, {});
    if t.workers[w].Busy? {
      forall k | 0 <= k < |t.workers[w].batch|
        ensures Held(t, w, t.workers[w].batch[k])
      {
        assert t.workers[w].batch[k] in ids;
      }
    }
  }

  lemma SaveKeeps(s: System, w: nat, now: Time, written: bool, replied: bool)
    requires CanSave(s, w) && Invariant(s)
    ensures Invariant(SaveStep(s, w, now, written, replied))
  {
    var t := SaveStep(s, w, now, written, replied);
    OthersKeep(s, t, w, {});
    if t.workers[w].Busy? {
      SavedOneMore(s, w, now, written, replied);
    }
  }

  lemma SavedOneMore(s: System, w: nat, now: Time, written: bool, replied: bool)
    requires CanSave(s, w) && Invariant(s) && SaveStep(s, w, now, written, replied).workers[w].Busy?
    ensures var t := SaveStep(s, w, now, written, replied); Holds(t, w, t.workers[w])
  {
    var t, worker := SaveStep(s, w, now, written, replied), s.workers[w];
    assert Holds(s, w, worker);
    HoldsStays(s, t, w, worker);
    var prepared := s.clerk.Prepare(NextRef(s, w), worker.artifact.value, now).value;
    assert Save(worker.batch[0], NextRef(s, w), prepared) in t.saves;
    assert SavedFor(t, worker.batch[0], NextRef(s, w));
    HoldsMore(t, w, worker);
  }

  lemma HoldsMore(t: System, w: nat, worker: Worker)
    requires worker.Busy? && worker.artifact.Some? && Holds(t, w, worker)
    requires var id := worker.batch[0];
      id < |t.stream| && t.stream[id].Carries? && worker.done < |t.stream[id].job.pageRefs| &&
        SavedFor(t, id, t.stream[id].job.pageRefs[worker.done])
    ensures Holds(t, w, worker.(done := worker.done + 1))
  {}

  lemma AckKeeps(s: System, w: nat, applied: bool, replied: bool)
    requires CanAck(s, w) && Invariant(s)
    ensures Invariant(AckStep(s, w, applied, replied))
  {
    var t, worker := AckStep(s, w, applied, replied), s.workers[w];
    var id := worker.batch[0];
    assert Holds(s, w, worker) && Held(s, w, id);
    OthersKeep(s, t, w, {id});
    SavedStays(s, t, id, |s.stream[id].job.pageRefs|);
    assert AckedIsSaved(t, id);
    if t.workers[w].Busy? {
      forall k | 0 <= k < |t.workers[w].batch|
        ensures Held(t, w, t.workers[w].batch[k])
      {
        assert Held(s, w, worker.batch[k + 1]);
      }
    }
  }

  lemma EnqueueKeeps(s: System, m: Message)
    requires Invariant(s)
    ensures Invariant(s.(stream := s.stream + [m]))
  {
    var t := s.(stream := s.stream + [m]);
    forall v | v in t.workers
      ensures Holds(t, v, t.workers[v])
    {
      HoldsStays(s, t, v, s.workers[v]);
    }
    forall id | id in t.acked
      ensures AckedIsSaved(t, id)
    {
      assert AckedIsSaved(s, id);
      SavedStays(s, t, id, |s.stream[id].job.pageRefs|);
    }
  }

  /** Putting a worker into a state that holds nothing, or what it held before with a fresh artifact. */
  lemma PutKeeps(s: System, w: nat, worker: Worker)
    requires Invariant(s)
    requires worker.Busy? ==>
      w in s.workers && s.workers[w].Busy? && worker.batch == s.workers[w].batch && worker.done == 0
    ensures Invariant(Put(s, w, worker))
  {
    var t := Put(s, w, worker);
    OthersKeep(s, t, w, {});
    if worker.Busy? {
      assert Holds(s, w, s.workers[w]);
      HoldsStays(s, t, w, s.workers[w]);
    }
  }

  lemma NextKeepsInvariant(s: System, step: Step)
    requires Invariant(s)
    ensures Invariant(Next(s, step))
  {
    match step
    case Enqueue(m) => EnqueueKeeps(s, m);
    case Enter(w) => PutKeeps(s, w, Idle);
    case Consume(w, count, replied) => if CanConsume(s, w) { ConsumeKeeps(s, w, count, replied); }
    case SummarizeHead(w, now) => if CanSummarize(s, w) { PutKeeps(s, w, SummarizeStep(s, w, now).workers[w]); }
    case SaveNext(w, now, written, replied) => if CanSave(s, w) { SaveKeeps(s, w, now, written, replied); }
    case AckHead(w, applied, replied) => if CanAck(s, w) { AckKeeps(s, w, applied, replied); }
    case Halt(w) => PutKeeps(s, w, Stopped);
  }

  /** Over every interleaving of producers, workers, failures and stops: nothing is lost, nothing is delivered twice,
      and an acknowledged message has had SaveSummary succeed for every one of its page references. */
  lemma {:induction false} RunKeepsInvariant(clerk: Clerk, writer: Writer, steps: seq<Step>)
    ensures Invariant(Run(Start(clerk, writer), steps))
  {
    if steps != [] {
      RunKeepsInvariant(clerk, writer, steps[..|steps| - 1]);
      NextKeepsInvariant(Run(Start(clerk, writer), steps[..|steps| - 1]), steps[|steps| - 1]);
    }
  }

  // ----- content hashes -----

  /** The page key carries no hash, or the hash the job was made with; a job without a hash takes any key. */
  predicate RefAgrees(job: Job, ref: string) {
    HashFromKey(ref) == "" || Blank(job.contentHash) || TrimSpace(job.contentHash) == HashFromKey(ref)
  }

  predicate HashAgrees(job: Job) {
    forall k :: 0 <= k < |job.pageRefs| ==> RefAgrees(job, job.pageRefs[k])
  }

  /** What SaveSummary looks at before it accepts the artifact of a job. */
  predicate Summarises(a: Artifact, job: Job) {
    a.contentHash == TrimSpace(job.contentHash) && !Blank(a.summaryText)
  }

  lemma SummarizeSummarises(writer: Writer, job: Job, made: Time)
    ensures Summarize(writer, job, made).Some? <==> writer.Speaks(job)
    ensures Summarize(writer, job, made).Some? ==> Summarises(Summarize(writer, job, made).value, job)
  {
    writer.SummaryBlankExactly(job);
    TrimIdempotent(writer.SummaryText(job));
  }

  /** SaveSummary accepts a job's artifact under a page key exactly when the hashes agree. */
  lemma SummaryAccepted(clerk: Clerk, a: Artifact, job: Job, ref: string, now: Time)
    requires Summarises(a, job)
    ensures clerk.Prepare(ref, a, now).Some? <==> RefAgrees(job, ref)
  {
    TrimIdempotent(job.contentHash);
  }

  /** The artifact a worker holds summarises its message, and the references saved so far agree with it. */
  ghost predicate WorksFor(s: System, worker: Worker) {
    worker.Busy? && worker.batch != [] && worker.artifact.Some? ==>
      var id := worker.batch[0];
      id < |s.stream| && s.stream[id].Carries? && WorksOn(s.stream[id].job, worker.artifact.value, worker.done) &&
        s.writer.Speaks(s.stream[id].job)
  }

  ghost predicate WorksOn(job: Job, a: Artifact, done: nat) {
    Summarises(a, job) && forall k :: 0 <= k < done && k < |job.pageRefs| ==> RefAgrees(job, job.pageRefs[k])
  }

  ghost predicate AckedAgrees(s: System, id: nat) {
    id < |s.stream| && s.stream[id].Carries? && HashAgrees(s.stream[id].job) && s.writer.Speaks(s.stream[id].job)
  }

  ghost predicate HashesKept(s: System) {
    && (forall w :: w in s.workers ==> WorksFor(s, s.workers[w]))
    && (forall id :: id in s.acked ==> AckedAgrees(s, id))
  }

  lemma WorksOnGrows(job: Job, a: Artifact, done: nat)
    requires WorksOn(job, a, done) && done < |job.pageRefs| && RefAgrees(job, job.pageRefs[done])
    ensures WorksOn(job, a, done + 1)
  {}

  lemma SaveAcceptedAgrees(s: System, w: nat, now: Time, written: bool, replied: bool)
    requires CanSave(s, w) && SaveStep(s, w, now, written, replied).workers[w] != Stopped
    requires Summarises(s.workers[w].artifact.value, s.stream[s.workers[w].batch[0]].job)
    ensures RefAgrees(s.stream[s.workers[w].batch[0]].job, NextRef(s, w))
  {
    SummaryAccepted(s.clerk, s.workers[w].artifact.value, s.stream[s.workers[w].batch[0]].job, NextRef(s, w), now);
  }

  lemma SaveWorks(s: System, w: nat, now: Time, written: bool, replied: bool)
    requires HashesKept(s) && CanSave(s, w)
    ensures WorksFor(SaveStep(s, w, now, written, replied), SaveStep(s, w, now, written, replied).workers[w])
  {
    var worker := s.workers[w];
    var job := s.stream[worker.batch[0]].job;
    assert WorksFor(s, worker);
    if SaveStep(s, w, now, written, replied).workers[w] != Stopped {
      SaveAcceptedAgrees(s, w, now, written, replied);
      WorksOnGrows(job, worker.artifact.value, worker.done);
    }
  }

  lemma SummarizeWorks(s: System, w: nat, now: Time)
    requires CanSummarize(s, w)
    ensures WorksFor(SummarizeStep(s, w, now), SummarizeStep(s, w, now).workers[w])
  {
    SummarizeSummarises(s.writer, s.stream[s.workers[w].batch[0]].job, now);
  }

  /** Steps of one worker that leave the stream alone: only that worker and a message it acknowledges need a look. */
  lemma RestKeepsHashes(s: System, t: System, w: nat)
    requires HashesKept(s) && t.stream == s.stream && t.writer == s.writer
    requires forall v :: v in t.workers && v != w ==> v in s.workers && t.workers[v] == s.workers[v]
    requires w in t.workers ==> WorksFor(t, t.workers[w])
    requires forall id :: id in t.acked && id !in s.acked ==> AckedAgrees(s, id)
    ensures HashesKept(t)
  {
    forall v | v in t.workers && v != w
      ensures WorksFor(t, t.workers[v])
    {
      assert WorksFor(s, s.workers[v]);
    }
    forall id | id in t.acked
      ensures AckedAgrees(t, id)
    {
      assert AckedAgrees(s, id);
    }
  }

  lemma EnqueueKeepsHashes(s: System, m: Message)
    requires HashesKept(s)
    ensures HashesKept(s.(stream := s.stream + [m]))
  {
    forall v | v in s.workers
      ensures WorksFor(s.(stream := s.stream + [m]), s.workers[v])
    {
      assert WorksFor(s, s.workers[v]);
    }
    forall id | id in s.acked
      ensures AckedAgrees(s.(stream := s.stream + [m]), id)
    {
      assert AckedAgrees(s, id);
    }
  }

  lemma NextKeepsHashes(s: System, step: Step)
    requires HashesKept(s)
    ensures HashesKept(Next(s, step))
  {
    match step
    case Enqueue(m) => EnqueueKeepsHashes(s, m);
    case Enter(w) => if w !in s.workers { RestKeepsHashes(s, Put(s, w, Idle), w); }
    case Consume(w, count, replied) => if CanConsume(s, w) { RestKeepsHashes(s, ConsumeStep(s, w, count, replied), w); }
    case SummarizeHead(w, now) =>
      if CanSummarize(s, w) {
        SummarizeWorks(s, w, now);
        RestKeepsHashes(s, SummarizeStep(s, w, now), w);
      }
    case SaveNext(w, now, written, replied) =>
      if CanSave(s, w) {
        SaveWorks(s, w, now, written, replied);
        RestKeepsHashes(s, SaveStep(s, w, now, written, replied), w);
      }
    case AckHead(w, applied, replied) =>
      if CanAck(s, w) {
        assert WorksFor(s, s.workers[w]);
        RestKeepsHashes(s, AckStep(s, w, applied, replied), w);
      }
    case Halt(w) => if w in s.workers { RestKeepsHashes(s, Put(s, w, Stopped), w); }
  }

  /** A job whose content hash disagrees with one of its page keys, or with nothing to say, is never acknowledged, in
      any run. */
  lemma {:induction false} AckedJobsAgree(clerk: Clerk, writer: Writer, steps: seq<Step>)
    ensures HashesKept(Run(Start(clerk, writer), steps))
  {
    if steps != [] {
      AckedJobsAgree(clerk, writer, steps[..|steps| - 1]);
      NextKeepsHashes(Run(Start(clerk, writer), steps[..|steps| - 1]), steps[|steps| - 1]);
    }
  }

  // ----- the converse: an agreeing job can be acknowledged -----

  /** Saves for references done .. n, one after the other. */
  function SaveSteps(w: nat, n: nat): seq<Step> {
    if n == 0 then [] else SaveSteps(w, n - 1) + [SaveNext(w, 1, true, true)]
  }

  /** A system whose worker w works on `job`, with `done` references saved. */
  ghost predicate WorkingOn(s: System, w: nat, job: Job, a: Artifact, done: nat) {
    IsBusy(s, w) && s.stream[s.workers[w].batch[0]].job == job && s.workers[w].artifact == Some(a) &&
      s.workers[w].done == done
  }

  lemma OneSaveSucceeds(s: System, w: nat, job: Job, a: Artifact, done: nat)
    requires WorkingOn(s, w, job, a, done) && Summarises(a, job) && done < |job.pageRefs| &&
      RefAgrees(job, job.pageRefs[done])
    ensures var t := Next(s, SaveNext(w, 1, true, true));
      WorkingOn(t, w, job, a, done + 1) && t.workers[w].batch == s.workers[w].batch && t.stream == s.stream
  {
    SummaryAccepted(s.clerk, a, job, job.pageRefs[done], 1);
    assert CanSave(s, w) && NextRef(s, w) == job.pageRefs[done];
    assert Next(s, SaveNext(w, 1, true, true)) == SaveStep(s, w, 1, true, true);
  }

  lemma RunSnoc(s: System, steps: seq<Step>, step: Step)
    ensures Run(s, steps + [step]) == Next(Run(s, steps), step)
  {
    assert (steps + [step])[..|steps|] == steps;
  }

  /** From s to t worker w has saved the first n references of its message, and nothing else has moved. */
  ghost predicate SavedTo(s: System, t: System, w: nat, job: Job, a: Artifact, n: nat) {
    WorkingOn(t, w, job, a, n) && w in s.workers && s.workers[w].Busy? && t.workers[w].batch == s.workers[w].batch &&
      t.stream == s.stream
  }

  lemma SavedToNext(s: System, t: System, w: nat, job: Job, a: Artifact, n: nat)
    requires SavedTo(s, t, w, job, a, n) && Summarises(a, job) && n < |job.pageRefs| && RefAgrees(job, job.pageRefs[n])
    ensures SavedTo(s, Next(t, SaveNext(w, 1, true, true)), w, job, a, n + 1)
  {
    OneSaveSucceeds(t, w, job, a, n);
  }

  lemma {:induction false} SavesSucceed(s: System, w: nat, job: Job, a: Artifact, n: nat)
    requires WorkingOn(s, w, job, a, 0) && Summarises(a, job) && HashAgrees(job) && n <= |job.pageRefs|
    ensures SavedTo(s, Run(s, SaveSteps(w, n)), w, job, a, n)
  {
    if n > 0 {
      SavesSucceed(s, w, job, a, n - 1);
      SavedToNext(s, Run(s, SaveSteps(w, n - 1)), w, job, a, n - 1);
      RunSnoc(s, SaveSteps(w, n - 1), SaveNext(w, 1, true, true));
    }
  }

  lemma {:induction false} RunAppend(s: System, a: seq<Step>, b: seq<Step>)
    ensures Run(s, a + b) == Run(Run(s, a), b)
  {
    if b == [] {
      assert a + b == a;
    } else {
      var init := b[..|b| - 1];
      assert (a + b)[..|a + b| - 1] == a + init;
      RunAppend(s, a, init);
    }
  }

  /** One job in the stream, and worker 0 in the given state. */
  ghost predicate OneJob(s: System, clerk: Clerk, writer: Writer, job: Job, worker: Worker) {
    s.clerk == clerk && s.writer == writer && s.stream == [Carries(job)] && 0 in s.workers && s.workers[0] == worker
  }

  lemma FirstRead(s: System, clerk: Clerk, writer: Writer, job: Job)
    requires OneJob(s, clerk, writer, job, Idle) && s.next == 0
    ensures OneJob(Next(s, Consume(0, 1, true)), clerk, writer, job, Busy([0], None, 0))
  {
    var ids := Taken(s, 1);
    assert ids == [0] && ids[1..] == [];
    assert WithJobs(s.stream, ids) == [0];
  }

  lemma FirstSummary(s: System, clerk: Clerk, writer: Writer, job: Job)
    requires OneJob(s, clerk, writer, job, Busy([0], None, 0)) && writer.Speaks(job)
    ensures Summarize(writer, job, 1).Some?
    ensures OneJob(Next(s, SummarizeHead(0, 1)), clerk, writer, job, Busy([0], Summarize(writer, job, 1), 0))
  {
    SummarizeSummarises(writer, job, 1);
  }

  lemma RunOne(s: System, step: Step)
    ensures Run(s, [step]) == Next(s, step)
  {
    assert [step][..0] == [];
    assert Run(s, [step][..0]) == s;
  }

  lemma RunFour(s: System, a: Step, b: Step, c: Step, d: Step)
    ensures Run(s, [a] + [b] + [c] + [d]) == Next(Next(Next(Next(s, a), b), c), d)
  {
    RunOne(s, a);
    RunAppend(s, [a], [b]);
    RunOne(Next(s, a), b);
    RunAppend(s, [a] + [b], [c]);
    RunOne(Next(Next(s, a), b), c);
    RunAppend(s, [a] + [b] + [c], [d]);
    RunOne(Next(Next(Next(s, a), b), c), d);
  }

  lemma FirstSteps(clerk: Clerk, writer: Writer, job: Job)
    requires writer.Speaks(job)
    ensures Summarize(writer, job, 1).Some?
    ensures OneJob(
      Run(Start(clerk, writer), [Enqueue(Carries(job))] + [Enter(0)] + [Consume(0, 1, true)] + [SummarizeHead(0, 1)]),
      clerk, writer, job, Busy([0], Summarize(writer, job, 1), 0))
  {
    var joined := Next(Next(Start(clerk, writer), Enqueue(Carries(job))), Enter(0));
    assert OneJob(joined, clerk, writer, job, Idle) && joined.next == 0;
    FirstRead(joined, clerk, writer, job);
    FirstSummary(Next(joined, Consume(0, 1, true)), clerk, writer, job);
    RunFour(Start(clerk, writer), Enqueue(Carries(job)), Enter(0), Consume(0, 1, true), SummarizeHead(0, 1));
  }

  /** A run that takes one freshly enqueued job from the stream to its acknowledgement. */
  function HandlingRun(job: Job): seq<Step> {
    [Enqueue(Carries(job))] + [Enter(0)] + [Consume(0, 1, true)] + [SummarizeHead(0, 1)]
      + SaveSteps(0, |job.pageRefs|) + [AckHead(0, true, true)]
  }

  /** Some run starting with this job acknowledges it. */
  ghost predicate Acknowledgeable(clerk: Clerk, writer: Writer, job: Job) {
    exists steps :: 0 in Run(Start(clerk, writer), [Enqueue(Carries(job))] + steps).acked
  }

  lemma AgreeingJobIsAcked(clerk: Clerk, writer: Writer, job: Job)
    requires HashAgrees(job) && writer.Speaks(job)
    ensures 0 in Run(Start(clerk, writer), HandlingRun(job)).acked
  {
    var front := [Enqueue(Carries(job))] + [Enter(0)] + [Consume(0, 1, true)] + [SummarizeHead(0, 1)];
    FirstSteps(clerk, writer, job);
    var s := Run(Start(clerk, writer), front);
    RunAppend(Start(clerk, writer), front, SaveSteps(0, |job.pageRefs|));
    RunAppend(Start(clerk, writer), front + SaveSteps(0, |job.pageRefs|), [AckHead(0, true, true)]);
    SavedJobIsAcked(s, clerk, writer, job);
  }

  lemma SavedJobIsAcked(s: System, clerk: Clerk, writer: Writer, job: Job)
    requires HashAgrees(job) && Summarize(writer, job, 1).Some? &&
      OneJob(s, clerk, writer, job, Busy([0], Summarize(writer, job, 1), 0))
    ensures 0 in Run(Run(s, SaveSteps(0, |job.pageRefs|)), [AckHead(0, true, true)]).acked
  {
    SummarizeSummarises(writer, job, 1);
    SavesSucceed(s, 0, job, Summarize(writer, job, 1).value, |job.pageRefs|);
    RunOne(Run(s, SaveSteps(0, |job.pageRefs|)), AckHead(0, true, true));
  }

  lemma {:induction false} StreamStays(s: System, steps: seq<Step>, id: nat)
    requires id < |s.stream|
    ensures id < |Run(s, steps).stream| && Run(s, steps).stream[id] == s.stream[id] && Run(s, steps).writer == s.writer
  {
    if steps != [] {
      StreamStays(s, steps[..|steps| - 1], id);
    }
  }

  /** A job can be acknowledged exactly when its content hash agrees with every one of its page keys and there is
      something to say about it. */
  lemma AcknowledgeableExactly(clerk: Clerk, writer: Writer, job: Job)
    ensures Acknowledgeable(clerk, writer, job) <==> HashAgrees(job) && writer.Speaks(job)
  {
    var first := [Enqueue(Carries(job))];
    if HashAgrees(job) && writer.Speaks(job) {
      AgreeingJobIsAcked(clerk, writer, job);
      assert HandlingRun(job) == first + HandlingRun(job)[1..];
    }
    if Acknowledgeable(clerk, writer, job) {
      var steps :| 0 in Run(Start(clerk, writer), first + steps).acked;
      AckedJobsAgree(clerk, writer, first + steps);
      assert AckedAgrees(Run(Start(clerk, writer), first + steps), 0);
      RunAppend(Start(clerk, writer), first, steps);
      assert first[..0] == [] && Run(Start(clerk, writer), first) == Next(Start(clerk, writer), first[0]);
      StreamStays(Run(Start(clerk, writer), first), steps, 0);
    }
  }

  // ----- the worker's own code: every round it makes is a sequence of steps of the protocol -----

  class SummaryWorker {
    const w: nat
    var system: System

    constructor (w: nat, system: System)
      ensures this.w == w && this.system == system
    {
      this.w := w;
      this.system := system;
    }

    /** handleJob: summarise, then save under every page reference; the first failure ends it. */
    method HandleJob() returns (ok: bool, ghost trace: seq<Step>)
      requires CanSummarize(system, w)
      modifies this`system
      ensures system == Run(old(system), trace)
      ensures system.stream == old(system.stream) && w in system.workers && system.acked == old(system.acked)
      ensures ok ==> CanAck(system, w) && system.workers[w].batch == old(system.workers[w].batch)
      ensures !ok ==> system.workers[w] == Stopped
    {
      var now: Time := *;
      var job := system.stream[system.workers[w].batch[0]].job;
      trace := [SummarizeHead(w, now)];
      RunSnoc(system, [], SummarizeHead(w, now));
      system := SummarizeStep(system, w, now);
      if system.workers[w] == Stopped {
        return false, trace;
      }
      var k := 0;
      while k < |job.pageRefs|
        invariant 0 <= k <= |job.pageRefs|
        invariant system == Run(old(system), trace)
        invariant system.stream == old(system.stream) && w in system.workers && system.acked == old(system.acked)
        invariant IsBusy(system, w) && system.workers[w].batch == old(system.workers[w].batch)
        invariant system.workers[w].artifact.Some? && system.workers[w].done == k
      {
        var at: Time, written: bool, replied: bool := *, *, *;
        RunSnoc(old(system), trace, SaveNext(w, at, written, replied));
        trace := trace + [SaveNext(w, at, written, replied)];
        system := SaveStep(system, w, at, written, replied);
        if system.workers[w] == Stopped {
          return false, trace;
        }
        k := k + 1;
      }
      return true, trace;
    }

    /** One turn of processMessages: handle the first message and acknowledge it. */
    method HandleAndAck() returns (ok: bool, ghost trace: seq<Step>)
      requires CanSummarize(system, w)
      modifies this`system
      ensures system == Run(old(system), trace)
      ensures system.stream == old(system.stream) && w in system.workers
      ensures ok ==> system.acked == old(system.acked) + {old(system.workers[w].batch[0])}
      ensures ok ==> system.workers[w] == if |old(system.workers[w].batch)| == 1 then Idle
                                          else Busy(old(system.workers[w].batch[1..]), None, 0)
      ensures !ok ==> system.workers[w] == Stopped
    {
      ok, trace := HandleJob();
      if !ok {
        return;
      }
      var applied: bool, replied: bool := *, *;
      RunSnoc(old(system), trace, AckHead(w, applied, replied));
      trace := trace + [AckHead(w, applied, replied)];
      system := AckStep(system, w, applied, replied);
      ok := applied && replied;
    }

    /** processMessages: one message after the other; the first failure ends the batch. */
    method ProcessMessages() returns (ok: bool, ghost trace: seq<Step>)
      requires CanSummarize(system, w)
      requires forall id :: id in system.workers[w].batch ==> id < |system.stream| && system.stream[id].Carries?
      modifies this`system
      ensures system == Run(old(system), trace)
      ensures w in system.workers && system.workers[w] == if ok then Idle else Stopped
      ensures ok ==> forall id :: id in old(system.workers[w].batch) ==> id in system.acked
    {
      ghost var batch, k: nat := system.workers[w].batch, 0;
      trace := [];
      var left := |system.workers[w].batch|;
      while left > 0
        invariant system == Run(old(system), trace) && system.stream == old(system.stream) && w in system.workers
        invariant 0 <= left && k + left == |batch|
        invariant if left == 0 then system.workers[w] == Idle
                  else FreshBatch(system.workers[w], batch[k..])
        invariant forall j :: 0 <= j < k ==> batch[j] in system.acked
      {
        ghost var more: seq<Step>;
        assert batch[k..][0] in batch && batch[k..][1..] == batch[k + 1..];
        ok, more := HandleAndAck();
        RunAppend(old(system), trace, more);
        trace := trace + more;
        if !ok {
          return;
        }
        left, k := left - 1, k + 1;
      }
      ok := true;
    }
  }
}
