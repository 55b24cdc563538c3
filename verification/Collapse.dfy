/** Collapsing duplicate chunks: one chunk per text, with the sources of all of its duplicates. */
module Collapse {
  import opened Text
  import opened Seqs
  import opened Content

  /** uniqueStrings on top of what is already in `out`. */
  function AddUnique(out: seq<string>, values: seq<string>): seq<string>
    decreases |values|
  {
    if values == [] then out
    else
      var value := TrimSpace(values[0]);
      AddUnique(if value == "" || value in out then out else out + [value], values[1..])
  }

  method UniqueStrings(values: seq<string>) returns (out: seq<string>)
    ensures out == AddUnique([], values)
  {
    out := [];
    var seen: set<string> := {};
    var todo := values;
    while |todo| > 0
      invariant AddUnique(out, todo) == AddUnique([], values)
      invariant forall v :: v in seen <==> v in out
    {
      var value := TrimSpace(todo[0]);
      todo := todo[1..];
      if !(value == "" || value in seen) {
        seen := seen + {value};
        out := out + [value];
      }
    }
  }

  ghost predicate NoRepeats<T>(xs: seq<T>) {
    forall i, j :: 0 <= i < j < |xs| ==> xs[i] != xs[j]
  }

  ghost predicate Clean(values: seq<string>) {
    NoRepeats(values) && forall v :: v in values ==> v != "" && Trimmed(v)
  }

  lemma {:induction false} AddUniqueClean(out: seq<string>, values: seq<string>)
    requires Clean(out)
    ensures Clean(AddUnique(out, values)) && out <= AddUnique(out, values)
    decreases |values|
  {
    if values != [] {
      var value := TrimSpace(values[0]);
      TrimSpaceTrims(values[0]);
      AddUniqueClean(if value == "" || value in out then out else out + [value], values[1..]);
    }
  }

  /** The trimmed values that are not blank. */
  function Labels(values: seq<string>): set<string> {
    set v | v in values && TrimSpace(v) != "" :: TrimSpace(v)
  }

  lemma {:induction false} AddUniqueSet(out: seq<string>, values: seq<string>)
    ensures (set v | v in AddUnique(out, values)) == (set v | v in out) + Labels(values)
    decreases |values|
  {
    if values != [] {
      var value := TrimSpace(values[0]);
      AddUniqueSet(if value == "" || value in out then out else out + [value], values[1..]);
      assert Labels(values) == Labels(values[1..]) + (if value == "" then {} else {value}) by {
        assert values == [values[0]] + values[1..];
      }
    }
  }

  lemma {:induction false} AddUniqueAppend(out: seq<string>, a: seq<string>, b: seq<string>)
    ensures AddUnique(out, a + b) == AddUnique(AddUnique(out, a), b)
    decreases |a|
  {
    if a == [] {
      assert a + b == b;
    } else {
      assert (a + b)[1..] == a[1..] + b;
      var value := TrimSpace(a[0]);
      AddUniqueAppend(if value == "" || value in out then out else out + [value], a[1..], b);
    }
  }

  lemma {:induction false} AddUniqueOfClean(out: seq<string>, values: seq<string>)
    requires Clean(out + values)
    ensures AddUnique(out, values) == out + values
    decreases |values|
  {
    if values != [] {
      assert (out + values)[|out|] == values[0] && values[0] in out + values;
      TrimmedStays(values[0]);
      assert values[0] !in out by {
        forall i | 0 <= i < |out|
          ensures out[i] != values[0]
        {
          assert (out + values)[i] != (out + values)[|out|];
        }
      }
      assert out + values == (out + [values[0]]) + values[1..];
      AddUniqueOfClean(out + [values[0]], values[1..]);
    }
  }

  /** Adding to a list that is already unique continues where that list stopped. */
  lemma MergeContinues(a: seq<string>, b: seq<string>)
    ensures AddUnique([], AddUnique([], a) + b) == AddUnique([], a + b)
  {
    AddUniqueClean([], a);
    AddUniqueOfClean([], AddUnique([], a));
    assert [] + AddUnique([], a) == AddUnique([], a);
    AddUniqueAppend([], AddUnique([], a), b);
    AddUniqueAppend([], a, b);
  }

  /** The normalised text and the stable sources of a chunk; how they are computed is left open here. */
  datatype View = View(textOf: Chunk -> string, sourcesOf: Chunk -> seq<string>) {

    /** The distinct texts in order of first appearance. */
    function Texts(chunks: seq<Chunk>): seq<string> {
      if chunks == [] then []
      else
        var n := |chunks| - 1;
        var before := Texts(chunks[..n]);
        if textOf(chunks[n]) in before then before else before + [textOf(chunks[n])]
    }

    /** The sources of all chunks with one text, one after the other. */
    function AllSources(chunks: seq<Chunk>, text: string): seq<string> {
      if chunks == [] then []
      else
        var n := |chunks| - 1;
        AllSources(chunks[..n], text) + (if textOf(chunks[n]) == text then sourcesOf(chunks[n]) else [])
    }

    function FirstWith(chunks: seq<Chunk>, text: string): (r: Chunk)
      requires text in Texts(chunks)
      ensures r in chunks && textOf(r) == text
    {
      var n := |chunks| - 1;
      if text in Texts(chunks[..n]) then FirstWith(chunks[..n], text) else chunks[n]
    }

    function KeptFragments(chunk: Chunk): seq<Fragment> {
      if chunk.fragments == [] && !Blank(textOf(chunk)) then [Fragment("body", textOf(chunk), "")] else chunk.fragments
    }

    /** The chunk kept for a text: the first one, with the sources of all. */
    function Kept(chunks: seq<Chunk>, text: string): Chunk
      requires text in Texts(chunks)
    {
      var first := FirstWith(chunks, text);
      first.(sources := AddUnique([], AllSources(chunks, text)), fragments := KeptFragments(first))
    }

    /** `out` lists the kept chunks of all texts in order of first appearance. */
    ghost predicate IsCollapsed(chunks: seq<Chunk>, out: seq<Chunk>) {
      |out| == |Texts(chunks)| && forall i :: 0 <= i < |out| ==> out[i] == Kept(chunks, Texts(chunks)[i])
    }

    lemma Snoc(chunks: seq<Chunk>, chunk: Chunk)
      ensures var more := chunks + [chunk]; more[..|more| - 1] == chunks && more[|more| - 1] == chunk
    {}

    lemma {:induction false} TextsHaveNoRepeats(chunks: seq<Chunk>)
      ensures NoRepeats(Texts(chunks))
      ensures forall c :: c in chunks ==> textOf(c) in Texts(chunks)
    {
      if chunks != [] {
        var n := |chunks| - 1;
        TextsHaveNoRepeats(chunks[..n]);
        forall c | c in chunks
          ensures textOf(c) in Texts(chunks)
        {
          if c != chunks[n] {
            assert c in chunks[..n];
          }
        }
      }
    }

    /** A text that has not appeared yet has no sources yet. */
    lemma {:induction false} NewTextNoSources(chunks: seq<Chunk>, text: string)
      requires text !in Texts(chunks)
      ensures AllSources(chunks, text) == []
    {
      if chunks != [] {
        NewTextNoSources(chunks[..|chunks| - 1], text);
      }
    }

    // ----- the loop -----

    function Sizes(chunks: seq<Chunk>): nat {
      if chunks == [] then 0 else |chunks[0].sources| + Sizes(chunks[1..])
    }

    lemma {:induction false} SizesUpdate(chunks: seq<Chunk>, i: nat, chunk: Chunk)
      requires i < |chunks|
      ensures Sizes(chunks[i := chunk]) + |chunks[i].sources| == Sizes(chunks) + |chunk.sources|
    {
      if i > 0 {
        assert chunks[i := chunk][1..] == chunks[1..][i - 1 := chunk];
        SizesUpdate(chunks[1..], i - 1, chunk);
      } else {
        assert chunks[0 := chunk][1..] == chunks[1..];
      }
    }

    lemma {:induction false} SizesAppend(chunks: seq<Chunk>, chunk: Chunk)
      ensures Sizes(chunks + [chunk]) == Sizes(chunks) + |chunk.sources|
    {
      if chunks == [] {
        assert chunks + [chunk] == [chunk] && [chunk][1..] == [];
        assert Sizes([chunk]) == |chunk.sources| + Sizes([]);
      } else {
        assert (chunks + [chunk])[1..] == chunks[1..] + [chunk];
        SizesAppend(chunks[1..], chunk);
      }
    }

    /** The number of sources the kept chunks would have without their duplicates. */
    function FirstSizes(chunks: seq<Chunk>): nat {
      if chunks == [] then 0
      else
        var n := |chunks| - 1;
        FirstSizes(chunks[..n]) +
          if textOf(chunks[n]) in Texts(chunks[..n]) then 0 else |AddUnique([], sourcesOf(chunks[n]))|
    }

    /** What one more chunk does to the text list, to the sources of a text and to its kept chunk. */
    lemma TextsSnoc(done: seq<Chunk>, chunk: Chunk)
      ensures Texts(done + [chunk]) ==
        if textOf(chunk) in Texts(done) then Texts(done) else Texts(done) + [textOf(chunk)]
    {
      Snoc(done, chunk);
    }

    lemma AllSourcesSnoc(done: seq<Chunk>, chunk: Chunk, text: string)
      ensures AllSources(done + [chunk], text) ==
        AllSources(done, text) + if textOf(chunk) == text then sourcesOf(chunk) else []
    {
      Snoc(done, chunk);
    }

    lemma KeptOther(done: seq<Chunk>, chunk: Chunk, text: string)
      requires text in Texts(done) && text != textOf(chunk)
      ensures text in Texts(done + [chunk]) && Kept(done + [chunk], text) == Kept(done, text)
    {
      Snoc(done, chunk);
      TextsSnoc(done, chunk);
      AllSourcesSnoc(done, chunk, text);
      assert AllSources(done, text) + [] == AllSources(done, text);
    }

    lemma KeptDuplicate(done: seq<Chunk>, chunk: Chunk)
      requires textOf(chunk) in Texts(done)
      ensures var text := textOf(chunk);
        var kept := Kept(done, text);
        && text in Texts(done + [chunk])
        && Kept(done + [chunk], text) == kept.(sources := AddUnique([], kept.sources + sourcesOf(chunk)))
        && |kept.sources| <= |AddUnique([], kept.sources + sourcesOf(chunk))|
    {
      var all := AllSources(done, textOf(chunk));
      Snoc(done, chunk);
      TextsSnoc(done, chunk);
      AllSourcesSnoc(done, chunk, textOf(chunk));
      MergeContinues(all, sourcesOf(chunk));
      AddUniqueClean([], all);
      AddUniqueClean(AddUnique([], all), sourcesOf(chunk));
      AddUniqueAppend([], all, sourcesOf(chunk));
    }

    lemma KeptNew(done: seq<Chunk>, chunk: Chunk)
      requires textOf(chunk) !in Texts(done)
      ensures textOf(chunk) in Texts(done + [chunk])
      ensures Kept(done + [chunk], textOf(chunk)) == FirstKept(chunk)
    {
      Snoc(done, chunk);
      TextsSnoc(done, chunk);
      NewTextNoSources(done, textOf(chunk));
      AllSourcesSnoc(done, chunk, textOf(chunk));
      assert [] + sourcesOf(chunk) == sourcesOf(chunk);
    }

    function FirstKept(chunk: Chunk): Chunk {
      chunk.(sources := AddUnique([], sourcesOf(chunk)), fragments := KeptFragments(chunk))
    }

    lemma DuplicateStep(done: seq<Chunk>, chunk: Chunk, out: seq<Chunk>, i: nat)
      requires IsCollapsed(done, out) && i < |out| && Texts(done)[i] == textOf(chunk)
      ensures var merged := out[i].(sources := AddUnique([], out[i].sources + sourcesOf(chunk)));
        IsCollapsed(done + [chunk], out[i := merged])
      ensures |out[i].sources| <= |AddUnique([], out[i].sources + sourcesOf(chunk))|
    {
      TextsHaveNoRepeats(done);
      TextsSnoc(done, chunk);
      KeptDuplicate(done, chunk);
      forall k | 0 <= k < |out| && k != i
        ensures out[k] == Kept(done + [chunk], Texts(done)[k])
      {
        KeptOther(done, chunk, Texts(done)[k]);
      }
    }

    lemma NewStep(done: seq<Chunk>, chunk: Chunk, out: seq<Chunk>)
      requires IsCollapsed(done, out) && textOf(chunk) !in Texts(done)
      ensures IsCollapsed(done + [chunk], out + [FirstKept(chunk)])
    {
      TextsSnoc(done, chunk);
      KeptNew(done, chunk);
      forall k | 0 <= k < |out|
        ensures out[k] == Kept(done + [chunk], Texts(done)[k])
      {
        KeptOther(done, chunk, Texts(done)[k]);
      }
      var out', more := out + [FirstKept(chunk)], done + [chunk];
      forall k | 0 <= k < |out'|
        ensures out'[k] == Kept(more, Texts(more)[k])
      {
        assert k < |out| ==> out'[k] == out[k];
      }
    }

    // ----- the state of the loop -----

    /** Where the loop stands after `done`: the output, the index of every text, and the two counters. */
    ghost predicate Standing(done: seq<Chunk>, out: seq<Chunk>, seen: map<string, nat>, removed: nat,
                             mergedSources: nat) {
      && IsCollapsed(done, out)
      && removed == |done| - |out|
      && mergedSources == Sizes(out) - FirstSizes(done)
      && Indexes(seen, Texts(done))
    }

    /** The map holds the place of every text. */
    static ghost predicate Indexes(seen: map<string, nat>, texts: seq<string>) {
      (forall t :: t in seen <==> t in texts) && forall t :: t in seen ==> seen[t] < |texts| && texts[seen[t]] == t
    }

    static lemma IndexesMore(seen: map<string, nat>, texts: seq<string>, text: string)
      requires Indexes(seen, texts) && text !in seen
      ensures Indexes(seen[text := |texts|], texts + [text])
    {}

    lemma FirstSizesSnoc(done: seq<Chunk>, chunk: Chunk)
      ensures FirstSizes(done + [chunk]) ==
        FirstSizes(done) + if textOf(chunk) in Texts(done) then 0 else |AddUnique([], sourcesOf(chunk))|
    {
      Snoc(done, chunk);
    }

    /** A chunk whose text has been seen: its sources go to the chunk kept for that text. */
    method MergeDuplicate(ghost done: seq<Chunk>, chunk: Chunk, out: seq<Chunk>, i: nat)
      returns (out': seq<Chunk>, growth: nat)
      requires IsCollapsed(done, out) && i < |out| && Texts(done)[i] == textOf(chunk)
      ensures IsCollapsed(done + [chunk], out') && |out'| == |out|
      ensures Sizes(out') == Sizes(out) + growth
    {
      var sources := UniqueStrings(out[i].sources + sourcesOf(chunk));
      DuplicateStep(done, chunk, out, i);
      SizesUpdate(out, i, out[i].(sources := sources));
      growth := if |sources| > |out[i].sources| then |sources| - |out[i].sources| else 0;
      out' := out[i := out[i].(sources := sources)];
    }

    /** The chunk loop of CollapseProcessor.Process. */
    method CollapseChunks(chunks: seq<Chunk>) returns (out: seq<Chunk>, removed: nat, mergedSources: nat)
      ensures IsCollapsed(chunks, out)
      ensures removed == |chunks| - |out|
      ensures mergedSources == Sizes(out) - FirstSizes(chunks)
    {
      out, removed, mergedSources := [], 0, 0;
      var seen: map<string, nat> := map[];
      var todo := chunks;
      ghost var done: seq<Chunk> := [];
      while |todo| > 0
        invariant done + todo == chunks
        invariant Standing(done, out, seen, removed, mergedSources)
      {
        Shift(done, todo);
        out, seen, removed, mergedSources := CollapseOne(done, todo[0], out, seen, removed, mergedSources);
        done, todo := done + [todo[0]], todo[1..];
      }
      assert done == chunks;
    }

    /** One turn of the loop. */
    method CollapseOne(ghost done: seq<Chunk>, chunk: Chunk, out0: seq<Chunk>, seen0: map<string, nat>, removed0: nat,
                       merged0: nat)
      returns (out: seq<Chunk>, seen: map<string, nat>, removed: nat, merged: nat)
      requires Standing(done, out0, seen0, removed0, merged0)
      ensures Standing(done + [chunk], out, seen, removed, merged)
    {
      out, seen, removed, merged := out0, seen0, removed0, merged0;
      var text := textOf(chunk);
      if text in seen {
        var growth;
        out, growth := MergeDuplicate(done, chunk, out, seen[text]);
        StandingMerged(done, chunk, out0, out, seen, removed, merged, growth);
        removed := removed + 1;
        merged := merged + growth;
      } else {
        var sources := UniqueStrings(sourcesOf(chunk));
        StandingNew(done, chunk, out, seen, removed, merged);
        seen := seen[text := |out|];
        out := out + [chunk.(sources := sources, fragments := KeptFragments(chunk))];
      }
    }

    lemma StandingMerged(done: seq<Chunk>, chunk: Chunk, out: seq<Chunk>, out': seq<Chunk>, seen: map<string, nat>,
                         removed: nat, merged: nat, growth: nat)
      requires Standing(done, out, seen, removed, merged) && textOf(chunk) in seen
      requires IsCollapsed(done + [chunk], out') && |out'| == |out| && Sizes(out') == Sizes(out) + growth
      ensures Standing(done + [chunk], out', seen, removed + 1, merged + growth)
    {
      FirstSizesSnoc(done, chunk);
      TextsSnoc(done, chunk);
    }

    lemma StandingNew(done: seq<Chunk>, chunk: Chunk, out: seq<Chunk>, seen: map<string, nat>, removed: nat,
                      merged: nat)
      requires Standing(done, out, seen, removed, merged) && textOf(chunk) !in seen
      ensures Standing(done + [chunk], out + [FirstKept(chunk)], seen[textOf(chunk) := |out|], removed, merged)
    {
      FirstSizesSnoc(done, chunk);
      TextsSnoc(done, chunk);
      NewStep(done, chunk, out);
      SizesAppend(out, FirstKept(chunk));
      IndexesMore(seen, Texts(done), textOf(chunk));
    }

    // ----- what collapse is for -----

    /** The labels of every chunk with one text. */
    function Citations(chunks: seq<Chunk>, text: string): set<string> {
      set c, v | c in chunks && textOf(c) == text && v in Labels(sourcesOf(c)) :: v
    }

    lemma {:induction false} AllSourcesLabels(chunks: seq<Chunk>, text: string)
      ensures Labels(AllSources(chunks, text)) == Citations(chunks, text)
    {
      if chunks != [] {
        var n := |chunks| - 1;
        AllSourcesLabels(chunks[..n], text);
        assert chunks == chunks[..n] + [chunks[n]];
        var more := if textOf(chunks[n]) == text then sourcesOf(chunks[n]) else [];
        assert Labels(AllSources(chunks[..n], text) + more) == Labels(AllSources(chunks[..n], text)) + Labels(more);
      }
    }

    lemma KeptCites(chunks: seq<Chunk>, text: string)
      requires text in Texts(chunks)
      ensures Clean(Kept(chunks, text).sources) && (set v | v in Kept(chunks, text).sources) == Citations(chunks, text)
    {
      var all := AllSources(chunks, text);
      AddUniqueClean([], all);
      AddUniqueSet([], all);
      AllSourcesLabels(chunks, text);
    }

    /** The chunk at each place cites exactly the union of the sources of all chunks with its text. */
    ghost predicate CitesAll(chunks: seq<Chunk>, out: seq<Chunk>) {
      |out| == |Texts(chunks)| && forall i :: 0 <= i < |out| ==>
        Clean(out[i].sources) && (set v | v in out[i].sources) == Citations(chunks, Texts(chunks)[i])
    }

    /** Collapse keeps every text once, in order of first appearance, and cites exactly the union of its duplicates'
        sources. */
    lemma CollapseKeepsCitations(chunks: seq<Chunk>, out: seq<Chunk>)
      requires IsCollapsed(chunks, out)
      ensures NoRepeats(Texts(chunks)) && forall c :: c in chunks ==> textOf(c) in Texts(chunks)
      ensures CitesAll(chunks, out)
    {
      TextsHaveNoRepeats(chunks);
      forall i | 0 <= i < |out|
        ensures Clean(out[i].sources) && (set v | v in out[i].sources) == Citations(chunks, Texts(chunks)[i])
      {
        KeptCites(chunks, Texts(chunks)[i]);
      }
    }

    lemma {:induction false} DistinctTextsStay(chunks: seq<Chunk>)
      requires forall i, j :: 0 <= i < j < |chunks| ==> textOf(chunks[i]) != textOf(chunks[j])
      ensures |Texts(chunks)| == |chunks|
    {
      if chunks != [] {
        var n := |chunks| - 1;
        DistinctTextsStay(chunks[..n]);
        TextsComeFromChunks(chunks[..n], textOf(chunks[n]));
      }
    }

    lemma {:induction false} TextsComeFromChunks(chunks: seq<Chunk>, text: string)
      ensures text in Texts(chunks) <==> exists c :: c in chunks && textOf(c) == text
    {
      TextsHaveNoRepeats(chunks);
      if text in Texts(chunks) {
        var c := FirstWith(chunks, text);
      }
    }

    /** Nothing is removed exactly when no two chunks share a text. */
    lemma NothingRemovedExactly(chunks: seq<Chunk>, out: seq<Chunk>)
      requires IsCollapsed(chunks, out)
      ensures |out| == |chunks| <==> forall i, j :: 0 <= i < j < |chunks| ==> textOf(chunks[i]) != textOf(chunks[j])
    {
      if forall i, j :: 0 <= i < j < |chunks| ==> textOf(chunks[i]) != textOf(chunks[j]) {
        DistinctTextsStay(chunks);
      } else {
        var i, j :| 0 <= i < j < |chunks| && textOf(chunks[i]) == textOf(chunks[j]);
        RepeatShortens(chunks, i, j);
      }
    }

    lemma {:induction false} RepeatShortens(chunks: seq<Chunk>, i: nat, j: nat)
      requires i < j < |chunks| && textOf(chunks[i]) == textOf(chunks[j])
      ensures |Texts(chunks)| < |chunks|
    {
      var n := |chunks| - 1;
      TextsAtMost(chunks[..n]);
      if j < n {
        RepeatShortens(chunks[..n], i, j);
      } else {
        assert chunks[..n][i] in chunks[..n];
        TextsComeFromChunks(chunks[..n], textOf(chunks[n]));
      }
    }

    lemma {:induction false} TextsAtMost(chunks: seq<Chunk>)
      ensures |Texts(chunks)| <= |chunks|
    {
      if chunks != [] {
        TextsAtMost(chunks[..|chunks| - 1]);
      }
    }
  }
}
