/** Canonical source lists and chunk lists: the same content in another order gives the same result. */
module Canonical {
  import opened Text
  import opened Seqs
  import opened Content
  import opened Sorting

  function LabelKey(lower: string -> string): string -> Key {
    (name: string) => (lower(name), "")
  }

  function Trimmer(): string -> string {
    ref => TrimSpace(ref)
  }

  /** Case folding, source label clean-up and fragment clean-up; their wording is left open. */
  datatype Normalizer = Normalizer(
    lower: string -> string,
    labelOf: string -> string,
    fragment: Fragment -> Fragment)
  {
    // ----- labels: source lists and page reference lists -----

    /** The cleaned label of the first value whose case-folded label is `k`, if any. */
    static function FirstWith(lower: string -> string, clean: string -> string, values: seq<string>,
                              k: string): (r: seq<string>)
      ensures |r| <= 1
    {
      if values == [] then []
      else if clean(values[0]) != "" && lower(clean(values[0])) == k then [clean(values[0])]
      else FirstWith(lower, clean, values[1..], k)
    }

    /** The labels in order of first appearance, those with a key in `seen` left out. */
    static function FirstLabels(lower: string -> string, clean: string -> string, values: seq<string>,
                                seen: set<string>): seq<string> {
      if values == [] then []
      else
        var name := clean(values[0]);
        if name == "" || lower(name) in seen then FirstLabels(lower, clean, values[1..], seen)
        else [name] + FirstLabels(lower, clean, values[1..], seen + {lower(name)})
    }

    static function SortedLabels(lower: string -> string, clean: string -> string, values: seq<string>): seq<string> {
      SortBy(FirstLabels(lower, clean, values, {}), LabelKey(lower))
    }

    static lemma {:induction false} FirstLabelsCarry(lower: string -> string, clean: string -> string,
                                                     values: seq<string>, seen: set<string>, k: Key)
      ensures Carrying(FirstLabels(lower, clean, values, seen), LabelKey(lower), k)
           == if k.1 != "" || k.0 in seen then [] else FirstWith(lower, clean, values, k.0)
    {
      if values != [] {
        var name := clean(values[0]);
        if name == "" || lower(name) in seen {
          FirstLabelsCarry(lower, clean, values[1..], seen, k);
        } else {
          var rest := FirstLabels(lower, clean, values[1..], seen + {lower(name)});
          FirstLabelsCarry(lower, clean, values[1..], seen + {lower(name)}, k);
          assert ([name] + rest)[1..] == rest;
        }
      }
    }

    /** A label list is sorted and keeps, for every case-folded key, exactly the first label with it. */
    static lemma SortedLabelsKeepFirsts(lower: string -> string, clean: string -> string, values: seq<string>)
      ensures Sorted(SortedLabels(lower, clean, values), LabelKey(lower))
      ensures forall k: string ::
        Carrying(SortedLabels(lower, clean, values), LabelKey(lower), (k, "")) == FirstWith(lower, clean, values, k)
    {
      var labels := FirstLabels(lower, clean, values, {});
      SortSorts(labels, LabelKey(lower));
      forall k: string
        ensures Carrying(SortedLabels(lower, clean, values), LabelKey(lower), (k, "")) ==
          FirstWith(lower, clean, values, k)
      {
        SortIsStable(labels, LabelKey(lower), (k, ""));
        FirstLabelsCarry(lower, clean, values, {}, (k, ""));
      }
    }

    /** The first labels of two value lists agree under every case-folded key. */
    static ghost predicate SameFirsts(lower: string -> string, clean: string -> string, xs: seq<string>,
                                      ys: seq<string>) {
      forall k: string :: FirstWith(lower, clean, xs, k) == FirstWith(lower, clean, ys, k)
    }

    /** Two value lists give the same label list exactly when they agree on every key's first label. */
    static lemma SameLabelsExactly(lower: string -> string, clean: string -> string, xs: seq<string>, ys: seq<string>)
      ensures SortedLabels(lower, clean, xs) == SortedLabels(lower, clean, ys) <==> SameFirsts(lower, clean, xs, ys)
    {
      var a, b := FirstLabels(lower, clean, xs, {}), FirstLabels(lower, clean, ys, {});
      SameResultExactly(a, b, LabelKey(lower));
      forall k: Key
        ensures Carrying(a, LabelKey(lower), k) == if k.1 != "" then [] else FirstWith(lower, clean, xs, k.0)
        ensures Carrying(b, LabelKey(lower), k) == if k.1 != "" then [] else FirstWith(lower, clean, ys, k.0)
      {
        FirstLabelsCarry(lower, clean, xs, {}, k);
        FirstLabelsCarry(lower, clean, ys, {}, k);
      }
      if AgreeUnderEveryKey(a, b, LabelKey(lower)) {
        forall k: string
          ensures FirstWith(lower, clean, xs, k) == FirstWith(lower, clean, ys, k)
        {
          assert Carrying(a, LabelKey(lower), (k, "")) == Carrying(b, LabelKey(lower), (k, ""));
        }
      }
    }

    /** The map is read in any order; the sorted result is the same whatever the order was. */
    static method UniqueLabels(lower: string -> string, clean: string -> string, values: seq<string>)
      returns (out: seq<string>)
      ensures out == SortedLabels(lower, clean, values)
    {
      var seen: map<string, string> := map[];
      var todo := values;
      while |todo| > 0
        invariant forall k: string ::
          FirstWith(lower, clean, values, k) == if k in seen then [seen[k]] else FirstWith(lower, clean, todo, k)
        invariant forall k :: k in seen ==> lower(seen[k]) == k
      {
        var name := clean(todo[0]);
        if name != "" && lower(name) !in seen {
          seen := seen[lower(name) := name];
        }
        todo := todo[1..];
      }
      out := [];
      var keys := seen.Keys;
      ghost var done: set<string> := {};
      while keys != {}
        invariant done + keys == seen.Keys && done !! keys
        invariant forall k: Key ::
          Carrying(out, LabelKey(lower), k) == if k.1 == "" && k.0 in done then [seen[k.0]] else []
        decreases keys
      {
        var pick :| pick in keys;
        forall k: Key
          ensures Carrying(out + [seen[pick]], LabelKey(lower), k)
            == if k.1 == "" && k.0 in done + {pick} then [seen[k.0]] else []
        {
          CarryingAppend(out, seen[pick], LabelKey(lower), k);
        }
        out := out + [seen[pick]];
        keys := keys - {pick};
        done := done + {pick};
      }
      ghost var labels := FirstLabels(lower, clean, values, {});
      forall k: Key
        ensures Carrying(out, LabelKey(lower), k) == Carrying(labels, LabelKey(lower), k)
      {
        FirstLabelsCarry(lower, clean, values, {}, k);
      }
      SameResultExactly(out, labels, LabelKey(lower));
      out := SortBy(out, LabelKey(lower));
    }

    // ----- sources -----

    function Candidates(values: seq<string>, fallback: string): seq<string> {
      if values == [] && !Blank(fallback) then [fallback] else values
    }

    function StableSources(values: seq<string>, fallback: string): seq<string> {
      SortedLabels(lower, labelOf, Candidates(values, fallback))
    }

    method ComputeStableSources(values: seq<string>, fallback: string) returns (out: seq<string>)
      ensures out == StableSources(values, fallback)
    {
      var candidates := values;
      if |candidates| == 0 && !Blank(fallback) {
        candidates := [fallback];
      }
      out := UniqueLabels(lower, labelOf, candidates);
    }

    /** normalizePageRefs. */
    function TrimmedRefs(refs: seq<string>): seq<string> {
      SortedLabels(lower, Trimmer(), refs)
    }

    /** NormalizeChunk. */
    function NormalizeChunk(chunk: Chunk): Chunk {
      Chunk(chunk.id, labelOf(chunk.source), StableSources(chunk.sources, chunk.source),
            NormalizeFragments(chunk.fragments),
            TrimmedRefs(chunk.pageRefs))
    }

    function NormalizeFragments(fragments: seq<Fragment>): seq<Fragment> {
      if fragments == [] then [] else [fragment(fragments[0])] + NormalizeFragments(fragments[1..])
    }

    // ----- chunks -----

    function SortLabel(chunk: Chunk): string {
      var joined := Join(chunk.sources, ",");
      lower(if joined == "" then TrimSpace(chunk.source) else joined)
    }

    function TieLabel(chunk: Chunk): string {
      lower(if Blank(chunk.id) then ChunkText(chunk) else TrimSpace(chunk.id))
    }

    function ChunkKey(): Chunk -> Key {
      (chunk: Chunk) => (SortLabel(chunk), TieLabel(chunk))
    }

    function ChunkNormalizer(): Chunk -> Chunk {
      (chunk: Chunk) => NormalizeChunk(chunk)
    }

    function Normalized(chunks: seq<Chunk>): seq<Chunk> {
      Map(ChunkNormalizer(), chunks)
    }

    function StableChunks(chunks: seq<Chunk>): seq<Chunk> {
      SortBy(Normalized(chunks), ChunkKey())
    }

    method ComputeStableChunks(chunks: seq<Chunk>) returns (stable: seq<Chunk>)
      ensures stable == StableChunks(chunks)
    {
      stable := MapEach(ChunkNormalizer(), chunks);
      stable := SortBy(stable, ChunkKey());
    }

    /** The result is a sorted permutation of the normalised chunks. */
    lemma StableChunksPermute(chunks: seq<Chunk>)
      ensures multiset(StableChunks(chunks)) == multiset(Normalized(chunks))
      ensures Sorted(StableChunks(chunks), ChunkKey())
    {
      SortKeeps(Normalized(chunks), ChunkKey());
      SortSorts(Normalized(chunks), ChunkKey());
    }

    lemma {:induction false} FragmentsAt(fragments: seq<Fragment>)
      ensures |NormalizeFragments(fragments)| == |fragments|
      ensures forall i :: 0 <= i < |fragments| ==> NormalizeFragments(fragments)[i] == fragment(fragments[i])
    {
      if fragments != [] {
        FragmentsAt(fragments[1..]);
      }
    }

    /** A normalised chunk keeps its id and, one by one, its cleaned fragments; its page references are the trimmed ones
        that are not blank, each once under its case-folded form. */
    lemma NormalizedTells(chunk: Chunk)
      ensures var out := NormalizeChunk(chunk);
        && out.id == chunk.id && out.source == labelOf(chunk.source) && |out.fragments| == |chunk.fragments|
        && (forall i :: 0 <= i < |chunk.fragments| ==> out.fragments[i] == fragment(chunk.fragments[i]))
        && Sorted(out.pageRefs, LabelKey(lower))
        && (forall k: string ::
              Carrying(out.pageRefs, LabelKey(lower), (k, "")) == FirstWith(lower, Trimmer(), chunk.pageRefs, k))
    {
      FragmentsAt(chunk.fragments);
      SortedLabelsKeepFirsts(lower, Trimmer(), chunk.pageRefs);
    }

    /** What a canonical chunk is sorted by first: its sources, or without any its own source. */
    function FirstLabel(chunk: Chunk): string {
      if Join(chunk.sources, ",") != "" then Join(chunk.sources, ",") else TrimSpace(chunk.source)
    }

    /** What decides between equal sources: the id, or without one the text. */
    function SecondLabel(chunk: Chunk): string {
      if !Blank(chunk.id) then TrimSpace(chunk.id) else ChunkText(chunk)
    }

    /** Canonical chunks stand in the order of their case-folded sources, and under equal ones of their ids or texts. */
    lemma StableChunksOrdered(chunks: seq<Chunk>, i: nat, j: nat)
      requires i < j && j < |StableChunks(chunks)|
      ensures var a, b := StableChunks(chunks)[i], StableChunks(chunks)[j];
        && !Less(lower(FirstLabel(b)), lower(FirstLabel(a)))
        && (lower(FirstLabel(a)) == lower(FirstLabel(b)) ==> !Less(lower(SecondLabel(b)), lower(SecondLabel(a))))
    {
      StableChunksPermute(chunks);
      var a, b := StableChunks(chunks)[i], StableChunks(chunks)[j];
      assert !KeyLess(ChunkKey()(b), ChunkKey()(a));
    }

    /** Two inputs give the same list exactly when, under every (sort key, tie key), they bring the same normalised
        chunks in the same order. */
    lemma StableChunksSameExactly(xs: seq<Chunk>, ys: seq<Chunk>)
      ensures StableChunks(xs) == StableChunks(ys) <==> AgreeUnderEveryKey(Normalized(xs), Normalized(ys), ChunkKey())
    {
      SameResultExactly(Normalized(xs), Normalized(ys), ChunkKey());
    }

    /** Any reordering of chunks with distinct (sort key, tie key) pairs gives the identical list. */
    lemma StableChunksOrderIndependent(xs: seq<Chunk>, ys: seq<Chunk>)
      requires multiset(xs) == multiset(ys)
      requires DistinctKeys(Normalized(xs), ChunkKey())
      ensures StableChunks(xs) == StableChunks(ys)
    {
      MapPermutes(ChunkNormalizer(), xs, ys);
      OrderIndependent(Normalized(xs), Normalized(ys), ChunkKey());
    }

    // ----- canonical source lists -----

    /** Labels are trimmed, and blank values leave none. */
    ghost predicate LabelsBehave() {
      forall x: string {:trigger labelOf(x)} :: Trimmed(labelOf(x)) && (Blank(x) ==> labelOf(x) == "")
    }

    /** The label of a value is final after its second cleaning, and does not vanish in it. */
    predicate LabelSettles(value: string) {
      var once := labelOf(value);
      labelOf(labelOf(once)) == labelOf(once) && (once != "" ==> labelOf(once) != "")
    }

    ghost predicate OwnLabels(values: seq<string>, fallback: string) {
      LabelsBehave() && LabelSettles(fallback) && forall v :: v in values ==> LabelSettles(v)
    }

    predicate LabelFinal(name: string) {
      labelOf(name) == name
    }

    ghost predicate AllLabelsFinal(names: seq<string>) {
      forall l :: l in names ==> LabelFinal(l)
    }

    static lemma {:induction false} FirstLabelsAre(lower: string -> string, clean: string -> string,
                                                   values: seq<string>, seen: set<string>, l: string)
      requires l in FirstLabels(lower, clean, values, seen)
      ensures l != "" && exists v :: v in values && l == clean(v)
    {
      var name := clean(values[0]);
      if name == "" || lower(name) in seen {
        FirstLabelsAre(lower, clean, values[1..], seen, l);
      } else if l != name {
        FirstLabelsAre(lower, clean, values[1..], seen + {lower(name)}, l);
      }
    }

    /** Every label of a list is the cleaned form of a value, and not empty. */
    static lemma SortedLabelsAre(lower: string -> string, clean: string -> string, values: seq<string>, l: string)
      requires l in SortedLabels(lower, clean, values)
      ensures l != "" && exists v :: v in values && l == clean(v)
    {
      var labels := FirstLabels(lower, clean, values, {});
      SortKeeps(labels, LabelKey(lower));
      assert l in multiset(SortedLabels(lower, clean, values)) && l in multiset(labels);
      FirstLabelsAre(lower, clean, values, {}, l);
    }

    static lemma {:induction false} FirstWithStays(lower: string -> string, clean: string -> string,
                                                   labels: seq<string>, k: string)
      requires forall l :: l in labels ==> l != "" && clean(l) == l
      ensures var found := Carrying(labels, LabelKey(lower), (k, ""));
        FirstWith(lower, clean, labels, k) == if found == [] then [] else [found[0]]
    {
      if labels != [] {
        assert labels[0] in labels;
        assert forall l :: l in labels[1..] ==> l in labels;
        FirstWithStays(lower, clean, labels[1..], k);
      }
    }

    /** A label list is left alone when cleaning leaves each of its labels alone. */
    static lemma SortedLabelsStay(lower: string -> string, clean: string -> string, values: seq<string>)
      requires forall l :: l in SortedLabels(lower, clean, values) ==> clean(l) == l
      ensures SortedLabels(lower, clean, SortedLabels(lower, clean, values)) == SortedLabels(lower, clean, values)
    {
      var out := SortedLabels(lower, clean, values);
      forall l | l in out
        ensures l != "" && clean(l) == l
      {
        SortedLabelsAre(lower, clean, values, l);
      }
      SortedLabelsKeepFirsts(lower, clean, values);
      forall k: string
        ensures FirstWith(lower, clean, out, k) == FirstWith(lower, clean, values, k)
      {
        FirstWithStays(lower, clean, out, k);
        assert Carrying(out, LabelKey(lower), (k, "")) == FirstWith(lower, clean, values, k);
      }
      SameLabelsExactly(lower, clean, out, values);
    }

    /** Some value leaves a label, or there is no fallback label to turn to. */
    predicate Settled(values: seq<string>, fallback: string) {
      values == [] || labelOf(fallback) == "" || exists i :: 0 <= i < |values| && labelOf(values[i]) != ""
    }

    static lemma {:induction false} NoLabels(lower: string -> string, clean: string -> string, values: seq<string>)
      ensures FirstLabels(lower, clean, values, {}) == [] <==> forall i :: 0 <= i < |values| ==> clean(values[i]) == ""
    {
      if values != [] && clean(values[0]) == "" {
        NoLabels(lower, clean, values[1..]);
        if FirstLabels(lower, clean, values, {}) == [] {
          forall i | 0 <= i < |values|
            ensures clean(values[i]) == ""
          {
            assert i > 0 ==> values[i] == values[1..][i - 1];
          }
        }
      }
    }

    lemma SourcesEmpty(values: seq<string>, fallback: string)
      ensures StableSources(values, fallback) == [] <==>
        forall i :: 0 <= i < |Candidates(values, fallback)| ==> labelOf(Candidates(values, fallback)[i]) == ""
    {
      var labels := FirstLabels(lower, labelOf, Candidates(values, fallback), {});
      NoLabels(lower, labelOf, Candidates(values, fallback));
      SortKeeps(labels, LabelKey(lower));
      assert |multiset(labels)| == |labels|;
      assert |multiset(SortBy(labels, LabelKey(lower)))| == |SortBy(labels, LabelKey(lower))|;
    }

    /** A label list that cleaning leaves alone has only final labels. */
    lemma KeptLabelsAreFinal(values: seq<string>, fallback: string)
      requires OwnLabels(values, fallback)
      requires var out := SortedLabels(lower, labelOf, Candidates(values, fallback));
        SortedLabels(lower, labelOf, out) == out
      ensures AllLabelsFinal(StableSources(values, fallback))
    {
      var out := StableSources(values, fallback);
      forall y | y in out
        ensures LabelFinal(y)
      {
        SortedLabelsAre(lower, labelOf, out, y);
        var l :| l in out && y == labelOf(l);
        SortedLabelsAre(lower, labelOf, Candidates(values, fallback), l);
        var v :| v in Candidates(values, fallback) && l == labelOf(v);
        assert LabelSettles(v);
      }
    }

    /** A source list is final after one pass exactly when it was settled, so that no label is still to come from the
        fallback, and all of its labels are final. */
    lemma StableSourcesStayExactly(values: seq<string>, fallback: string)
      requires OwnLabels(values, fallback)
      ensures StableSources(StableSources(values, fallback), labelOf(fallback)) == StableSources(values, fallback)
        <==> Settled(values, fallback) && AllLabelsFinal(StableSources(values, fallback))
    {
      var out := StableSources(values, fallback);
      SourcesEmpty(values, fallback);
      if out == [] {
        SourcesEmpty([], labelOf(fallback));
        TrimmedStays(labelOf(fallback));
        assert LabelSettles(fallback);
        if values == [] && !Blank(fallback) {
          assert Candidates(values, fallback)[0] == fallback;
        }
      } else {
        assert Settled(values, fallback) by {
          assert values != [] ==> Candidates(values, fallback) == values;
        }
        if AllLabelsFinal(out) {
          SortedLabelsStay(lower, labelOf, Candidates(values, fallback));
        }
        if SortedLabels(lower, labelOf, out) == out {
          KeptLabelsAreFinal(values, fallback);
        }
      }
    }

    /** The failing family at its smallest: one blank source, and a source that leaves a label. */
    lemma FallsBackLate(source: string)
      requires LabelsBehave() && LabelSettles(source) && labelOf(source) != ""
      ensures StableSources([" "], source) == []
      ensures StableSources([], labelOf(source)) != []
    {
      assert Blank(" ");
      assert labelOf(" ") == "";
      SourcesEmpty([" "], source);
      SourcesEmpty([], labelOf(source));
      TrimmedStays(labelOf(source));
      assert Candidates([], labelOf(source))[0] == labelOf(source);
    }

    /** The second pass finds a label whenever there is one to find. */
    lemma SecondPassFinds(values: seq<string>, fallback: string)
      requires OwnLabels(values, fallback) && (StableSources(values, fallback) != [] || labelOf(fallback) != "")
      ensures StableSources(StableSources(values, fallback), labelOf(fallback)) != []
    {
      var once, source := StableSources(values, fallback), labelOf(fallback);
      SourcesEmpty(once, source);
      assert LabelSettles(fallback);
      TrimmedStays(source);
      if once != [] {
        SortedLabelsAre(lower, labelOf, Candidates(values, fallback), once[0]);
        var v :| v in Candidates(values, fallback) && once[0] == labelOf(v);
        assert LabelSettles(v);
        assert labelOf(Candidates(once, source)[0]) != "";
      } else {
        assert labelOf(Candidates(once, source)[0]) != "";
      }
    }

    /** A source list is final after two passes at the latest. */
    lemma SourcesSettleTwice(values: seq<string>, fallback: string)
      requires OwnLabels(values, fallback)
      ensures var once, source := StableSources(values, fallback), labelOf(fallback);
        var twice := StableSources(once, source);
        StableSources(twice, source) == twice && StableSources(twice, labelOf(source)) == twice
    {
      var once, source := StableSources(values, fallback), labelOf(fallback);
      var twice := StableSources(once, source);
      if once == [] && source == "" {
        TrimmedStays("");
        assert Candidates([], "") == [] && labelOf("") == "";
      } else {
        SecondPassFinds(values, fallback);
        forall y | y in twice
          ensures labelOf(y) == y
        {
          SecondLabels(values, fallback, y);
        }
        SortedLabelsStay(lower, labelOf, Candidates(once, source));
      }
    }

    lemma SecondLabels(values: seq<string>, fallback: string, y: string)
      requires OwnLabels(values, fallback) && y in StableSources(StableSources(values, fallback), labelOf(fallback))
      ensures labelOf(y) == y
    {
      var once, source := StableSources(values, fallback), labelOf(fallback);
      SortedLabelsAre(lower, labelOf, Candidates(once, source), y);
      var l :| l in Candidates(once, source) && y == labelOf(l);
      if l in once {
        SortedLabelsAre(lower, labelOf, Candidates(values, fallback), l);
        var v :| v in Candidates(values, fallback) && l == labelOf(v);
        assert LabelSettles(v);
      } else {
        assert LabelSettles(fallback);
      }
    }

    // ----- canonical chunks -----

    /** What one cleaning leaves of a fragment is left alone by the next. */
    predicate FragmentFinal(f: Fragment) {
      fragment(fragment(f)) == fragment(f)
    }

    ghost predicate FragmentsFinal(fragments: seq<Fragment>) {
      forall f :: f in fragments ==> FragmentFinal(f)
    }

    lemma {:induction false} FragmentsStayExactly(fragments: seq<Fragment>)
      ensures NormalizeFragments(NormalizeFragments(fragments)) == NormalizeFragments(fragments) <==>
        FragmentsFinal(fragments)
    {
      if fragments != [] {
        var head, rest := fragments[0], fragments[1..];
        FragmentsStayExactly(rest);
        var once := NormalizeFragments(fragments);
        assert once[0] == fragment(head) && once[1..] == NormalizeFragments(rest);
        var twice := NormalizeFragments(once);
        assert twice[0] == fragment(fragment(head)) && twice[1..] == NormalizeFragments(NormalizeFragments(rest));
        assert once == [once[0]] + once[1..] && twice == [twice[0]] + twice[1..];
        assert FragmentsFinal(fragments) <==> FragmentFinal(head) && FragmentsFinal(rest) by {
          assert fragments == [head] + rest;
        }
      }
    }

    /** Final: every part of the chunk is left alone by a second pass. */
    ghost predicate Final(chunk: Chunk) {
      && LabelFinal(labelOf(chunk.source))
      && Settled(chunk.sources, chunk.source) && AllLabelsFinal(StableSources(chunk.sources, chunk.source))
      && FragmentsFinal(chunk.fragments)
    }

    lemma PageRefsStay(refs: seq<string>)
      ensures TrimmedRefs(TrimmedRefs(refs)) == TrimmedRefs(refs)
    {
      var trim := Trimmer();
      forall l | l in SortedLabels(lower, trim, refs)
        ensures trim(l) == l
      {
        SortedLabelsAre(lower, trim, refs, l);
        var v :| v in refs && l == trim(v);
        TrimIdempotent(v);
      }
      SortedLabelsStay(lower, trim, refs);
    }

    /** Normalising a chunk is final after one pass exactly when its source, its sources and its fragments are. */
    lemma NormalizeChunkStaysExactly(chunk: Chunk)
      requires OwnLabels(chunk.sources, chunk.source)
      ensures NormalizeChunk(NormalizeChunk(chunk)) == NormalizeChunk(chunk) <==> Final(chunk)
    {
      StableSourcesStayExactly(chunk.sources, chunk.source);
      FragmentsStayExactly(chunk.fragments);
      PageRefsStay(chunk.pageRefs);
    }

    // ----- the canonical chunk list is a fixed point -----

    ghost predicate OwnLabelsAll(chunks: seq<Chunk>) {
      forall c :: c in chunks ==> OwnLabels(c.sources, c.source)
    }

    ghost predicate AllFinal(chunks: seq<Chunk>) {
      forall c :: c in chunks ==> Final(c)
    }

    /** A second pass leaves a chunk alone or takes something away that it never gives back. */
    ghost predicate Wanes(chunks: seq<Chunk>, rank: Chunk -> nat) {
      forall c :: c in chunks ==>
        var once := NormalizeChunk(c); NormalizeChunk(once) == once || rank(NormalizeChunk(once)) < rank(once)
    }

    /** The members of a canonical list are the normalised chunks. */
    lemma StableMember(chunks: seq<Chunk>, x: Chunk)
      ensures x in StableChunks(chunks) <==> exists c :: c in chunks && x == NormalizeChunk(c)
    {
      var once, stable := Normalized(chunks), StableChunks(chunks);
      StableChunksPermute(chunks);
      MapAt(ChunkNormalizer(), chunks);
      assert x in stable <==> x in multiset(stable);
      assert x in once <==> x in multiset(once);
      if x in once {
        var i :| 0 <= i < |once| && once[i] == x;
        assert chunks[i] in chunks;
      }
      if c :| c in chunks && x == NormalizeChunk(c) {
        var i :| 0 <= i < |chunks| && chunks[i] == c;
        assert once[i] == x;
      }
    }

    /** Making a canonical chunk list canonical again changes nothing exactly when every chunk is final. */
    lemma StableChunksStayExactly(chunks: seq<Chunk>, rank: Chunk -> nat)
      requires OwnLabelsAll(chunks) && Wanes(chunks, rank)
      ensures StableChunks(StableChunks(chunks)) == StableChunks(chunks) <==> AllFinal(chunks)
    {
      var stable := StableChunks(chunks);
      StableChunksPermute(chunks);
      StableChunksPermute(stable);
      MapAt(ChunkNormalizer(), stable);
      if StableChunks(stable) == stable {
        forall x | x in stable
          ensures NormalizeChunk(x) == x || rank(NormalizeChunk(x)) < rank(x)
        {
          StableMember(chunks, x);
        }
        PermutedIsFixed(ChunkNormalizer(), rank, stable);
        forall c | c in chunks
          ensures Final(c)
        {
          StableMember(chunks, NormalizeChunk(c));
          var i :| 0 <= i < |stable| && stable[i] == NormalizeChunk(c);
          assert Normalized(stable)[i] == stable[i];
          NormalizeChunkStaysExactly(c);
        }
      }
      if AllFinal(chunks) {
        forall i | 0 <= i < |stable|
          ensures Normalized(stable)[i] == stable[i]
        {
          assert stable[i] in stable;
          StableMember(chunks, stable[i]);
          var c :| c in chunks && stable[i] == NormalizeChunk(c);
          NormalizeChunkStaysExactly(c);
        }
        assert Normalized(stable) == stable;
        SortedStays(stable, ChunkKey());
      }
    }

    /** Giving a normalised chunk its stable sources is absorbed by the next normalisation. */
    lemma ResourcingIsAbsorbed(chunk: Chunk)
      requires OwnLabels(chunk.sources, chunk.source)
      ensures var once := NormalizeChunk(chunk);
        NormalizeChunk(once.(sources := StableSources(once.sources, once.source))) == NormalizeChunk(once)
    {
      SourcesSettleTwice(chunk.sources, chunk.source);
    }
  }

  lemma {:induction false} CarryingAppend<T>(xs: seq<T>, x: T, key: T -> Key, k: Key)
    ensures Carrying(xs + [x], key, k) == Carrying(xs, key, k) + (if key(x) == k then [x] else [])
  {
    if xs == [] {
      assert xs + [x] == [x] && [x][1..] == [];
    } else {
      assert (xs + [x])[1..] == xs[1..] + [x];
      CarryingAppend(xs[1..], x, key, k);
    }
  }

  /** No two chunks share their (sort key, tie key) pair once normalised. */
  ghost predicate DistinctChunkKeys(n: Normalizer, chunks: seq<Chunk>) {
    DistinctKeys(n.Normalized(chunks), n.ChunkKey())
  }
}
