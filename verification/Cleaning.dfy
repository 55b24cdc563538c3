/** The cleaners of the RAG normaliser, and when their chunks are final after one pass. */
module Cleaning {
  import opened Options
  import opened Text
  import opened Seqs
  import opened Content
  import opened TextCleaning
  import Canonical

  /** Case folding, URL and JSON reading and the masking of identifiers are left open. */
  datatype Cleaner = Cleaner(
    lower: string -> string,
    url: string -> Option<string>,
    mask: string -> string,
    json: string -> Option<string>)
  {
    /** NormalizeFragmentContent. */
    function CleanContent(kind: string, content: string): string {
      if kind == "code" then NormalizeCode(content)
      else if kind == "json" && json(content).Some? then json(content).value
      else StableText(mask, content)
    }

    function CleanLanguage(language: string): string {
      TrimSpace(lower(language))
    }

    /** NormalizeFragment. */
    function CleanFragment(f: Fragment): Fragment {
      Fragment(f.kind, CleanContent(f.kind, f.content), CleanLanguage(f.language))
    }

    function Normalizer(): Canonical.Normalizer {
      Canonical.Normalizer(lower, value => SourceLabel(url, value), f => CleanFragment(f))
    }

    lemma LabelsBehave()
      ensures Normalizer().LabelsBehave()
    {
      forall x: string
        ensures Trimmed(SourceLabel(url, x)) && (Blank(x) ==> SourceLabel(url, x) == "")
      {
        LabelIsTrimmed(url, x);
      }
    }

    // ----- fragments -----

    predicate LanguageFinal(f: Fragment) {
      CleanLanguage(CleanLanguage(f.language)) == CleanLanguage(f.language)
    }

    predicate TextFinal(f: Fragment) {
      CleanContent(f.kind, CleanContent(f.kind, f.content)) == CleanContent(f.kind, f.content)
    }

    /** Cleaned code has no line but the last that ends in a carriage return; other text is left alone by its
        cleaner. */
    ghost predicate ContentFinal(f: Fragment) {
      if f.kind == "code" then !ReturnInside(CodeLines(f.content)) else TextFinal(f)
    }

    /** A second cleaning leaves a fragment alone exactly when its language and its content are final. */
    lemma FragmentFinalExactly(f: Fragment)
      ensures Normalizer().FragmentFinal(f) <==> LanguageFinal(f) && ContentFinal(f)
    {
      if f.kind == "code" {
        CodeStaysExactly(f.content);
      }
    }

    /** Text that is neither code nor JSON is final exactly when masking the cleaned text changes white space at
        most. */
    lemma PlainTextFinalExactly(f: Fragment)
      requires f.kind != "code" && f.kind != "json"
      ensures TextFinal(f) <==> var s := StableText(mask, f.content); NormalizeWhitespace(mask(s)) == s
    {
      StableTextStaysExactly(mask, f.content);
    }

    // ----- chunks -----

    /** What is not code is final after its second cleaning. */
    predicate FragmentSettles(f: Fragment) {
      var once := CleanFragment(f);
      LanguageFinal(once) && (f.kind != "code" ==> TextFinal(once))
    }

    ghost predicate Settles(chunk: Chunk) {
      && (forall v :: v in chunk.sources || v == chunk.source ==> Normalizer().LabelSettles(v))
      && (forall f :: f in chunk.fragments ==> FragmentSettles(f))
    }

    /** The source lists are settled, all labels are final, and so are the fragments. */
    ghost predicate ChunkFinal(chunk: Chunk) {
      var n := Normalizer();
      && n.LabelFinal(n.labelOf(chunk.source))
      && n.Settled(chunk.sources, chunk.source) && n.AllLabelsFinal(n.StableSources(chunk.sources, chunk.source))
      && (forall f :: f in chunk.fragments ==> LanguageFinal(f) && ContentFinal(f))
    }

    lemma FinalExactly(chunk: Chunk)
      ensures Normalizer().Final(chunk) <==> ChunkFinal(chunk)
    {
      forall f | f in chunk.fragments
        ensures Normalizer().FragmentFinal(f) <==> LanguageFinal(f) && ContentFinal(f)
      {
        FragmentFinalExactly(f);
      }
    }

    lemma OwnLabels(chunk: Chunk)
      requires Settles(chunk)
      ensures Normalizer().OwnLabels(chunk.sources, chunk.source)
    {
      LabelsBehave();
    }

    /** Normalising a chunk twice is normalising it once exactly when the chunk is final. */
    lemma NormalizeChunkStaysExactly(chunk: Chunk)
      requires Settles(chunk)
      ensures var n := Normalizer();
        n.NormalizeChunk(n.NormalizeChunk(chunk)) == n.NormalizeChunk(chunk) <==> ChunkFinal(chunk)
    {
      OwnLabels(chunk);
      Normalizer().NormalizeChunkStaysExactly(chunk);
      FinalExactly(chunk);
    }

    // ----- what a second pass can still change -----

    function CodeLength(fragments: seq<Fragment>): nat {
      if fragments == [] then 0
      else (if fragments[0].kind == "code" then |fragments[0].content| else 0) + CodeLength(fragments[1..])
    }

    /** Cleaning leaves the fragment alone, its code aside. */
    predicate FragmentTame(f: Fragment) {
      CleanLanguage(f.language) == f.language && (f.kind != "code" ==> CleanContent(f.kind, f.content) == f.content)
    }

    ghost predicate FragmentsTame(fragments: seq<Fragment>) {
      forall i :: 0 <= i < |fragments| ==> FragmentTame(fragments[i])
    }

    function Clean(fragments: seq<Fragment>): seq<Fragment> {
      Normalizer().NormalizeFragments(fragments)
    }

    lemma {:induction false} CleanAt(fragments: seq<Fragment>)
      ensures |Clean(fragments)| == |fragments|
      ensures forall i :: 0 <= i < |fragments| ==> Clean(fragments)[i] == CleanFragment(fragments[i])
    {
      if fragments != [] {
        CleanAt(fragments[1..]);
        assert Clean(fragments) == [CleanFragment(fragments[0])] + Clean(fragments[1..]);
      }
    }

    lemma {:induction false} CodeLengthFalls(fragments: seq<Fragment>)
      requires forall i :: 0 <= i < |fragments| ==> CodeIsClean(fragments[i])
      ensures CodeLength(Clean(fragments)) <= CodeLength(fragments)
      ensures FragmentsTame(fragments) && CodeLength(Clean(fragments)) == CodeLength(fragments) ==>
        Clean(fragments) == fragments
    {
      if fragments != [] {
        var f, rest := fragments[0], fragments[1..];
        CodeLengthFalls(rest);
        assert Clean(fragments) == [CleanFragment(f)] + Clean(rest);
        CodeShrinks(f.content);
        CodeFalls(f);
        assert FragmentsTame(fragments) ==> FragmentTame(f) && FragmentsTame(rest) by {
          assert forall i :: 0 <= i < |rest| ==> rest[i] == fragments[i + 1];
        }
      }
    }

    /** Code that has been cleaned once. */
    ghost predicate CodeIsClean(f: Fragment) {
      f.kind == "code" ==> exists raw :: f.content == NormalizeCode(raw)
    }

    lemma CodeFalls(f: Fragment)
      requires CodeIsClean(f)
      ensures f.kind == "code" ==> NormalizeCode(f.content) == f.content || |NormalizeCode(f.content)| < |f.content|
    {
      if f.kind == "code" {
        var raw :| f.content == NormalizeCode(raw);
        CodeStaysExactly(raw);
      }
    }

    /** A second pass leaves the chunk alone, its code aside. */
    ghost predicate Tame(x: Chunk) {
      var y := Normalizer().NormalizeChunk(x);
      y.source == x.source && y.sources == x.sources && y.pageRefs == x.pageRefs && FragmentsTame(x.fragments)
    }

    /** What a pass over a chunk has still to take away. */
    ghost function Rank(x: Chunk): nat {
      CodeLength(x.fragments) + if Tame(x) then 0 else 1
    }

    function Once(chunk: Chunk): Chunk {
      Normalizer().NormalizeChunk(chunk)
    }

    lemma OnceIsClean(chunk: Chunk)
      ensures forall i :: 0 <= i < |Once(chunk).fragments| ==> CodeIsClean(Once(chunk).fragments[i])
    {
      CleanAt(chunk.fragments);
      forall i | 0 <= i < |chunk.fragments|
        ensures CodeIsClean(Once(chunk).fragments[i])
      {
        assert Once(chunk).fragments[i] == CleanFragment(chunk.fragments[i]);
      }
    }

    /** After two passes everything but code is final. */
    lemma TwiceIsTame(chunk: Chunk)
      requires Settles(chunk)
      ensures Tame(Once(Once(chunk)))
    {
      var n := Normalizer();
      OwnLabels(chunk);
      n.SourcesSettleTwice(chunk.sources, chunk.source);
      n.PageRefsStay(chunk.pageRefs);
      assert n.LabelSettles(chunk.source);
      CleanAt(chunk.fragments);
      CleanAt(Clean(chunk.fragments));
      var twice := Once(Once(chunk));
      forall i | 0 <= i < |twice.fragments|
        ensures FragmentTame(twice.fragments[i])
      {
        assert chunk.fragments[i] in chunk.fragments;
        assert twice.fragments[i] == CleanFragment(CleanFragment(chunk.fragments[i]));
      }
    }

    lemma TameStays(x: Chunk)
      requires Tame(x)
      ensures Tame(Once(x)) && (Clean(x.fragments) == x.fragments ==> Once(x) == x)
    {
      CleanAt(x.fragments);
    }

    lemma RankFalls(chunk: Chunk)
      requires Settles(chunk)
      ensures var x := Once(chunk); Once(x) == x || Rank(Once(x)) < Rank(x)
    {
      var x := Once(chunk);
      OnceIsClean(chunk);
      CodeLengthFalls(x.fragments);
      if Tame(x) {
        TameStays(x);
      } else {
        TwiceIsTame(chunk);
      }
    }

    /** Making a canonical chunk list canonical again changes nothing exactly when every chunk is final. */
    lemma StableChunksStayExactly(chunks: seq<Chunk>)
      requires forall c :: c in chunks ==> Settles(c)
      ensures var n := Normalizer();
        n.StableChunks(n.StableChunks(chunks)) == n.StableChunks(chunks) <==> forall c :: c in chunks ==> ChunkFinal(c)
    {
      forall c | c in chunks
        ensures Normalizer().OwnLabels(c.sources, c.source) && (Normalizer().Final(c) <==> ChunkFinal(c))
        ensures Once(Once(c)) == Once(c) || Rank(Once(Once(c))) < Rank(Once(c))
      {
        OwnLabels(c);
        FinalExactly(c);
        RankFalls(c);
      }
      Normalizer().StableChunksStayExactly(chunks, x => Rank(x));
    }
  }

  /** A code fragment whose line ends in two carriage returns: two passes change it, each in another way. */
  lemma CodeFragmentNotFinal(c: Cleaner, language: string)
    ensures var f := Fragment("code", "a\r" + "\r\n" + "b", language);
      && c.CleanFragment(f).content == "a" + "\r\n" + "b"
      && c.CleanFragment(c.CleanFragment(f)).content == "a" + "\n" + "b"
      && c.CleanFragment(c.CleanFragment(f)) != c.CleanFragment(f)
      && !c.Normalizer().FragmentFinal(f)
  {
    CodeNotIdempotent();
    assert ("a" + "\r\n" + "b")[1] == '\r';
    assert ("a" + "\n" + "b")[1] == '\n';
  }
}
