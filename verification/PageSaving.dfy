/** Saving pages under numbered keys, and reading them back: the first content of a live key stays. */
module PageSaving {
  import opened Text
  import opened Seqs
  import opened Content
  import opened PageKeys
  import SummaryStore

  type Pages = SummaryStore.Pages

  predicate Live(pages: Pages, key: string, now: SummaryStore.Time) {
    SummaryStore.LivePage(pages, key, now).Some?
  }

  /** The keys of the pages from page `from` on, which are numbered from one. */
  function PageRefs(key: nat -> string, from: nat, pages: nat): seq<string>
    decreases pages - from
  {
    if from >= pages then [] else [key(from + 1)] + PageRefs(key, from + 1, pages)
  }

  /** What is saved under those keys. */
  function PageWrites(key: nat -> string, from: nat, texts: seq<string>): seq<(string, string)>
    decreases |texts| - from
  {
    if from >= |texts| then [] else [(key(from + 1), texts[from])] + PageWrites(key, from + 1, texts)
  }

  function PageTexts(pages: seq<seq<Fragment>>): seq<string> {
    seq(|pages|, i requires 0 <= i < |pages| => FragmentsText(pages[i]))
  }

  /** Saving the page texts of one chunk, page by page; its references are the keys in page order. */
  method SavePages(store: SummaryStore.PageStore, now: SummaryStore.Time, key: nat -> string, texts: seq<string>)
    returns (refs: seq<string>)
    modifies store`pages
    ensures refs == PageRefs(key, 0, |texts|)
    ensures store.pages == WriteAll(old(store.pages), PageWrites(key, 0, texts), now, store.clerk.pageTTL)
  {
    refs := [];
    ghost var before, allRefs, writes := store.pages, PageRefs(key, 0, |texts|), PageWrites(key, 0, texts);
    RefsCount(key, 0, texts);
    for i := 0 to |texts|
      invariant refs == allRefs[..i]
      invariant store.pages == WriteAll(before, writes[..i], now, store.clerk.pageTTL)
    {
      RefsAt(key, 0, texts, i);
      SaveOne(store, key(i + 1), texts[i], now, before, writes, i);
      refs := refs + [key(i + 1)];
    }
    assert writes[..|texts|] == writes;
  }

  /** The i-th of a row of writes. */
  method SaveOne(store: SummaryStore.PageStore, key: string, text: string, now: SummaryStore.Time,
                 ghost before: Pages, ghost writes: seq<(string, string)>, ghost i: nat)
    requires i < |writes| && writes[i] == (key, text)
    requires store.pages == WriteAll(before, writes[..i], now, store.clerk.pageTTL)
    modifies store`pages
    ensures store.pages == WriteAll(before, writes[..i + 1], now, store.clerk.pageTTL)
  {
    WriteLast(before, writes[..i], key, text, now, store.clerk.pageTTL);
    assert writes[..i + 1] == writes[..i] + [(key, text)];
    store.SavePage(key, text, now);
  }

  lemma WriteLast(before: Pages, writes: seq<(string, string)>, key: string, text: string, now: SummaryStore.Time,
                  ttl: int)
    ensures WriteAll(before, writes + [(key, text)], now, ttl) ==
      Write(WriteAll(before, writes, now, ttl), key, text, now, ttl)
  {
    WriteAllAppend(before, writes, [(key, text)], now, ttl);
  }

  lemma {:induction false} RefsCount(key: nat -> string, from: nat, texts: seq<string>)
    requires from <= |texts|
    ensures |PageRefs(key, from, |texts|)| == |PageWrites(key, from, texts)| == |texts| - from
    decreases |texts| - from
  {
    if from < |texts| {
      RefsCount(key, from + 1, texts);
    }
  }

  lemma {:induction false} RefsAt(key: nat -> string, from: nat, texts: seq<string>, i: nat)
    requires from <= i < |texts|
    ensures |PageRefs(key, from, |texts|)| == |PageWrites(key, from, texts)| == |texts| - from
    ensures PageRefs(key, from, |texts|)[i - from] == key(i + 1) &&
      PageWrites(key, from, texts)[i - from] == (key(i + 1), texts[i])
    decreases |texts| - from
  {
    RefsCount(key, from, texts);
    if from < i {
      RefsAt(key, from + 1, texts, i);
    }
  }

  /** No other number has the key of number n. */
  ghost predicate DiffersFrom(key: nat -> string, n: nat) {
    forall m: nat :: m != n ==> key(m) != key(n)
  }

  ghost predicate Numbered(key: nat -> string) {
    forall n: nat :: DiffersFrom(key, n)
  }

  lemma {:induction false} FirstWriteOf(key: nat -> string, from: nat, texts: seq<string>, i: nat)
    requires from <= i < |texts|
    requires DiffersFrom(key, i + 1)
    ensures FirstText(PageWrites(key, from, texts), key(i + 1)) == [texts[i]]
    decreases |texts| - from
  {
    if from < i {
      FirstWriteOf(key, from + 1, texts, i);
      assert key(from + 1) != key(i + 1);
    }
  }

  /** SavePage on the map of pages: what is live keeps its content, and lives longer. */
  function Write(pages: Pages, key: string, text: string, now: SummaryStore.Time, ttl: int): Pages {
    pages[key := (if Live(pages, key, now) then pages[key].0 else text, now + ttl)]
  }

  function WriteAll(pages: Pages, writes: seq<(string, string)>, now: SummaryStore.Time, ttl: int): Pages
    decreases |writes|
  {
    if writes == [] then pages else WriteAll(Write(pages, writes[0].0, writes[0].1, now, ttl), writes[1..], now, ttl)
  }

  lemma {:induction false} WriteAllAppend(pages: Pages, a: seq<(string, string)>, b: seq<(string, string)>,
                                          now: SummaryStore.Time, ttl: int)
    ensures WriteAll(pages, a + b, now, ttl) == WriteAll(WriteAll(pages, a, now, ttl), b, now, ttl)
    decreases |a|
  {
    if a == [] {
      assert a + b == b;
    } else {
      assert (a + b)[1..] == a[1..] + b;
      WriteAllAppend(Write(pages, a[0].0, a[0].1, now, ttl), a[1..], b, now, ttl);
    }
  }

  /** The text of the first write to a key, if there is one. */
  function FirstText(writes: seq<(string, string)>, key: string): seq<string> {
    if writes == [] then [] else if writes[0].0 == key then [writes[0].1] else FirstText(writes[1..], key)
  }

  lemma {:induction false} FirstTextAppend(a: seq<(string, string)>, b: seq<(string, string)>, key: string)
    ensures FirstText(a + b, key) == if FirstText(a, key) != [] then FirstText(a, key) else FirstText(b, key)
  {
    if a == [] {
      assert a + b == b;
    } else {
      assert (a + b)[1..] == a[1..] + b;
      FirstTextAppend(a[1..], b, key);
    }
  }

  /** The text a key holds after a row of writes, if it holds one. */
  function Known(pages: Pages, writes: seq<(string, string)>, key: string, now: SummaryStore.Time): seq<string> {
    if Live(pages, key, now) then [pages[key].0] else FirstText(writes, key)
  }

  /** After a row of writes the live keys are the old live ones and the written ones; the first content of a key
      stays. */
  lemma {:induction false} WriteAllHolds(pages: Pages, writes: seq<(string, string)>, now: SummaryStore.Time,
                                         ttl: int, key: string)
    requires ttl > 0
    ensures var after := WriteAll(pages, writes, now, ttl);
      && (Live(after, key, now) <==> Live(pages, key, now) || FirstText(writes, key) != [])
      && (Live(after, key, now) ==>
            after[key].0 == if Live(pages, key, now) then pages[key].0 else FirstText(writes, key)[0])
    decreases |writes|
  {
    if writes != [] {
      WriteAllHolds(Write(pages, writes[0].0, writes[0].1, now, ttl), writes[1..], now, ttl, key);
    }
  }

  /** A row of writes renews the keys it writes to, and leaves all others alone. */
  lemma {:induction false} WriteAllRenews(pages: Pages, writes: seq<(string, string)>, now: SummaryStore.Time, ttl: int,
                                          key: string)
    ensures var after := WriteAll(pages, writes, now, ttl);
      && (FirstText(writes, key) != [] ==> key in after && after[key].1 == now + ttl)
      && (FirstText(writes, key) == [] ==>
            (key in after <==> key in pages) && (key in pages ==> after[key] == pages[key]))
    decreases |writes|
  {
    if writes != [] {
      WriteAllRenews(Write(pages, writes[0].0, writes[0].1, now, ttl), writes[1..], now, ttl, key);
    }
  }

  predicate Holds(pages: Pages, key: string, text: string, now: SummaryStore.Time) {
    Live(pages, key, now) && pages[key].0 == text
  }

  /** Nothing but this text was known under the key. */
  predicate FreeFor(pages: Pages, earlier: seq<(string, string)>, key: string, text: string, now: SummaryStore.Time) {
    var known := Known(pages, earlier, key, now);
    known == [] || known[0] == text
  }

  // ----- saves of other requests in between -----

  /** A page saved at some later moment. */
  datatype Save = Save(at: SummaryStore.Time, key: string, text: string)

  function SaveAll(pages: Pages, saves: seq<Save>, ttl: int): Pages
    decreases |saves|
  {
    if saves == [] then pages else SaveAll(Write(pages, saves[0].key, saves[0].text, saves[0].at, ttl), saves[1..], ttl)
  }

  ghost predicate Between(saves: seq<Save>, now: SummaryStore.Time, at: SummaryStore.Time) {
    forall save :: save in saves ==> now <= save.at <= at
  }

  /** As long as a key lives, what it holds cannot be written over. */
  lemma {:induction false} LaterSavesKeep(pages: Pages, saves: seq<Save>, ttl: int, now: SummaryStore.Time,
                                          at: SummaryStore.Time, key: string)
    requires Between(saves, now, at) && at < now + ttl && Live(pages, key, at)
    ensures Live(SaveAll(pages, saves, ttl), key, at) && SaveAll(pages, saves, ttl)[key].0 == pages[key].0
    decreases |saves|
  {
    if saves != [] {
      assert saves[0] in saves && forall save :: save in saves[1..] ==> save in saves;
      LaterSavesKeep(Write(pages, saves[0].key, saves[0].text, saves[0].at, ttl), saves[1..], ttl, now, at, key);
    }
  }

  // ----- reading back -----

  /** Someone who reads keys at a certain moment, with the summaries that are stored then. */
  datatype Reader = Reader(clerk: SummaryStore.Clerk, summaries: SummaryStore.Summaries, at: SummaryStore.Time) {
    predicate Gets(pages: Pages, key: string, text: string) {
      var answer := clerk.Answer(pages, summaries, key, at);
      answer.Resolved? && answer.content == text
    }

    /** The references are answered, one by one and in order, with the texts. */
    ghost predicate ReadsBack(pages: Pages, refs: seq<string>, texts: seq<string>) {
      |refs| == |texts| && forall i :: 0 <= i < |refs| ==> Gets(pages, refs[i], texts[i])
    }

    /** A summary that is served under the key says just this text; without one, nothing else was known under the key
        before. */
    predicate Clear(pages: Pages, earlier: seq<(string, string)>, key: string, text: string, now: SummaryStore.Time) {
      var served := clerk.Served(summaries, key, at);
      if served.Some? then served.value.summaryText == text else FreeFor(pages, earlier, key, text, now)
    }

    ghost predicate AllClear(pages: Pages, earlier: seq<(string, string)>, key: nat -> string, texts: seq<string>,
                             now: SummaryStore.Time) {
      forall i :: 0 <= i < |texts| ==> Clear(pages, earlier, key(i + 1), texts[i], now)
    }

    /** Pages saved at `now` are read while they live. */
    ghost predicate InTime(now: SummaryStore.Time, later: seq<Save>) {
      clerk.pageTTL > 0 && now <= at < now + clerk.pageTTL && Between(later, now, at)
    }

    lemma HeldIsAnswered(pages: Pages, key: string, text: string)
      requires Live(pages, key, at)
      ensures clerk.Answer(pages, summaries, key, at).Resolved?
      ensures var served := clerk.Served(summaries, key, at);
        Gets(pages, key, text) <==> if served.Some? then served.value.summaryText == text else pages[key].0 == text
    {}

    lemma OneReadsBackExactly(pages: Pages, earlier: seq<(string, string)>, key: nat -> string, texts: seq<string>,
                              rest: seq<(string, string)>, now: SummaryStore.Time, later: seq<Save>, i: nat)
      requires InTime(now, later) && i < |texts| && DiffersFrom(key, i + 1)
      ensures var after := AfterOne(pages, earlier + (PageWrites(key, 0, texts) + rest), now, later);
        && clerk.Answer(after, summaries, key(i + 1), at).Resolved?
        && (Gets(after, key(i + 1), texts[i]) <==> Clear(pages, earlier, key(i + 1), texts[i], now))
    {
      var own, ttl := PageWrites(key, 0, texts), clerk.pageTTL;
      var writes := earlier + (own + rest);
      var saved := WriteAll(pages, writes, now, ttl);
      FirstWriteOf(key, 0, texts, i);
      FirstTextAppend(earlier, own + rest, key(i + 1));
      FirstTextAppend(own, rest, key(i + 1));
      WriteAllHolds(pages, writes, now, ttl, key(i + 1));
      WriteAllRenews(pages, writes, now, ttl, key(i + 1));
      LaterSavesKeep(saved, later, ttl, now, at, key(i + 1));
      HeldIsAnswered(SaveAll(saved, later, ttl), key(i + 1), texts[i]);
    }

    /** The same for a row of pages that is saved alone, by its references. */
    lemma AloneReadsBackExactly(pages: Pages, key: nat -> string, texts: seq<string>, now: SummaryStore.Time,
                                later: seq<Save>, i: nat)
      requires InTime(now, later) && i < |texts| && DiffersFrom(key, i + 1)
      ensures |PageRefs(key, 0, |texts|)| == |texts|
      ensures var ref, after := PageRefs(key, 0, |texts|)[i], AfterOne(pages, PageWrites(key, 0, texts), now, later);
        && clerk.Answer(after, summaries, ref, at).Resolved?
        && (Gets(after, ref, texts[i]) <==> ClearAlone(pages, ref, texts[i], now))
    {
      var none: seq<(string, string)> := [];
      RefsAt(key, 0, texts, i);
      assert PageWrites(key, 0, texts) == none + (PageWrites(key, 0, texts) + none);
      OneReadsBackExactly(pages, none, key, texts, none, now, later, i);
    }

    /** The pages after one row of writes and the later saves. */
    function AfterOne(pages: Pages, writes: seq<(string, string)>, now: SummaryStore.Time, later: seq<Save>): Pages {
      SaveAll(WriteAll(pages, writes, now, clerk.pageTTL), later, clerk.pageTTL)
    }

    /** A summary that is served says just this text; without one, the key was free or held it. */
    predicate ClearAlone(pages: Pages, key: string, text: string, now: SummaryStore.Time) {
      var served := clerk.Served(summaries, key, at);
      if served.Some? then served.value.summaryText == text else Live(pages, key, now) ==> pages[key].0 == text
    }

    /** Among other writes and before other saves, pages read back exactly when no summary says otherwise and nothing
        else came first under their keys. */
    lemma ReadsBackExactly(pages: Pages, earlier: seq<(string, string)>, key: nat -> string, texts: seq<string>,
                           rest: seq<(string, string)>, now: SummaryStore.Time, later: seq<Save>)
      requires InTime(now, later) && Numbered(key)
      ensures var after := AfterOne(pages, earlier + (PageWrites(key, 0, texts) + rest), now, later);
        ReadsBack(after, PageRefs(key, 0, |texts|), texts) <==> AllClear(pages, earlier, key, texts, now)
    {
      RefsCount(key, 0, texts);
      var after := AfterOne(pages, earlier + (PageWrites(key, 0, texts) + rest), now, later);
      forall i | 0 <= i < |texts|
        ensures OneAgrees(after, pages, earlier, key, texts, now, i)
      {
        RefsAt(key, 0, texts, i);
        assert DiffersFrom(key, i + 1);
        OneReadsBackExactly(pages, earlier, key, texts, rest, now, later, i);
      }
      EachAgrees(after, pages, earlier, key, texts, now);
    }

    ghost predicate OneAgrees(after: Pages, pages: Pages, earlier: seq<(string, string)>, key: nat -> string,
                              texts: seq<string>, now: SummaryStore.Time, i: nat)
      requires i < |texts|
    {
      && |PageRefs(key, 0, |texts|)| == |texts| && PageRefs(key, 0, |texts|)[i] == key(i + 1)
      && (Gets(after, key(i + 1), texts[i]) <==> Clear(pages, earlier, key(i + 1), texts[i], now))
    }

    lemma EachAgrees(after: Pages, pages: Pages, earlier: seq<(string, string)>, key: nat -> string, texts: seq<string>,
                     now: SummaryStore.Time)
      requires |PageRefs(key, 0, |texts|)| == |texts|
      requires forall i: nat :: i < |texts| ==> OneAgrees(after, pages, earlier, key, texts, now, i)
      ensures ReadsBack(after, PageRefs(key, 0, |texts|), texts) <==> AllClear(pages, earlier, key, texts, now)
    {
      forall i | 0 <= i < |texts|
        ensures Gets(after, PageRefs(key, 0, |texts|)[i], texts[i]) <==>
          Clear(pages, earlier, key(i + 1), texts[i], now)
      {
        assert OneAgrees(after, pages, earlier, key, texts, now, i);
      }
    }
  }

  lemma {:induction false} DigitsDiffer(m: nat, n: nat)
    ensures Digits(m) == Digits(n) ==> m == n
  {
    var a, b := Digits(m), Digits(n);
    if a == b {
      assert a[|a| - 1] == b[|b| - 1];
      assert a[..|a| - 1] == b[..|b| - 1];
      if m >= 10 && n >= 10 {
        assert a[..|a| - 1] == Digits(m / 10) && b[..|b| - 1] == Digits(n / 10);
        DigitsDiffer(m / 10, n / 10);
      }
    }
  }

  lemma SuffixesDiffer(front: string, a: string, b: string)
    ensures front + a == front + b ==> a == b
  {
    assert (front + a)[|front|..] == a && (front + b)[|front|..] == b;
  }

  lemma KeysDiffer(lower: string -> string, sources: seq<string>, hash: string, m: nat, n: nat)
    requires m != n
    ensures PageKey(lower, sources, hash, m) != PageKey(lower, sources, hash, n)
  {
    var sourceKey := StableArtifactKey(lower, sources);
    DigitsDiffer(m, n);
    SuffixesDiffer(
      "artifact:v1:rag:sources:" + (if sourceKey == "" then "unknown" else sourceKey) + ":hash:" + hash + ":page:",
      Digits(m), Digits(n));
  }
}
