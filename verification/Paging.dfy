/** Greedy paging of a chunk's split fragments under a page limit. */
module Paging {
  import opened Text
  import opened Seqs
  import opened Content
  import opened Splitter

  datatype Pager = Pager(tokenizer: Tokenizer, classes: RuneClasses, limit: int) {
    function Budget(): Setup {
      Setup(limit, (text: string) => tokenizer.CountText(text), classes)
    }

    function Tokens(fragments: seq<Fragment>): nat {
      tokenizer.CountFragments(fragments)
    }

    /** The split of one fragment: the rendered text decides whether, the bare content decides how. */
    function PartsOf(fragment: Fragment): seq<Fragment> {
      if limit <= 0 || tokenizer.CountFragment(fragment) <= limit then [fragment]
      else SplitFragment(Budget(), fragment)
    }

    function AllParts(fragments: seq<Fragment>): seq<Fragment> {
      if fragments == [] then [] else PartsOf(fragments[0]) + AllParts(fragments[1..])
    }

    /** The pages from the state where `current` is open and `parts` are still to come. */
    function PageUp(parts: seq<Fragment>, current: seq<Fragment>): seq<seq<Fragment>>
      decreases |parts|
    {
      if parts == [] then (if current == [] then [] else [current])
      else if Tokens(current) > 0 && Tokens(current) + tokenizer.CountFragment(parts[0]) > limit then
        [current] + PageUp(parts[1..], [parts[0]])
      else PageUp(parts[1..], current + [parts[0]])
    }

    function Pages(fragments: seq<Fragment>): seq<seq<Fragment>> {
      var pages := PageUp(AllParts(fragments), []);
      if pages == [] then [[]] else pages
    }

    /** The inner loop of paginateChunk: the parts of one fragment, with those of later fragments still to come. */
    method AddParts(pages0: seq<seq<Fragment>>, current0: seq<Fragment>, currentTokens0: nat, parts: seq<Fragment>,
                    ghost later: seq<Fragment>)
      returns (pages: seq<seq<Fragment>>, current: seq<Fragment>, currentTokens: nat)
      requires currentTokens0 == Tokens(current0)
      ensures currentTokens == Tokens(current)
      ensures pages + PageUp(later, current) == pages0 + PageUp(parts + later, current0)
    {
      pages, current, currentTokens := pages0, current0, currentTokens0;
      var todo := parts;
      while |todo| > 0
        invariant currentTokens == Tokens(current)
        invariant pages + PageUp(todo + later, current) == pages0 + PageUp(parts + later, current0)
      {
        var part := todo[0];
        assert (todo + later)[1..] == todo[1..] + later;
        todo := todo[1..];
        var partTokens := tokenizer.CountFragment(part);
        One(part);
        tokenizer.CountAppend(current, [part]);
        if currentTokens > 0 && currentTokens + partTokens > limit {
          Assoc(pages, [current], PageUp(todo + later, [part]));
          pages := pages + [current];
          current := [];
          currentTokens := 0;
          assert current + [part] == [part];
        }
        current := current + [part];
        currentTokens := currentTokens + partTokens;
      }
      assert todo + later == later;
    }

    /** paginateChunk. */
    method PaginateChunk(fragments: seq<Fragment>) returns (pages: seq<seq<Fragment>>)
      ensures pages == Pages(fragments)
    {
      pages := [];
      var current: seq<Fragment> := [];
      var currentTokens := 0;
      var todo := fragments;
      while |todo| > 0
        invariant currentTokens == Tokens(current)
        invariant pages + PageUp(AllParts(todo), current) == PageUp(AllParts(fragments), [])
      {
        pages, current, currentTokens := AddParts(pages, current, currentTokens, PartsOf(todo[0]), AllParts(todo[1..]));
        todo := todo[1..];
      }
      if |current| > 0 {
        pages := pages + [current];
      }
      if |pages| == 0 {
        return [[]];
      }
    }

    // ----- nothing is lost and nothing is reordered -----

    lemma {:induction false} PageUpFlattens(parts: seq<Fragment>, current: seq<Fragment>)
      ensures Flatten(PageUp(parts, current)) == current + parts
      decreases |parts|
    {
      if parts == [] {
        assert [current][1..] == [];
      } else {
        PageUpFlattens(parts[1..], [parts[0]]);
        PageUpFlattens(parts[1..], current + [parts[0]]);
        assert ([current] + PageUp(parts[1..], [parts[0]]))[1..] == PageUp(parts[1..], [parts[0]]);
        assert [parts[0]] + parts[1..] == parts;
        Assoc(current, [parts[0]], parts[1..]);
      }
    }

    lemma {:induction false} AllPartsKeep(fragments: seq<Fragment>)
      ensures EraseAll(Contents(AllParts(fragments))) == EraseAll(Contents(fragments))
    {
      if fragments != [] {
        AllPartsKeep(fragments[1..]);
        SplitFragmentKeeps(Budget(), fragments[0]);
        ContentsAppend(PartsOf(fragments[0]), AllParts(fragments[1..]));
        EraseAllAppend(Contents(PartsOf(fragments[0])), Contents(AllParts(fragments[1..])));
        EraseAllOne(fragments[0].content);
        assert Contents([fragments[0]]) == [fragments[0].content];
      }
    }

    /** The pages read one after the other are the parts in order, and spell the chunk's own text. */
    lemma PagesReadBack(fragments: seq<Fragment>)
      ensures Flatten(Pages(fragments)) == AllParts(fragments)
      ensures EraseAll(Contents(Flatten(Pages(fragments)))) == EraseAll(Contents(fragments))
    {
      PageUpFlattens(AllParts(fragments), []);
      AllPartsKeep(fragments);
      var none: seq<seq<Fragment>> := [[]];
      assert none[1..] == [];
    }

    // ----- the page limit -----

    ghost predicate Within(pages: seq<seq<Fragment>>) {
      forall page :: page in pages ==> Tokens(page) <= limit
    }

    lemma One(part: Fragment)
      ensures Tokens([part]) == tokenizer.CountFragment(part)
    {
      assert [part][1..] == [];
      assert tokenizer.CountFragments([part]) == tokenizer.CountFragment(part) + tokenizer.CountFragments([]);
    }

    lemma {:induction false} PageUpWithin(parts: seq<Fragment>, current: seq<Fragment>)
      requires forall part :: part in parts ==> tokenizer.CountFragment(part) <= limit
      requires Tokens(current) <= limit
      ensures Within(PageUp(parts, current))
      decreases |parts|
    {
      if parts != [] {
        One(parts[0]);
        assert parts[0] in parts;
        tokenizer.CountAppend(current, [parts[0]]);
        if Tokens(current) > 0 && Tokens(current) + tokenizer.CountFragment(parts[0]) > limit {
          PageUpWithin(parts[1..], [parts[0]]);
        } else {
          PageUpWithin(parts[1..], current + [parts[0]]);
        }
      }
    }

    lemma {:induction false} MemberTokens(page: seq<Fragment>, part: Fragment)
      requires part in page
      ensures tokenizer.CountFragment(part) <= Tokens(page)
    {
      if part != page[0] {
        MemberTokens(page[1..], part);
      }
    }

    lemma {:induction false} MemberOfSome(pages: seq<seq<Fragment>>, part: Fragment)
      requires part in Flatten(pages)
      ensures exists page :: page in pages && part in page
    {
      if part !in pages[0] {
        MemberOfSome(pages[1..], part);
        var page :| page in pages[1..] && part in page;
        assert page in pages;
      } else {
        assert pages[0] in pages;
      }
    }

    /** Every page is within the limit exactly when every split part is, rendered. */
    lemma WithinExactly(fragments: seq<Fragment>)
      requires limit >= 0
      ensures Within(Pages(fragments)) <==> forall part :: part in AllParts(fragments) ==>
        tokenizer.CountFragment(part) <= limit
    {
      var parts := AllParts(fragments);
      if forall part :: part in parts ==> tokenizer.CountFragment(part) <= limit {
        PageUpWithin(parts, []);
        assert Tokens([]) == 0;
      }
      if Within(Pages(fragments)) {
        PagesReadBack(fragments);
        forall part | part in parts
          ensures tokenizer.CountFragment(part) <= limit
        {
          MemberOfSome(Pages(fragments), part);
          var page :| page in Pages(fragments) && part in page;
          MemberTokens(page, part);
        }
      }
    }

    /** Zero-token parts followed by exactly one part that is over the limit on its own. */
    ghost predicate OneBig(page: seq<Fragment>) {
      page != [] && Tokens(page[..|page| - 1]) == 0 && tokenizer.CountFragment(page[|page| - 1]) > limit
    }

    lemma OneMore(current: seq<Fragment>, part: Fragment)
      ensures Tokens([part]) == tokenizer.CountFragment(part) &&
        Tokens(current + [part]) == Tokens(current) + tokenizer.CountFragment(part)
      ensures tokenizer.CountFragment(part) > limit ==>
        OneBig([part]) && (Tokens(current) == 0 ==> OneBig(current + [part]))
    {
      One(part);
      tokenizer.CountAppend(current, [part]);
      assert (current + [part])[..|current|] == current && [part][..0] == [];
    }

    lemma {:induction false} PageUpOversized(parts: seq<Fragment>, current: seq<Fragment>)
      requires limit >= 0
      requires Tokens(current) <= limit || OneBig(current)
      ensures forall page :: page in PageUp(parts, current) ==> Tokens(page) <= limit || OneBig(page)
      decreases |parts|
    {
      if parts != [] {
        var next := current + [parts[0]];
        OneMore(current, parts[0]);
        if OneBig(current) {
          MemberTokens(current, current[|current| - 1]);
        }
        if Tokens(current) > 0 && Tokens(current) + tokenizer.CountFragment(parts[0]) > limit {
          PageUpOversized(parts[1..], [parts[0]]);
        } else {
          PageUpOversized(parts[1..], next);
        }
      }
    }

    /** Whatever the parts count, a page over the limit is zero-token parts and one oversized part. */
    lemma OverLimitPages(fragments: seq<Fragment>)
      requires limit >= 0
      ensures forall page :: page in Pages(fragments) ==> Tokens(page) <= limit || OneBig(page)
    {
      assert Tokens([]) == 0;
      PageUpOversized(AllParts(fragments), []);
    }

    // ----- when a page is closed -----

    /** A page that counts something has no room for the next part. */
    predicate Full(page: seq<Fragment>, next: Fragment) {
      Tokens(page) > 0 && Tokens(page) + tokenizer.CountFragment(next) > limit
    }

    /** No part was put on the page when it was full. */
    ghost predicate Roomy(page: seq<Fragment>) {
      forall k :: 0 < k < |page| ==> !Full(page[..k], page[k])
    }

    ghost predicate ClosedWhenFull(pages: seq<seq<Fragment>>) {
      && (forall i :: 0 <= i < |pages| ==> Roomy(pages[i]))
      && (forall i :: 0 < i < |pages| ==> pages[i] != [] && Full(pages[i - 1], pages[i][0]))
    }

    lemma RoomyMore(page: seq<Fragment>, part: Fragment)
      requires Roomy(page) && !Full(page, part)
      ensures Roomy(page + [part])
    {
      var more := page + [part];
      forall k | 0 < k < |more|
        ensures !Full(more[..k], more[k])
      {
        if k < |page| {
          assert more[..k] == page[..k];
        } else {
          assert more[..k] == page;
        }
      }
    }

    /** The first page starts with the open one. */
    lemma {:induction false} PageUpCloses(parts: seq<Fragment>, current: seq<Fragment>)
      requires Roomy(current)
      ensures ClosedWhenFull(PageUp(parts, current))
      ensures current != [] ==> PageUp(parts, current) != [] && current <= PageUp(parts, current)[0]
      decreases |parts|
    {
      if parts != [] {
        if Full(current, parts[0]) {
          PageUpCloses(parts[1..], [parts[0]]);
          ClosedCons(current, PageUp(parts[1..], [parts[0]]));
        } else {
          RoomyMore(current, parts[0]);
          PageUpCloses(parts[1..], current + [parts[0]]);
        }
      }
    }

    lemma ClosedCons(page: seq<Fragment>, pages: seq<seq<Fragment>>)
      requires Roomy(page) && ClosedWhenFull(pages)
      requires pages != [] ==> pages[0] != [] && Full(page, pages[0][0])
      ensures ClosedWhenFull([page] + pages)
    {
      var all := [page] + pages;
      forall i | 0 <= i < |all|
        ensures Roomy(all[i]) && (i > 0 ==> all[i] != [] && Full(all[i - 1], all[i][0]))
      {
        assert i > 0 ==> all[i] == pages[i - 1];
        assert i > 1 ==> all[i - 1] == pages[i - 2];
      }
    }

    /** A page is closed exactly when it is full: it counts something and has no room for the part that opens the
        next. */
    lemma PagesCloseWhenFull(fragments: seq<Fragment>)
      ensures ClosedWhenFull(Pages(fragments))
    {
      PageUpCloses(AllParts(fragments), []);
    }

    // ----- greedy paging uses the fewest pages -----

    /** Greedy paging whose open page starts no earlier than the first group of `groups` keeps pace with it. */
    lemma {:induction false} GreedyKeepsPace(skipped: seq<Fragment>, current: seq<Fragment>, parts: seq<Fragment>,
                                             groups: seq<seq<Fragment>>)
      requires Flatten(groups) == skipped + current + parts
      requires Within(groups)
      ensures |PageUp(parts, current)| <= |groups|
      decreases |parts|
    {
      if parts == [] {
        assert groups == [] ==> current == [];
      } else {
        var h, rest := parts[0], parts[1..];
        assert parts == [h] + rest;
        if Tokens(current) > 0 && Tokens(current) + tokenizer.CountFragment(h) > limit {
          DropFirstGroup(skipped, current, h, rest, groups);
          GreedyKeepsPace((skipped + current)[|groups[0]|..], [h], rest, groups[1..]);
        } else {
          assert skipped + current + parts == skipped + (current + [h]) + rest;
          GreedyKeepsPace(skipped, current + [h], rest, groups);
        }
      }
    }

    lemma AtLeast(skipped: seq<Fragment>, current: seq<Fragment>, h: Fragment, tail: seq<Fragment>)
      ensures Tokens(skipped + (current + [h]) + tail) >= Tokens(current) + tokenizer.CountFragment(h)
    {
      tokenizer.CountAppend(skipped + (current + [h]), tail);
      tokenizer.CountAppend(skipped, current + [h]);
      tokenizer.CountAppend(current, [h]);
      One(h);
    }

    /** When the open page has no room for `h`, the first group ends before `h`. */
    lemma DropFirstGroup(skipped: seq<Fragment>, current: seq<Fragment>, h: Fragment, rest: seq<Fragment>,
                         groups: seq<seq<Fragment>>)
      requires Flatten(groups) == skipped + current + ([h] + rest)
      requires Within(groups) && Tokens(current) + tokenizer.CountFragment(h) > limit
      ensures groups != [] && |groups[0]| <= |skipped| + |current|
      ensures Flatten(groups[1..]) == (skipped + current)[|groups[0]|..] + [h] + rest
    {
      FirstGroupEnds(skipped, current, h, rest, groups);
      assert groups[0] == Flatten(groups)[..|groups[0]|];
      assert Flatten(groups[1..]) == Flatten(groups)[|groups[0]|..];
    }

    lemma FirstGroupEnds(skipped: seq<Fragment>, current: seq<Fragment>, h: Fragment, rest: seq<Fragment>,
                         groups: seq<seq<Fragment>>)
      requires Flatten(groups) == skipped + current + ([h] + rest)
      requires Within(groups) && Tokens(current) + tokenizer.CountFragment(h) > limit
      ensures groups != [] && |groups[0]| <= |skipped| + |current|
    {
      assert groups[0] in groups;
      assert groups[0] == Flatten(groups)[..|groups[0]|];
      if |groups[0]| > |skipped| + |current| {
        LongGroup(skipped, current, h, rest, groups[0]);
      }
    }

    lemma LongGroup(skipped: seq<Fragment>, current: seq<Fragment>, h: Fragment, rest: seq<Fragment>,
                    group: seq<Fragment>)
      requires |skipped| + |current| < |group| <= |skipped + current + ([h] + rest)|
      requires group == (skipped + current + ([h] + rest))[..|group|]
      ensures Tokens(group) >= Tokens(current) + tokenizer.CountFragment(h)
    {
      var tail := group[|skipped| + |current| + 1..];
      assert group == skipped + (current + [h]) + tail;
      AtLeast(skipped, current, h, tail);
    }

    /** No order-preserving grouping of the parts within the limit uses fewer pages. */
    lemma PagingIsOptimal(fragments: seq<Fragment>, groups: seq<seq<Fragment>>)
      requires AllParts(fragments) != []
      requires Flatten(groups) == AllParts(fragments) && Within(groups)
      ensures |Pages(fragments)| <= |groups|
    {
      GreedyKeepsPace([], [], AllParts(fragments), groups);
      assert groups != [];
    }

    // ----- what the splitter's budget means for pages -----

    /** A fragment over the limit always splits into something: the older splitter behind it is never reached. */
    lemma OlderSplitterUnreached(fragment: Fragment)
      requires limit > 0 && tokenizer.CountFragment(fragment) > limit
      ensures SplitFragment(Budget(), fragment) != []
    {
      SplitFragmentKeeps(Budget(), fragment);
      EraseTrim(fragment.content);
      assert FragmentText(fragment) == "" ==> TrimSpace("") == "";
    }

    /** The fragment fits whole, or is rendered as its bare content and every rune of it fits. */
    ghost predicate Fitting(f: Fragment) {
      tokenizer.CountFragment(f) <= limit || (Undecorated(f.kind) && Budget().RunesFit(Erase(f.content)))
    }

    lemma FittingParts(f: Fragment)
      requires limit > 0 && Fitting(f)
      ensures forall part :: part in PartsOf(f) ==> tokenizer.CountFragment(part) <= limit
    {
      if tokenizer.CountFragment(f) > limit {
        SplitFragmentFits(Budget(), f);
        SplitFragmentKeeps(Budget(), f);
        forall part | part in PartsOf(f)
          ensures tokenizer.CountFragment(part) <= limit
        {
          tokenizer.UndecoratedCount(part);
          assert Budget().Fits(part.content);
        }
      }
    }

    lemma {:induction false} AllPartsFit(fragments: seq<Fragment>)
      requires limit > 0 && forall f :: f in fragments ==> Fitting(f)
      ensures forall part :: part in AllParts(fragments) ==> tokenizer.CountFragment(part) <= limit
    {
      if fragments != [] {
        AllPartsFit(fragments[1..]);
        FittingParts(fragments[0]);
      }
    }

    /** Any kinds, any counter: every page is within the limit when every fragment fits whole, or is undecorated with
        fitting runes. */
    lemma MixedPagesFit(fragments: seq<Fragment>)
      requires limit > 0 && forall f :: f in fragments ==> Fitting(f)
      ensures Within(Pages(fragments))
    {
      AllPartsFit(fragments);
      WithinExactly(fragments);
    }

    /** A part that counts something says something. */
    lemma CountedSpeaks(part: Fragment)
      requires tokenizer.CountFragment(part) > 0
      ensures Erase(part.content) != ""
    {
      EraseTrim(part.content);
      TrimmedStays("");
    }

    lemma HeadSpeaks(head: Fragment, rest: seq<Fragment>)
      requires tokenizer.CountFragment(head) > 0
      ensures EraseAll(Contents([head] + rest)) != ""
    {
      CountedSpeaks(head);
      assert ([head] + rest)[0] == head;
    }

    /** When all parts fit, what stands behind the first page is not blank. */
    lemma {:induction false} LaterPagesSpeak(parts: seq<Fragment>, current: seq<Fragment>)
      requires Tokens(current) <= limit && forall part :: part in parts ==> tokenizer.CountFragment(part) <= limit
      requires |PageUp(parts, current)| > 1
      ensures EraseAll(Contents(Flatten(PageUp(parts, current)[1..]))) != ""
      decreases |parts|
    {
      OneMore(current, parts[0]);
      if Tokens(current) > 0 && Tokens(current) + tokenizer.CountFragment(parts[0]) > limit {
        assert PageUp(parts, current)[1..] == PageUp(parts[1..], [parts[0]]);
        PageUpFlattens(parts[1..], [parts[0]]);
        HeadSpeaks(parts[0], parts[1..]);
      } else {
        assert forall part :: part in parts[1..] ==> part in parts;
        assert Tokens(current) == 0 ==> Tokens(current + [parts[0]]) == tokenizer.CountFragment(parts[0]);
        assert parts[0] in parts;
        LaterPagesSpeak(parts[1..], current + [parts[0]]);
      }
    }

    lemma {:induction false} PartOfFragment(fragments: seq<Fragment>, f: Fragment, part: Fragment)
      requires f in fragments && part in PartsOf(f)
      ensures part in AllParts(fragments)
    {
      if f != fragments[0] {
        PartOfFragment(fragments[1..], f, part);
      }
    }

    /** A fragment whose parts all fit has runes that fit. */
    lemma FittingPartsHaveFittingRunes(f: Fragment)
      requires limit > 0 && Budget().Monotone() && Undecorated(f.kind)
      requires forall part :: part in PartsOf(f) ==> tokenizer.CountFragment(part) <= limit
      ensures Budget().RunesFit(Erase(f.content))
    {
      EraseTrim(f.content);
      if tokenizer.CountFragment(f) <= limit {
        WholeFits(f);
      } else {
        SplitFragmentKeeps(Budget(), f);
        forall part | part in SplitFragment(Budget(), f)
          ensures Budget().Fits(part.content)
        {
          tokenizer.UndecoratedCount(part);
        }
        SplitFragmentFitsExactly(Budget(), f);
      }
    }

    lemma WholeFits(f: Fragment)
      requires Budget().Monotone() && Undecorated(f.kind) && tokenizer.CountFragment(f) <= limit
      ensures Budget().RunesFit(Erase(f.content))
    {
      var content := TrimSpace(f.content);
      EraseTrim(f.content);
      TrimSpaceTrims(f.content);
      assert FragmentText(f) == content;
      assert Budget().Fits(content);
      forall r | r in Erase(content)
        ensures Budget().Fits([r])
      {
        EraseMember(content, r);
        RuneOfPartFits(Budget(), content, r);
      }
    }

    /** For a monotone counter, and decorated fragments that fit whole, all pages are within the limit exactly when
        every rune of an undecorated fragment that is not white space fits on its own. */
    lemma MixedPagesFitExactly(fragments: seq<Fragment>)
      requires limit > 0 && Budget().Monotone()
      requires forall f :: f in fragments && !Undecorated(f.kind) ==> tokenizer.CountFragment(f) <= limit
      ensures Within(Pages(fragments)) <==>
        forall f :: f in fragments && Undecorated(f.kind) ==> Budget().RunesFit(Erase(f.content))
    {
      if Within(Pages(fragments)) {
        WithinExactly(fragments);
        forall f | f in fragments && Undecorated(f.kind)
          ensures Budget().RunesFit(Erase(f.content))
        {
          forall part | part in PartsOf(f)
            ensures tokenizer.CountFragment(part) <= limit
          {
            PartOfFragment(fragments, f, part);
          }
          FittingPartsHaveFittingRunes(f);
        }
      }
      if forall f :: f in fragments && Undecorated(f.kind) ==> Budget().RunesFit(Erase(f.content)) {
        MixedPagesFit(fragments);
      }
    }

    /** For a monotone counter and undecorated chunks, all pages are within the limit exactly when every rune that is
        not white space fits on its own. */
    lemma UndecoratedPagesFitExactly(fragments: seq<Fragment>)
      requires limit > 0 && Budget().Monotone() && forall f :: f in fragments ==> Undecorated(f.kind)
      ensures Within(Pages(fragments)) <==> forall f :: f in fragments ==> Budget().RunesFit(Erase(f.content))
    {
      MixedPagesFitExactly(fragments);
    }

    /** Undecorated chunks: every page is within the limit when every rune fits on its own. */
    lemma UndecoratedPagesFit(fragments: seq<Fragment>)
      requires limit > 0
      requires forall f :: f in fragments ==> Undecorated(f.kind) && Budget().RunesFit(Erase(f.content))
      ensures Within(Pages(fragments))
    {
      MixedPagesFit(fragments);
    }
  }

  lemma ShortJSON()
    ensures FragmentText(Fragment("json", "ab", "")) == "JSON:\nab" && TrimSpace("ab") == "ab" &&
      TrimSpace("JSON:\nab") == "JSON:\nab"
  {
    TrimmedStays("ab");
    TrimmedStays("JSON:\nab");
  }

  /** A decorated fragment whose content fits but whose rendering does not: its page is over the limit. */
  lemma DecoratedPageOverLimit(classes: RuneClasses)
    ensures var pager := Pager(Tokenizer((text: string) => |text|), classes, 4);
      && (forall r :: pager.Budget().Fits([r]))
      && !pager.Within(pager.Pages([Fragment("json", "ab", "")]))
  {
    var pager := Pager(Tokenizer((text: string) => |text|), classes, 4);
    var f := Fragment("json", "ab", "");
    ShortJSON();
    assert pager.tokenizer.CountFragment(f) == 8;
    assert SplitFragment(pager.Budget(), f) == [f];
    assert [f][1..] == [];
    assert f in pager.AllParts([f]);
    pager.WithinExactly([f]);
  }
}
