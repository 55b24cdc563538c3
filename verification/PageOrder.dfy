/** Page references are sorted as strings: what that does to the order of the pages. */
module PageOrder {
  import opened Text
  import opened Seqs
  import opened Sorting
  import opened PageKeys
  import opened PageSaving
  import opened Canonical

  /** Keys that differ in their page number only, and that trimming and case folding leave alone. */
  ghost predicate PlainKeys(lower: string -> string, front: string, key: nat -> string) {
    forall i: nat :: PlainKey(lower, front, key, i)
  }

  predicate PlainKey(lower: string -> string, front: string, key: nat -> string, i: nat) {
    key(i) == front + Digits(i) && Trimmed(key(i)) && lower(key(i)) == key(i)
  }

  lemma {:induction false} LessBehind(front: string, a: string, b: string)
    ensures Less(front + a, front + b) == Less(a, b)
  {
    if front == "" {
      assert front + a == a && front + b == b;
    } else {
      assert (front + a)[1..] == front[1..] + a && (front + b)[1..] == front[1..] + b;
      LessBehind(front[1..], a, b);
    }
  }

  /** Among the first nine, greater page numbers have greater keys. */
  lemma SmallNumbersInOrder(m: nat, n: nat)
    requires m < n <= 9
    ensures !Less(Digits(n), Digits(m))
  {}

  lemma TenBeforeTwo()
    ensures Less(Digits(10), Digits(2))
  {
    assert Digits(10) == Digits(1) + "0" && Digits(1) == "1" && Digits(2) == "2";
  }

  lemma {:induction false} PageRefAt(key: nat -> string, from: nat, n: nat, i: nat)
    requires from <= n
    ensures |PageRefs(key, from, n)| == n - from
    ensures i < n - from ==> PageRefs(key, from, n)[i] == key(from + i + 1)
    decreases n - from
  {
    if from < n {
      PageRefAt(key, from + 1, n, if i == 0 then 0 else i - 1);
    }
  }

  lemma NumbersTell(lower: string -> string, front: string, key: nat -> string, m: nat, n: nat)
    requires PlainKeys(lower, front, key) && key(m) == key(n)
    ensures m == n
  {
    assert PlainKey(lower, front, key, m) && PlainKey(lower, front, key, n);
    SuffixesDiffer(front, Digits(m), Digits(n));
    DigitsDiffer(m, n);
  }

  /** Distinct labels that cleaning and case folding leave alone are all kept. */
  lemma {:induction false} DistinctAreFirsts(lower: string -> string, clean: string -> string, values: seq<string>,
                                             seen: set<string>)
    requires forall v :: v in values ==> v != "" && clean(v) == v && lower(v) == v && v !in seen
    requires forall i, j :: 0 <= i < j < |values| ==> values[i] != values[j]
    ensures Normalizer.FirstLabels(lower, clean, values, seen) == values
  {
    if values != [] {
      assert values[0] in values;
      forall v | v in values[1..]
        ensures v in values && v !in seen + {values[0]}
      {
        var k :| 0 <= k < |values[1..]| && values[1..][k] == v;
        assert values[k + 1] == v;
      }
      DistinctAreFirsts(lower, clean, values[1..], seen + {values[0]});
    }
  }

  lemma RefsAreFirsts(lower: string -> string, front: string, key: nat -> string, n: nat)
    requires PlainKeys(lower, front, key)
    ensures Normalizer.FirstLabels(lower, Trimmer(), PageRefs(key, 0, n), {}) == PageRefs(key, 0, n)
  {
    var refs := PageRefs(key, 0, n);
    PageRefAt(key, 0, n, 0);
    forall v | v in refs
      ensures v != "" && Trimmer()(v) == v && lower(v) == v
    {
      var i :| 0 <= i < |refs| && refs[i] == v;
      PageRefAt(key, 0, n, i);
      assert PlainKey(lower, front, key, i + 1);
      TrimmedStays(v);
    }
    forall i, j | 0 <= i < j < |refs|
      ensures refs[i] != refs[j]
    {
      PageRefAt(key, 0, n, i);
      PageRefAt(key, 0, n, j);
      if refs[i] == refs[j] {
        NumbersTell(lower, front, key, i + 1, j + 1);
      }
    }
    DistinctAreFirsts(lower, Trimmer(), refs, {});
  }

  lemma RefsCompare(lower: string -> string, front: string, key: nat -> string, n: nat, i: nat, j: nat)
    requires PlainKeys(lower, front, key) && i < n && j < n
    ensures |PageRefs(key, 0, n)| == n
    ensures var byKey, refs := LabelKey(lower), PageRefs(key, 0, n);
      KeyLess(byKey(refs[i]), byKey(refs[j])) == Less(Digits(i + 1), Digits(j + 1))
  {
    PageRefAt(key, 0, n, i);
    PageRefAt(key, 0, n, j);
    assert PlainKey(lower, front, key, i + 1) && PlainKey(lower, front, key, j + 1);
    LessBehind(front, Digits(i + 1), Digits(j + 1));
  }

  /** The references stand in the order of their strings exactly while there are at most nine. */
  lemma RefsSortedExactly(lower: string -> string, front: string, key: nat -> string, n: nat)
    requires PlainKeys(lower, front, key)
    ensures Sorted(PageRefs(key, 0, n), LabelKey(lower)) <==> n <= 9
  {
    var byKey, refs := LabelKey(lower), PageRefs(key, 0, n);
    PageRefAt(key, 0, n, 0);
    if n <= 9 {
      forall i, j | 0 <= i < j < |refs|
        ensures !KeyLess(byKey(refs[j]), byKey(refs[i]))
      {
        RefsCompare(lower, front, key, n, j, i);
        SmallNumbersInOrder(i + 1, j + 1);
      }
    } else {
      RefsCompare(lower, front, key, n, 9, 1);
      TenBeforeTwo();
    }
  }

  /** The canonical reference list has the same members, and is in page order exactly for at most nine pages. */
  lemma RefsStayExactly(lower: string -> string, front: string, key: nat -> string, n: nat)
    requires PlainKeys(lower, front, key)
    ensures var refs, sorted := PageRefs(key, 0, n), Normalizer.SortedLabels(lower, Trimmer(), PageRefs(key, 0, n));
      multiset(sorted) == multiset(refs) && (sorted == refs <==> n <= 9)
  {
    var refs := PageRefs(key, 0, n);
    RefsAreFirsts(lower, front, key, n);
    RefsSortedExactly(lower, front, key, n);
    SortKeeps(refs, LabelKey(lower));
    SortSorts(refs, LabelKey(lower));
    if n <= 9 {
      SortedStays(refs, LabelKey(lower));
    }
  }

  ghost predicate Distinct(texts: seq<string>) {
    forall i, j :: 0 <= i < j < |texts| ==> texts[i] != texts[j]
  }

  /** When references read back distinct texts, only their own order does. */
  lemma OnlyInOrder(reader: Reader, pages: Pages, refs: seq<string>, other: seq<string>, texts: seq<string>)
    requires reader.ReadsBack(pages, refs, texts) && Distinct(texts) && multiset(other) == multiset(refs)
    ensures reader.ReadsBack(pages, other, texts) <==> other == refs
  {
    assert |multiset(other)| == |other| && |multiset(refs)| == |refs|;
    if reader.ReadsBack(pages, other, texts) {
      forall i | 0 <= i < |refs|
        ensures other[i] == refs[i]
      {
        assert other[i] in multiset(refs);
        var j :| 0 <= j < |refs| && refs[j] == other[i];
        assert reader.Gets(pages, refs[j], texts[j]) && reader.Gets(pages, other[i], texts[i]);
      }
    }
  }
}
