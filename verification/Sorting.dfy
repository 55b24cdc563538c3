/** Stable sorting by string keys, and when two inputs sort to the same result. */
module Sorting {

  type Key = (string, string)

  /** Go's `<` on strings: code point by code point, which is also byte by byte in UTF-8. */
  predicate Less(a: string, b: string) {
    b != "" && (a == "" || a[0] < b[0] || (a[0] == b[0] && Less(a[1..], b[1..])))
  }

  predicate KeyLess(a: Key, b: Key) {
    Less(a.0, b.0) || (a.0 == b.0 && Less(a.1, b.1))
  }

  lemma {:induction false} LessTotal(a: string, b: string)
    ensures a == b || Less(a, b) || Less(b, a)
    ensures !(Less(a, b) && Less(b, a)) && !Less(a, a)
  {
    if a != "" {
      LessTotal(a[1..], a[1..]);
      if b != "" && a[0] == b[0] {
        LessTotal(a[1..], b[1..]);
        assert a == [a[0]] + a[1..] && b == [b[0]] + b[1..];
      }
    }
  }

  lemma {:induction false} LessTransitive(a: string, b: string, c: string)
    requires Less(a, b) && Less(b, c)
    ensures Less(a, c)
  {
    if a != "" && a[0] == b[0] == c[0] {
      LessTransitive(a[1..], b[1..], c[1..]);
    }
  }

  lemma KeyLessTotal(a: Key, b: Key)
    ensures a == b || KeyLess(a, b) || KeyLess(b, a)
    ensures !(KeyLess(a, b) && KeyLess(b, a)) && !KeyLess(a, a)
  {
    LessTotal(a.0, b.0);
    LessTotal(a.1, b.1);
    LessTotal(a.0, a.0);
    LessTotal(a.1, a.1);
  }

  lemma KeyLessTransitive(a: Key, b: Key, c: Key)
    requires !KeyLess(b, a) && !KeyLess(c, b)
    ensures !KeyLess(c, a)
  {
    KeyLessTotal(a, b);
    KeyLessTotal(b, c);
    KeyLessTotal(a, c);
    LessTotal(a.0, c.0);
    if KeyLess(a, b) && KeyLess(b, c) {
      if Less(a.0, b.0) && Less(b.0, c.0) {
        LessTransitive(a.0, b.0, c.0);
      } else if a.0 == b.0 == c.0 {
        LessTransitive(a.1, b.1, c.1);
        LessTotal(a.1, c.1);
      }
    }
  }

  /** Stable insertion: `x` came first, so it goes in front of everything that is not smaller. */
  function Insert<T>(x: T, ys: seq<T>, key: T -> Key): seq<T> {
    if ys == [] || !KeyLess(key(ys[0]), key(x)) then [x] + ys
    else [ys[0]] + Insert(x, ys[1..], key)
  }

  /** sort.SliceStable by key. */
  function SortBy<T>(xs: seq<T>, key: T -> Key): seq<T> {
    if xs == [] then [] else Insert(xs[0], SortBy(xs[1..], key), key)
  }

  ghost predicate Sorted<T>(ys: seq<T>, key: T -> Key) {
    forall i, j :: 0 <= i < j < |ys| ==> !KeyLess(key(ys[j]), key(ys[i]))
  }

  /** The members that carry one key, in order. */
  function Carrying<T>(xs: seq<T>, key: T -> Key, k: Key): seq<T> {
    if xs == [] then [] else (if key(xs[0]) == k then [xs[0]] else []) + Carrying(xs[1..], key, k)
  }

  lemma {:induction false} InsertKeeps<T>(x: T, ys: seq<T>, key: T -> Key)
    ensures multiset(Insert(x, ys, key)) == multiset{x} + multiset(ys)
  {
    if ys != [] && KeyLess(key(ys[0]), key(x)) {
      InsertKeeps(x, ys[1..], key);
      assert ys == [ys[0]] + ys[1..];
    }
  }

  /** Sorting is a permutation. */
  lemma {:induction false} SortKeeps<T>(xs: seq<T>, key: T -> Key)
    ensures multiset(SortBy(xs, key)) == multiset(xs)
  {
    if xs != [] {
      SortKeeps(xs[1..], key);
      InsertKeeps(xs[0], SortBy(xs[1..], key), key);
      assert xs == [xs[0]] + xs[1..];
    }
  }

  lemma {:induction false} InsertSorts<T>(x: T, ys: seq<T>, key: T -> Key)
    requires Sorted(ys, key)
    ensures Sorted(Insert(x, ys, key), key)
  {
    if ys != [] {
      if KeyLess(key(ys[0]), key(x)) {
        var rest := Insert(x, ys[1..], key);
        InsertSorts(x, ys[1..], key);
        InsertKeeps(x, ys[1..], key);
        forall j | 0 <= j < |rest|
          ensures !KeyLess(key(rest[j]), key(ys[0]))
        {
          KeyLessTotal(key(ys[0]), key(x));
          assert rest[j] in multiset(rest);
          assert rest[j] == x || rest[j] in ys[1..];
        }
      } else {
        forall j | 0 <= j < |ys|
          ensures !KeyLess(key(ys[j]), key(x))
        {
          if j > 0 {
            KeyLessTransitive(key(x), key(ys[0]), key(ys[j]));
          }
        }
      }
    }
  }

  /** Sorting sorts. */
  lemma {:induction false} SortSorts<T>(xs: seq<T>, key: T -> Key)
    ensures Sorted(SortBy(xs, key), key)
  {
    if xs != [] {
      SortSorts(xs[1..], key);
      InsertSorts(xs[0], SortBy(xs[1..], key), key);
    }
  }

  lemma {:induction false} InsertStable<T>(x: T, ys: seq<T>, key: T -> Key, k: Key)
    ensures Carrying(Insert(x, ys, key), key, k) == (if key(x) == k then [x] else []) + Carrying(ys, key, k)
  {
    if ys == [] || !KeyLess(key(ys[0]), key(x)) {
      assert ([x] + ys)[1..] == ys;
    } else {
      KeyLessTotal(key(ys[0]), key(x));
      InsertStable(x, ys[1..], key, k);
      var rest := Insert(x, ys[1..], key);
      assert ([ys[0]] + rest)[1..] == rest;
    }
  }

  /** Sorting is stable: members with one key keep their order. */
  lemma {:induction false} SortIsStable<T>(xs: seq<T>, key: T -> Key, k: Key)
    ensures Carrying(SortBy(xs, key), key, k) == Carrying(xs, key, k)
  {
    if xs != [] {
      SortIsStable(xs[1..], key, k);
      InsertStable(xs[0], SortBy(xs[1..], key), key, k);
    }
  }

  lemma {:induction false} CarryingMember<T>(xs: seq<T>, key: T -> Key, k: Key)
    ensures Carrying(xs, key, k) != [] ==> exists i :: 0 <= i < |xs| && key(xs[i]) == k
  {
    if xs != [] && key(xs[0]) != k {
      CarryingMember(xs[1..], key, k);
      if Carrying(xs[1..], key, k) != [] {
        var i :| 0 <= i < |xs[1..]| && key(xs[1..][i]) == k;
        assert key(xs[i + 1]) == k;
      }
    }
  }

  lemma HeadKeyIsSmallest<T>(a: seq<T>, b: seq<T>, key: T -> Key)
    requires a != [] && Sorted(b, key)
    requires Carrying(b, key, key(a[0])) != []
    ensures b != [] && !KeyLess(key(a[0]), key(b[0]))
  {
    CarryingMember(b, key, key(a[0]));
    var i :| 0 <= i < |b| && key(b[i]) == key(a[0]);
    KeyLessTotal(key(b[0]), key(b[0]));
  }

  lemma CarriesSomething<T>(xs: seq<T>, key: T -> Key)
    ensures xs != [] ==> exists k :: Carrying(xs, key, k) != []
  {
    if xs != [] {
      assert Carrying(xs, key, key(xs[0])) != [];
    }
  }

  /** Two sorted lists with the same members in the same order under every key are the same list. */
  lemma {:induction false} SortedUnique<T>(a: seq<T>, b: seq<T>, key: T -> Key)
    requires Sorted(a, key) && Sorted(b, key)
    requires forall k :: Carrying(a, key, k) == Carrying(b, key, k)
    ensures a == b
  {
    if a == [] {
      CarriesSomething(b, key);
    } else {
      assert Carrying(a, key, key(a[0])) == Carrying(b, key, key(a[0]));
      HeadKeyIsSmallest(a, b, key);
      assert Carrying(a, key, key(b[0])) == Carrying(b, key, key(b[0]));
      HeadKeyIsSmallest(b, a, key);
      KeyLessTotal(key(a[0]), key(b[0]));
      assert a[0] == Carrying(a, key, key(a[0]))[0] == b[0];
      forall k
        ensures Carrying(a[1..], key, k) == Carrying(b[1..], key, k)
      {
        var head := if key(a[0]) == k then [a[0]] else [];
        assert Carrying(a, key, k) == head + Carrying(a[1..], key, k);
        assert Carrying(b, key, k) == head + Carrying(b[1..], key, k);
        assert Carrying(a[1..], key, k) == Carrying(a, key, k)[|head|..];
      }
      SortedUnique(a[1..], b[1..], key);
    }
  }

  /** Sorting what is sorted changes nothing. */
  lemma SortedStays<T(!new)>(xs: seq<T>, key: T -> Key)
    requires Sorted(xs, key)
    ensures SortBy(xs, key) == xs
  {
    SortSorts(xs, key);
    forall k
      ensures Carrying(SortBy(xs, key), key, k) == Carrying(xs, key, k)
    {
      SortIsStable(xs, key, k);
    }
    SortedUnique(SortBy(xs, key), xs, key);
  }

  /** Under every key the two lists carry the same members in the same order. */
  ghost predicate AgreeUnderEveryKey<T(!new)>(xs: seq<T>, ys: seq<T>, key: T -> Key) {
    forall k: Key :: Carrying(xs, key, k) == Carrying(ys, key, k)
  }

  lemma SortAgrees<T(!new)>(xs: seq<T>, key: T -> Key)
    ensures AgreeUnderEveryKey(SortBy(xs, key), xs, key)
  {
    forall k: Key
      ensures Carrying(SortBy(xs, key), key, k) == Carrying(xs, key, k)
    {
      SortIsStable(xs, key, k);
    }
  }

  lemma AgreeTransitive<T(!new)>(xs: seq<T>, ys: seq<T>, zs: seq<T>, key: T -> Key)
    requires AgreeUnderEveryKey(xs, ys, key)
    ensures AgreeUnderEveryKey(xs, zs, key) <==> AgreeUnderEveryKey(ys, zs, key)
    ensures AgreeUnderEveryKey(zs, xs, key) <==> AgreeUnderEveryKey(xs, zs, key)
  {}

  /** Two inputs sort to the same list exactly when every key's members come in the same order in both. */
  lemma SameResultExactly<T(!new)>(xs: seq<T>, ys: seq<T>, key: T -> Key)
    ensures SortBy(xs, key) == SortBy(ys, key) <==> AgreeUnderEveryKey(xs, ys, key)
  {
    var a, b := SortBy(xs, key), SortBy(ys, key);
    SortAgrees(xs, key);
    SortAgrees(ys, key);
    SortSorts(xs, key);
    SortSorts(ys, key);
    AgreeTransitive(a, xs, ys, key);
    AgreeTransitive(b, ys, a, key);
    AgreeTransitive(a, xs, b, key);
    AgreeTransitive(ys, ys, a, key);
    if AgreeUnderEveryKey(a, b, key) {
      SortedUnique(a, b, key);
    }
  }

  ghost predicate DistinctKeys<T>(xs: seq<T>, key: T -> Key) {
    forall i, j :: 0 <= i < j < |xs| ==> key(xs[i]) != key(xs[j])
  }

  lemma {:induction false} CarryingContents<T>(xs: seq<T>, key: T -> Key, k: Key, x: T)
    ensures multiset(Carrying(xs, key, k))[x] == if key(x) == k then multiset(xs)[x] else 0
  {
    if xs != [] {
      CarryingContents(xs[1..], key, k, x);
      assert xs == [xs[0]] + xs[1..];
    }
  }

  lemma CarryingSameContents<T(!new)>(xs: seq<T>, ys: seq<T>, key: T -> Key, k: Key)
    requires multiset(xs) == multiset(ys)
    ensures multiset(Carrying(xs, key, k)) == multiset(Carrying(ys, key, k))
  {
    forall x
      ensures multiset(Carrying(xs, key, k))[x] == multiset(Carrying(ys, key, k))[x]
    {
      CarryingContents(xs, key, k, x);
      CarryingContents(ys, key, k, x);
    }
  }

  lemma {:induction false} CarryingAtMostOne<T>(xs: seq<T>, key: T -> Key, k: Key)
    requires DistinctKeys(xs, key)
    ensures |Carrying(xs, key, k)| <= 1
  {
    if xs != [] {
      CarryingAtMostOne(xs[1..], key, k);
      forall i | 0 <= i < |xs[1..]|
        ensures key(xs[1..][i]) != key(xs[0])
      {
        assert key(xs[0]) != key(xs[i + 1]);
      }
      CarryingMember(xs[1..], key, k);
    }
  }

  lemma SmallEqual<T>(a: seq<T>, b: seq<T>)
    requires multiset(a) == multiset(b) && |a| <= 1
    ensures a == b
  {
    assert |multiset(a)| == |a| && |multiset(b)| == |b|;
    if |a| == 1 {
      assert a == [a[0]] && b == [b[0]];
      assert b[0] in multiset(a);
    }
  }

  /** With distinct keys the result does not depend on the order of the input. */
  lemma OrderIndependent<T(!new)>(xs: seq<T>, ys: seq<T>, key: T -> Key)
    requires multiset(xs) == multiset(ys) && DistinctKeys(xs, key)
    ensures SortBy(xs, key) == SortBy(ys, key)
  {
    forall k: Key
      ensures Carrying(xs, key, k) == Carrying(ys, key, k)
    {
      CarryingSameContents(xs, ys, key, k);
      CarryingAtMostOne(xs, key, k);
      SmallEqual(Carrying(xs, key, k), Carrying(ys, key, k));
    }
    SameResultExactly(xs, ys, key);
  }
}
