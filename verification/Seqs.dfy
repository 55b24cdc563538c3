/** Facts about sequences that several loops need. */
module Seqs {

  /** Moving the head of what is left to the end of what is done. */
  lemma Shift<T>(done: seq<T>, rest: seq<T>)
    requires rest != []
    ensures done + [rest[0]] + rest[1..] == done + rest
  {}

  lemma Assoc<T>(a: seq<T>, b: seq<T>, c: seq<T>)
    ensures a + (b + c) == (a + b) + c
  {}

  function Flatten<T>(xss: seq<seq<T>>): seq<T> {
    if xss == [] then [] else xss[0] + Flatten(xss[1..])
  }

  lemma {:induction false} FlattenAppend<T>(a: seq<seq<T>>, b: seq<seq<T>>)
    ensures Flatten(a + b) == Flatten(a) + Flatten(b)
  {
    if a == [] {
      assert a + b == b;
    } else {
      assert (a + b)[1..] == a[1..] + b;
      FlattenAppend(a[1..], b);
    }
  }

  lemma TakeOut<T>(s: seq<T>, i: nat)
    requires i < |s|
    ensures multiset(s) == multiset{s[i]} + multiset(s[..i] + s[i + 1..])
  {
    assert s == s[..i] + [s[i]] + s[i + 1..];
  }

  function Map<A, B>(f: A -> B, xs: seq<A>): seq<B> {
    if xs == [] then [] else [f(xs[0])] + Map(f, xs[1..])
  }

  method MapEach<A, B>(f: A -> B, xs: seq<A>) returns (out: seq<B>)
    ensures out == Map(f, xs)
  {
    out := [];
    var todo := xs;
    while |todo| > 0
      invariant out + Map(f, todo) == Map(f, xs)
    {
      Shift(out, Map(f, todo));
      out := out + [f(todo[0])];
      todo := todo[1..];
    }
  }

  lemma {:induction false} MapAt<A, B>(f: A -> B, xs: seq<A>)
    ensures |Map(f, xs)| == |xs|
    ensures forall i :: 0 <= i < |xs| ==> Map(f, xs)[i] == f(xs[i])
  {
    if xs != [] {
      MapAt(f, xs[1..]);
    }
  }

  lemma {:induction false} MapAppend<A, B>(f: A -> B, a: seq<A>, b: seq<A>)
    ensures Map(f, a + b) == Map(f, a) + Map(f, b)
  {
    if a == [] {
      assert a + b == b;
    } else {
      assert (a + b)[1..] == a[1..] + b;
      MapAppend(f, a[1..], b);
    }
  }

  lemma {:induction false} MapTakeOut<A, B>(f: A -> B, s: seq<A>, i: nat)
    requires i < |s|
    ensures multiset(Map(f, s)) == multiset{f(s[i])} + multiset(Map(f, s[..i] + s[i + 1..]))
  {
    var rest := s[..i] + s[i + 1..];
    if i == 0 {
      assert rest == s[1..];
    } else {
      MapTakeOut(f, s[1..], i - 1);
      assert s[1..][..i - 1] + s[1..][i..] == rest[1..];
    }
  }

  /** The head of a list stands somewhere in any permutation of it, and the rests permute each other. */
  lemma FindHead<T>(xs: seq<T>, ys: seq<T>) returns (i: nat)
    requires xs != [] && multiset(xs) == multiset(ys)
    ensures i < |ys| && ys[i] == xs[0] && multiset(xs[1..]) == multiset(ys[..i] + ys[i + 1..])
  {
    assert xs[0] in multiset(xs);
    i :| 0 <= i < |ys| && ys[i] == xs[0];
    TakeOut(xs, 0);
    TakeOut(ys, i);
    assert xs[..0] + xs[1..] == xs[1..];
    assert multiset(ys[..i] + ys[i + 1..]) == multiset(ys) - multiset{ys[i]};
    assert multiset(xs[1..]) == multiset(xs) - multiset{xs[0]};
  }

  lemma {:induction false} MapPermutes<A, B>(f: A -> B, xs: seq<A>, ys: seq<A>)
    requires multiset(xs) == multiset(ys)
    ensures multiset(Map(f, xs)) == multiset(Map(f, ys))
  {
    if xs == [] {
      assert |multiset(ys)| == |ys|;
    } else {
      var i := FindHead(xs, ys);
      MapPermutes(f, xs[1..], ys[..i] + ys[i + 1..]);
      MapTakeOut(f, ys, i);
    }
  }

  function Sum(xs: seq<nat>): nat {
    if xs == [] then 0 else xs[0] + Sum(xs[1..])
  }

  lemma {:induction false} SumTakeOut(xs: seq<nat>, i: nat)
    requires i < |xs|
    ensures Sum(xs) == xs[i] + Sum(xs[..i] + xs[i + 1..])
  {
    var rest := xs[..i] + xs[i + 1..];
    if i == 0 {
      assert rest == xs[1..];
    } else {
      SumTakeOut(xs[1..], i - 1);
      assert xs[1..][..i - 1] + xs[1..][i..] == rest[1..];
    }
  }

  lemma {:induction false} SumPermutes(xs: seq<nat>, ys: seq<nat>)
    requires multiset(xs) == multiset(ys)
    ensures Sum(xs) == Sum(ys)
  {
    if xs == [] {
      assert |multiset(ys)| == |ys|;
    } else {
      var i := FindHead(xs, ys);
      SumPermutes(xs[1..], ys[..i] + ys[i + 1..]);
      SumTakeOut(ys, i);
    }
  }

  lemma {:induction false} RanksFall<T>(f: T -> T, rank: T -> nat, xs: seq<T>)
    requires forall x :: x in xs ==> f(x) == x || rank(f(x)) < rank(x)
    ensures Sum(Map(rank, Map(f, xs))) <= Sum(Map(rank, xs))
    ensures Sum(Map(rank, Map(f, xs))) == Sum(Map(rank, xs)) ==> Map(f, xs) == xs
  {
    if xs != [] {
      assert xs[0] in xs && forall x :: x in xs[1..] ==> x in xs;
      RanksFall(f, rank, xs[1..]);
      assert Map(f, xs)[1..] == Map(f, xs[1..]) && Map(rank, Map(f, xs))[1..] == Map(rank, Map(f, xs[1..]));
      assert Map(rank, xs)[1..] == Map(rank, xs[1..]);
    }
  }

  /** A map that only permutes a list, and lowers the rank of whatever it changes, changes nothing. */
  lemma PermutedIsFixed<T>(f: T -> T, rank: T -> nat, xs: seq<T>)
    requires multiset(Map(f, xs)) == multiset(xs)
    requires forall x :: x in xs ==> f(x) == x || rank(f(x)) < rank(x)
    ensures Map(f, xs) == xs
  {
    MapPermutes(rank, Map(f, xs), xs);
    SumPermutes(Map(rank, Map(f, xs)), Map(rank, xs));
    RanksFall(f, rank, xs);
  }

  /** The members whose flag is set, in order. */
  function Selected<T>(xs: seq<T>, keep: seq<bool>): seq<T>
    requires |keep| == |xs|
  {
    if xs == [] then [] else (if keep[0] then [xs[0]] else []) + Selected(xs[1..], keep[1..])
  }

  function Count(flags: seq<bool>): nat {
    if flags == [] then 0 else (if flags[0] then 1 else 0) + Count(flags[1..])
  }

  /** A selection holds the members with a flag and no others: each stands behind those selected in front of it. */
  lemma {:induction false} SelectedExactly<T>(xs: seq<T>, keep: seq<bool>)
    requires |keep| == |xs|
    ensures |Selected(xs, keep)| == Count(keep)
    ensures forall i :: 0 <= i < |xs| && keep[i] ==>
      Count(keep[..i]) < |Selected(xs, keep)| && Selected(xs, keep)[Count(keep[..i])] == xs[i]
  {
    if xs != [] {
      SelectedExactly(xs[1..], keep[1..]);
      var rest := Selected(xs[1..], keep[1..]);
      forall i | 0 <= i < |xs| && keep[i]
        ensures Count(keep[..i]) < |Selected(xs, keep)| && Selected(xs, keep)[Count(keep[..i])] == xs[i]
      {
        if i > 0 {
          assert keep[..i][1..] == keep[1..][..i - 1] && keep[..i][0] == keep[0];
          assert keep[1..][i - 1] && rest[Count(keep[1..][..i - 1])] == xs[i];
        }
      }
    }
  }
}
