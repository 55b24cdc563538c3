/** The line diff of the dashboard: a table of longest common subsequences and a walk through it. */
module LineDiff {
  import opened Seqs

  datatype Op = Eq(text: string) | Add(text: string) | Del(text: string)

  /** The lines an edit script leaves in place or removes: the left text. */
  function Before(ops: seq<Op>): seq<string> {
    if ops == [] then []
    else (if ops[0].Add? then [] else [ops[0].text]) + Before(ops[1..])
  }

  /** The lines an edit script leaves in place or inserts: the right text. */
  function After(ops: seq<Op>): seq<string> {
    if ops == [] then []
    else (if ops[0].Del? then [] else [ops[0].text]) + After(ops[1..])
  }

  function Kept(ops: seq<Op>): seq<string> {
    if ops == [] then []
    else (if ops[0].Eq? then [ops[0].text] else []) + Kept(ops[1..])
  }

  /** `sub` can be read off `whole` by leaving lines out. */
  predicate Subsequence(sub: seq<string>, whole: seq<string>) {
    sub == []
    || (whole != []
        && ((sub[0] == whole[0] && Subsequence(sub[1..], whole[1..]))
            || Subsequence(sub, whole[1..])))
  }

  function Max(x: nat, y: nat): nat {
    if x < y then y else x
  }

  /** The recurrence the table stores: cell (i, j) is about the suffixes a[i..] and b[j..]. */
  function Lcs(a: seq<string>, b: seq<string>, i: nat, j: nat): nat
    requires i <= |a| && j <= |b|
    decreases |a| - i + |b| - j
  {
    if i == |a| || j == |b| then 0
    else if a[i] == b[j] then Lcs(a, b, i + 1, j + 1) + 1
    else Max(Lcs(a, b, i + 1, j), Lcs(a, b, i, j + 1))
  }

  /** The walk through the table from cell (i, j). */
  function Script(a: seq<string>, b: seq<string>, i: nat, j: nat): seq<Op>
    requires i <= |a| && j <= |b|
    decreases |a| - i + |b| - j
  {
    if i == |a| && j == |b| then []
    else if j == |b| then [Del(a[i])] + Script(a, b, i + 1, j)
    else if i == |a| then [Add(b[j])] + Script(a, b, i, j + 1)
    else if a[i] == b[j] then [Eq(a[i])] + Script(a, b, i + 1, j + 1)
    else if Lcs(a, b, i + 1, j) >= Lcs(a, b, i, j + 1) then [Del(a[i])] + Script(a, b, i + 1, j)
    else [Add(b[j])] + Script(a, b, i, j + 1)
  }

  lemma {:induction false} TailSubsequence(sub: seq<string>, whole: seq<string>)
    requires sub != [] && Subsequence(sub, whole)
    ensures whole != [] && Subsequence(sub[1..], whole) && Subsequence(sub[1..], whole[1..])
  {
    if !(sub[0] == whole[0] && Subsequence(sub[1..], whole[1..])) {
      TailSubsequence(sub, whole[1..]);
    }
  }

  /** No common subsequence is longer than what the recurrence computes. */
  lemma {:induction false} LcsIsUpperBound(sub: seq<string>, a: seq<string>, b: seq<string>, i: nat, j: nat)
    requires i <= |a| && j <= |b|
    requires Subsequence(sub, a[i..]) && Subsequence(sub, b[j..])
    ensures |sub| <= Lcs(a, b, i, j)
    decreases |a| - i + |b| - j
  {
    if sub != [] {
      assert a[i..][1..] == a[i + 1..] && b[j..][1..] == b[j + 1..];
      if a[i] == b[j] {
        TailSubsequence(sub, a[i..]);
        TailSubsequence(sub, b[j..]);
        LcsIsUpperBound(sub[1..], a, b, i + 1, j + 1);
      } else if sub[0] != a[i] {
        LcsIsUpperBound(sub, a, b, i + 1, j);
      } else {
        LcsIsUpperBound(sub, a, b, i, j + 1);
      }
    }
  }

  lemma Heads(op: Op, rest: seq<Op>)
    ensures Before([op] + rest) == (if op.Add? then [] else [op.text]) + Before(rest)
    ensures After([op] + rest) == (if op.Del? then [] else [op.text]) + After(rest)
    ensures Kept([op] + rest) == (if op.Eq? then [op.text] else []) + Kept(rest)
  {
    assert ([op] + rest)[1..] == rest;
  }

  /** One step of the walk: an operation, and the cell it goes on from. */
  lemma ScriptHead(a: seq<string>, b: seq<string>, i: nat, j: nat) returns (op: Op, k: nat, l: nat)
    requires i <= |a| && j <= |b| && (i < |a| || j < |b|)
    ensures k == (if op.Add? then i else i + 1) <= |a| && l == (if op.Del? then j else j + 1) <= |b|
    ensures Script(a, b, i, j) == [op] + Script(a, b, k, l)
    ensures a[i..] == (if op.Add? then [] else [op.text]) + a[k..]
    ensures b[j..] == (if op.Del? then [] else [op.text]) + b[l..]
    ensures Lcs(a, b, i, j) == (if op.Eq? then 1 else 0) + Lcs(a, b, k, l)
  {
    op := Script(a, b, i, j)[0];
    k, l := if op.Add? then i else i + 1, if op.Del? then j else j + 1;
  }

  /** The walk spells both texts and keeps as many lines as the recurrence says. */
  lemma {:induction false} ScriptSpells(a: seq<string>, b: seq<string>, i: nat, j: nat)
    requires i <= |a| && j <= |b|
    ensures Before(Script(a, b, i, j)) == a[i..]
    ensures After(Script(a, b, i, j)) == b[j..]
    ensures |Kept(Script(a, b, i, j))| == Lcs(a, b, i, j)
    decreases |a| - i + |b| - j
  {
    if i < |a| || j < |b| {
      var op, k, l := ScriptHead(a, b, i, j);
      ScriptSpells(a, b, k, l);
      Heads(op, Script(a, b, k, l));
    }
  }

  lemma {:induction false} SkipSubsequence(sub: seq<string>, x: string, whole: seq<string>)
    requires Subsequence(sub, whole)
    ensures Subsequence(sub, [x] + whole)
  {
    assert ([x] + whole)[1..] == whole;
  }

  lemma {:induction false} KeepSubsequence(sub: seq<string>, x: string, whole: seq<string>)
    requires Subsequence(sub, whole)
    ensures Subsequence([x] + sub, [x] + whole)
  {
    assert ([x] + whole)[1..] == whole && ([x] + sub)[1..] == sub;
  }

  /** The kept lines of any script are a common subsequence, and the script's length follows from their number. */
  lemma {:induction false} ScriptFacts(ops: seq<Op>)
    ensures Subsequence(Kept(ops), Before(ops)) && Subsequence(Kept(ops), After(ops))
    ensures |ops| + |Kept(ops)| == |Before(ops)| + |After(ops)|
  {
    if ops != [] {
      var rest := ops[1..];
      ScriptFacts(rest);
      Heads(ops[0], rest);
      assert ops == [ops[0]] + rest;
      match ops[0]
      case Eq(t) =>
        KeepSubsequence(Kept(rest), t, Before(rest));
        KeepSubsequence(Kept(rest), t, After(rest));
      case Add(t) =>
        SkipSubsequence(Kept(rest), t, After(rest));
        assert Before(ops) == Before(rest) && Kept(ops) == Kept(rest);
      case Del(t) =>
        SkipSubsequence(Kept(rest), t, Before(rest));
        assert After(ops) == After(rest) && Kept(ops) == Kept(rest);
    }
  }

  function Added(ops: seq<Op>): nat {
    if ops == [] then 0 else (if ops[0].Add? then 1 else 0) + Added(ops[1..])
  }

  function Deleted(ops: seq<Op>): nat {
    if ops == [] then 0 else (if ops[0].Del? then 1 else 0) + Deleted(ops[1..])
  }

  /** Of any script: what is kept and deleted makes the old text, what is kept and added the new one. */
  lemma {:induction false} ScriptBalances(ops: seq<Op>)
    ensures |Before(ops)| == |Kept(ops)| + Deleted(ops) && |After(ops)| == |Kept(ops)| + Added(ops)
    ensures |Before(ops)| + Added(ops) == |After(ops)| + Deleted(ops)
  {
    if ops != [] {
      ScriptBalances(ops[1..]);
    }
  }

  /** No edit script between the two texts keeps more lines or is shorter than the walk's. */
  lemma ScriptIsShortest(other: seq<Op>)
    ensures |Kept(other)| <= |Kept(Script(Before(other), After(other), 0, 0))|
    ensures |Script(Before(other), After(other), 0, 0)| <= |other|
  {
    var a, b := Before(other), After(other);
    ScriptFacts(other);
    ScriptSpells(a, b, 0, 0);
    ScriptFacts(Script(a, b, 0, 0));
    assert a[0..] == a && b[0..] == b;
    LcsIsUpperBound(Kept(other), a, b, 0, 0);
  }

  /** The kept lines of the walk are a longest common subsequence. */
  lemma KeptIsLongest(a: seq<string>, b: seq<string>)
    ensures var kept := Kept(Script(a, b, 0, 0));
      && Subsequence(kept, a) && Subsequence(kept, b)
      && forall sub :: Subsequence(sub, a) && Subsequence(sub, b) ==> |sub| <= |kept|
  {
    ScriptSpells(a, b, 0, 0);
    ScriptFacts(Script(a, b, 0, 0));
    assert a[0..] == a && b[0..] == b;
    forall sub | Subsequence(sub, a) && Subsequence(sub, b)
      ensures |sub| <= |Kept(Script(a, b, 0, 0))|
    {
      LcsIsUpperBound(sub, a, b, 0, 0);
    }
  }

  // ----- ties -----

  /** One line more in front of either text makes the table's value the same or one more. */
  lemma {:induction false} LcsNeighbours(a: seq<string>, b: seq<string>, i: nat, j: nat)
    requires i <= |a| && j <= |b|
    ensures i < |a| ==> Lcs(a, b, i + 1, j) <= Lcs(a, b, i, j) <= Lcs(a, b, i + 1, j) + 1
    ensures j < |b| ==> Lcs(a, b, i, j + 1) <= Lcs(a, b, i, j) <= Lcs(a, b, i, j + 1) + 1
    decreases |a| - i + |b| - j
  {
    if i < |a| {
      LcsNeighbours(a, b, i + 1, j);
    }
    if j < |b| {
      LcsNeighbours(a, b, i, j + 1);
    }
  }

  /** No addition stands right in front of a deletion. */
  ghost predicate DeletesFirst(ops: seq<Op>) {
    forall k :: 0 < k < |ops| && ops[k].Del? ==> !ops[k - 1].Add?
  }

  lemma DeletesFirstCons(op: Op, rest: seq<Op>)
    requires DeletesFirst(rest) && (op.Add? && rest != [] ==> !rest[0].Del?)
    ensures DeletesFirst([op] + rest)
  {}

  /** Where deletions and additions tie, the deletions come first: no deletion follows an addition directly. */
  lemma {:induction false} DeletionsComeFirst(a: seq<string>, b: seq<string>, i: nat, j: nat)
    requires i <= |a| && j <= |b|
    ensures DeletesFirst(Script(a, b, i, j))
    decreases |a| - i + |b| - j
  {
    var ops := Script(a, b, i, j);
    if ops != [] {
      var k, l := if ops[0].Add? then i else i + 1, if ops[0].Del? then j else j + 1;
      DeletionsComeFirst(a, b, k, l);
      if ops[0].Add? && i < |a| {
        LcsNeighbours(a, b, i + 1, j);
      }
      DeletesFirstCons(ops[0], Script(a, b, k, l));
    }
  }

  const MAX := 1500

  /** One row of the table, filled from the right out of the row below it. */
  method FillRow(dp: array2<nat>, i: nat, a: seq<string>, b: seq<string>)
    requires i < |a| && dp.Length0 == |a| + 1 && dp.Length1 == |b| + 1
    requires forall k, j :: k == i + 1 && 0 <= j <= |b| ==> dp[k, j] == Lcs(a, b, k, j)
    requires dp[i, |b|] == 0
    modifies dp
    ensures forall j :: 0 <= j <= |b| ==> dp[i, j] == Lcs(a, b, i, j)
    ensures forall k, j :: 0 <= k <= |a| && k != i && 0 <= j <= |b| ==> dp[k, j] == old(dp[k, j])
  {
    var j := |b|;
    while j > 0
      invariant 0 <= j <= |b|
      invariant forall l :: j <= l <= |b| ==> dp[i, l] == Lcs(a, b, i, l)
      invariant forall k, l :: 0 <= k <= |a| && k != i && 0 <= l <= |b| ==> dp[k, l] == old(dp[k, l])
    {
      j := j - 1;
      if a[i] == b[j] {
        dp[i, j] := dp[i + 1, j + 1] + 1;
      } else {
        dp[i, j] := Max(dp[i + 1, j], dp[i, j + 1]);
      }
    }
  }

  /** The whole table, from the bottom row up. */
  method FillTable(a: seq<string>, b: seq<string>) returns (dp: array2<nat>)
    ensures fresh(dp) && dp.Length0 == |a| + 1 && dp.Length1 == |b| + 1
    ensures forall i, j :: 0 <= i <= |a| && 0 <= j <= |b| ==> dp[i, j] == Lcs(a, b, i, j)
  {
    dp := new nat[|a| + 1, |b| + 1]((i, j) => 0);
    var i := |a|;
    while i > 0
      invariant 0 <= i <= |a|
      invariant forall k, l :: i <= k <= |a| && 0 <= l <= |b| ==> dp[k, l] == Lcs(a, b, k, l)
      invariant forall k, l :: 0 <= k < i && 0 <= l <= |b| ==> dp[k, l] == 0
    {
      i := i - 1;
      FillRow(dp, i, a, b);
    }
  }

  /** The walk: common lines stay, otherwise the larger neighbouring cell decides. */
  method WalkTable(a: seq<string>, b: seq<string>, dp: array2<nat>) returns (ops: seq<Op>)
    requires dp.Length0 == |a| + 1 && dp.Length1 == |b| + 1
    requires forall i, j :: 0 <= i <= |a| && 0 <= j <= |b| ==> dp[i, j] == Lcs(a, b, i, j)
    ensures ops == Script(a, b, 0, 0)
  {
    ops := [];
    var i, j := 0, 0;
    ghost var rest := Script(a, b, 0, 0);
    while i < |a| && j < |b|
      invariant 0 <= i <= |a| && 0 <= j <= |b|
      invariant rest == Script(a, b, i, j) && ops + rest == Script(a, b, 0, 0)
      decreases |a| - i + |b| - j
    {
      Shift(ops, rest);
      if a[i] == b[j] {
        ops := ops + [Eq(a[i])];
        i, j := i + 1, j + 1;
      } else if dp[i + 1, j] >= dp[i, j + 1] {
        ops := ops + [Del(a[i])];
        i := i + 1;
      } else {
        ops := ops + [Add(b[j])];
        j := j + 1;
      }
      rest := rest[1..];
    }
    while i < |a|
      invariant 0 <= i <= |a| && 0 <= j <= |b| && (i < |a| ==> j == |b|)
      invariant rest == Script(a, b, i, j) && ops + rest == Script(a, b, 0, 0)
    {
      Shift(ops, rest);
      ops := ops + [Del(a[i])];
      i := i + 1;
      rest := rest[1..];
    }
    while j < |b|
      invariant i == |a| && 0 <= j <= |b|
      invariant rest == Script(a, b, i, j) && ops + rest == Script(a, b, 0, 0)
    {
      Shift(ops, rest);
      ops := ops + [Add(b[j])];
      j := j + 1;
      rest := rest[1..];
    }
  }

  /** What diffLines returns: a script, or for texts beyond the size guard an approximation. */
  datatype Diff = Exact(ops: seq<Op>) | Approximate

  /** diffLines: within the size guard, a shortest script from `a` to `b`. */
  method DiffLines(a: seq<string>, b: seq<string>) returns (diff: Diff)
    ensures diff.Approximate? <==> |a| > MAX || |b| > MAX
    ensures diff.Exact? ==> diff.ops == Script(a, b, 0, 0) && Before(diff.ops) == a && After(diff.ops) == b
    ensures diff.Exact? ==> forall other :: Before(other) == a && After(other) == b ==> |diff.ops| <= |other|
  {
    if |a| > MAX || |b| > MAX {
      return Approximate;
    }
    var dp := FillTable(a, b);
    var ops := WalkTable(a, b, dp);
    ScriptSpells(a, b, 0, 0);
    assert a[0..] == a && b[0..] == b;
    forall other | Before(other) == a && After(other) == b
      ensures |ops| <= |other|
    {
      ScriptIsShortest(other);
    }
    diff := Exact(ops);
  }
}
