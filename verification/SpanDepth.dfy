/** The depth of every span in a trace, by a recursion that remembers what it has resolved. */
module SpanDepth {

  datatype Record = Record(spanID: string, parentID: string)

  /** Span id to parent id; the last record with an id wins, a record without an id is left out. */
  function Parents(records: seq<Record>): map<string, string> {
    if records == [] then map[]
    else
      var last := records[|records| - 1];
      var before := Parents(records[..|records| - 1]);
      if last.spanID == "" then before else before[last.spanID := last.parentID]
  }

  function Parent(parents: map<string, string>, id: string): string {
    if id in parents then parents[id] else ""
  }

  /** The naive count: how many parent links lead from `id` to a span without a known parent link. */
  predicate IsDepth(parents: map<string, string>, id: string, n: nat)
    decreases n
  {
    if id == "" || Parent(parents, id) == "" then n == 0
    else n > 0 && IsDepth(parents, Parent(parents, id), n - 1)
  }

  function Ancestor(parents: map<string, string>, id: string, k: nat): string
    decreases k
  {
    if k == 0 || id == "" then id else Ancestor(parents, Parent(parents, id), k - 1)
  }

  /** No span is its own ancestor. */
  ghost predicate Acyclic(parents: map<string, string>) {
    forall id, k: nat :: id != "" && k > 0 ==> Ancestor(parents, id, k) != id
  }

  ghost predicate HasDepth(parents: map<string, string>, id: string) {
    exists n: nat :: IsDepth(parents, id, n)
  }

  ghost predicate ProperAncestor(parents: map<string, string>, id: string, x: string) {
    exists k: nat :: k > 0 && Ancestor(parents, id, k) == x
  }

  lemma {:induction false} DepthIsUnique(parents: map<string, string>, id: string, m: nat, n: nat)
    requires IsDepth(parents, id, m) && IsDepth(parents, id, n)
    ensures m == n
    decreases m
  {
    if m > 0 {
      DepthIsUnique(parents, Parent(parents, id), m - 1, n - 1);
    }
  }

  lemma {:induction false} AncestorStep(parents: map<string, string>, id: string, k: nat)
    ensures Ancestor(parents, id, k + 1) ==
      if Ancestor(parents, id, k) == "" then "" else Parent(parents, Ancestor(parents, id, k))
    decreases k
  {
    if k > 0 && id != "" {
      AncestorStep(parents, Parent(parents, id), k - 1);
    }
  }

  /** Climbing from `id`, with `path` the ids passed so far. */
  lemma Climb(parents: map<string, string>, id: string, path: set<string>) returns (n: nat)
    requires Acyclic(parents) && path <= parents.Keys
    requires forall p :: p in path ==> p != "" && ProperAncestor(parents, p, id)
    ensures IsDepth(parents, id, n)
    decreases |parents.Keys - path|
  {
    if id == "" || Parent(parents, id) == "" {
      return 0;
    }
    forall p | p in path
      ensures p != id
    {
      var k: nat :| k > 0 && Ancestor(parents, p, k) == id;
      assert Ancestor(parents, p, k) != p;
    }
    var up := Parent(parents, id);
    forall p | p in path + {id}
      ensures p != "" && ProperAncestor(parents, p, up)
    {
      if p == id {
        assert Ancestor(parents, id, 1) == Ancestor(parents, up, 0) == up;
      } else {
        var k: nat :| k > 0 && Ancestor(parents, p, k) == id;
        AncestorStep(parents, p, k);
        assert Ancestor(parents, p, k + 1) == up;
      }
    }
    assert parents.Keys - path == (parents.Keys - (path + {id})) + {id};
    n := Climb(parents, up, path + {id});
    n := n + 1;
  }

  lemma {:induction false} DepthBoundsAncestors(parents: map<string, string>, id: string, n: nat, k: nat)
    requires IsDepth(parents, id, n) && id != ""
    ensures k <= n ==> IsDepth(parents, Ancestor(parents, id, k), n - k)
    ensures k > n ==> Ancestor(parents, id, k) == ""
    decreases k
  {
    if k > 0 && n > 0 {
      DepthBoundsAncestors(parents, Parent(parents, id), n - 1, k - 1);
    } else if k > 1 {
      assert Parent(parents, id) == "";
    }
  }

  lemma DepthForbidsCycle(parents: map<string, string>, id: string, k: nat)
    requires id != "" && k > 0 && HasDepth(parents, id)
    ensures Ancestor(parents, id, k) != id
  {
    var n: nat :| IsDepth(parents, id, n);
    DepthBoundsAncestors(parents, id, n, k);
    if k <= n && Ancestor(parents, id, k) == id {
      DepthIsUnique(parents, id, n, n - k);
    }
  }

  /** Every id has a depth exactly when parent links are acyclic. */
  lemma DepthsExistExactly(parents: map<string, string>)
    ensures Acyclic(parents) <==> forall id :: HasDepth(parents, id)
  {
    if Acyclic(parents) {
      forall id
        ensures HasDepth(parents, id)
      {
        var n := Climb(parents, id, {});
      }
    } else {
      var id, k: nat :| id != "" && k > 0 && Ancestor(parents, id, k) == id;
      if HasDepth(parents, id) {
        DepthForbidsCycle(parents, id, k);
      }
    }
  }

  // ----- the index -----

  ghost predicate SelfOrAncestor(parents: map<string, string>, id: string, x: string) {
    x != "" && exists k: nat :: Ancestor(parents, id, k) == x
  }

  /** Right depths, and with a span all of its ancestors. */
  ghost predicate Sound(parents: map<string, string>, depths: map<string, nat>) {
    && (forall id :: id in depths ==> id != "" && IsDepth(parents, id, depths[id]))
    && (forall id :: id in depths && Parent(parents, id) != "" ==> Parent(parents, id) in depths)
  }

  /** The index of a record list: the spans it names and their ancestors, each with its naive depth. */
  ghost predicate IsIndex(parents: map<string, string>, records: seq<Record>, depths: map<string, nat>) {
    Sound(parents, depths) && forall x :: x in depths <==> Named(records, parents, x)
  }

  /** `x` is the id of one of the records or of an ancestor of one. */
  ghost predicate Named(records: seq<Record>, parents: map<string, string>, x: string) {
    exists r :: r in records && SelfOrAncestor(parents, r.spanID, x)
  }

  lemma {:induction false} AncestorsPresent(parents: map<string, string>, depths: map<string, nat>, id: string, k: nat)
    requires Sound(parents, depths) && id in depths
    ensures Ancestor(parents, id, k) != "" ==> Ancestor(parents, id, k) in depths
    decreases k
  {
    if k > 0 && Parent(parents, id) != "" {
      AncestorsPresent(parents, depths, Parent(parents, id), k - 1);
    }
  }

  lemma SelfOrAncestorUnfold(parents: map<string, string>, id: string, x: string)
    requires id != ""
    ensures SelfOrAncestor(parents, id, x) <==> x == id || SelfOrAncestor(parents, Parent(parents, id), x)
  {
    if SelfOrAncestor(parents, id, x) && x != id {
      var k: nat :| Ancestor(parents, id, k) == x;
      assert Ancestor(parents, Parent(parents, id), k - 1) == x;
    }
    if x == id {
      assert Ancestor(parents, id, 0) == x;
    }
    if SelfOrAncestor(parents, Parent(parents, id), x) {
      var k: nat :| Ancestor(parents, Parent(parents, id), k) == x;
      assert Ancestor(parents, id, k + 1) == x;
    }
  }

  class DepthIndex {
    const parents: map<string, string>
    var depths: map<string, nat>

    constructor (parents: map<string, string>)
      ensures this.parents == parents && depths == map[]
    {
      this.parents := parents;
      depths := map[];
    }

    /** The memoised recursion; `n` only measures that it ends. */
    method Resolve(id: string, ghost n: nat) returns (depth: nat)
      requires Sound(parents, depths) && IsDepth(parents, id, n)
      modifies this`depths
      ensures depth == n && Sound(parents, depths)
      ensures forall x :: x in depths <==> x in old(depths) || SelfOrAncestor(parents, id, x)
      ensures forall x :: x in old(depths) ==> depths[x] == old(depths)[x]
      decreases n
    {
      if id == "" {
        return 0;
      }
      if id in depths {
        DepthIsUnique(parents, id, n, depths[id]);
        forall x | SelfOrAncestor(parents, id, x)
          ensures x in depths
        {
          var k: nat :| Ancestor(parents, id, k) == x;
          AncestorsPresent(parents, depths, id, k);
        }
        return depths[id];
      }
      forall x {
        SelfOrAncestorUnfold(parents, id, x);
      }
      if id !in parents || parents[id] == "" {
        depths := depths[id := 0];
        return 0;
      }
      var above := Resolve(parents[id], n - 1);
      assert Ancestor(parents, parents[id], 0) == parents[id];
      assert SelfOrAncestor(parents, parents[id], parents[id]);
      depth := above + 1;
      depths := depths[id := depth];
    }
  }

  method IndexParents(records: seq<Record>) returns (parents: map<string, string>)
    ensures parents == Parents(records)
  {
    parents := map[];
    for i := 0 to |records|
      invariant parents == Parents(records[..i])
    {
      assert records[..i + 1][..i] == records[..i];
      if records[i].spanID != "" {
        parents := parents[records[i].spanID := records[i].parentID];
      }
    }
    assert records[..|records|] == records;
  }

  /** buildDepthIndex. */
  method BuildDepthIndex(records: seq<Record>) returns (depths: map<string, nat>)
    requires Acyclic(Parents(records))
    ensures IsIndex(Parents(records), records, depths)
  {
    var parents := IndexParents(records);
    depths := ResolveAll(parents, records);
  }

  method ResolveAll(parents: map<string, string>, records: seq<Record>) returns (depths: map<string, nat>)
    requires Acyclic(parents)
    ensures IsIndex(parents, records, depths)
  {
    var index := new DepthIndex(parents);
    DepthsExistExactly(parents);
    var done: seq<Record>, todo := [], records;
    while |todo| > 0
      invariant done + todo == records
      invariant Sound(parents, index.depths)
      invariant forall x :: x in index.depths <==> Named(done, parents, x)
    {
      assert HasDepth(parents, todo[0].spanID);
      ghost var n: nat :| IsDepth(parents, todo[0].spanID, n);
      var _ := index.Resolve(todo[0].spanID, n);
      forall x {
        NamedSnoc(done, todo[0], parents, x);
      }
      done, todo := done + [todo[0]], todo[1..];
    }
    depths := index.depths;
    assert done == records;
  }

  lemma NamedSnoc(records: seq<Record>, r: Record, parents: map<string, string>, x: string)
    ensures Named(records + [r], parents, x) <==> Named(records, parents, x) || SelfOrAncestor(parents, r.spanID, x)
  {
    if Named(records, parents, x) {
      var q :| q in records && SelfOrAncestor(parents, q.spanID, x);
      assert q in records + [r];
    }
    assert r in records + [r];
  }

  /** Every span that one list names, the other names too. */
  ghost predicate NamesAll(xs: seq<Record>, ys: seq<Record>) {
    forall r :: r in xs ==> exists q :: q in ys && q.spanID == r.spanID
  }

  lemma NamedByBoth(parents: map<string, string>, xs: seq<Record>, ys: seq<Record>, x: string)
    requires NamesAll(xs, ys) && Named(xs, parents, x)
    ensures Named(ys, parents, x)
  {
    var r :| r in xs && SelfOrAncestor(parents, r.spanID, x);
    var q :| q in ys && q.spanID == r.spanID;
  }

  lemma IndexIncluded(parents: map<string, string>, xs: seq<Record>, ys: seq<Record>, a: map<string, nat>,
                      b: map<string, nat>)
    requires IsIndex(parents, xs, a) && IsIndex(parents, ys, b) && NamesAll(xs, ys)
    ensures Included(a, b)
  {
    forall x | x in a
      ensures x in b && a[x] == b[x]
    {
      NamedByBoth(parents, xs, ys, x);
      DepthIsUnique(parents, x, a[x], b[x]);
    }
  }

  ghost predicate Included(a: map<string, nat>, b: map<string, nat>) {
    forall x :: x in a ==> x in b && a[x] == b[x]
  }

  lemma SameMap(a: map<string, nat>, b: map<string, nat>)
    requires Included(a, b) && Included(b, a)
    ensures a == b
  {}

  /** Whatever order records are resolved in: two lists that name the same spans with the same parents have one
      index. */
  lemma IndexIsUnique(parents: map<string, string>, xs: seq<Record>, ys: seq<Record>, a: map<string, nat>,
                      b: map<string, nat>)
    requires IsIndex(parents, xs, a) && IsIndex(parents, ys, b)
    requires NamesAll(xs, ys) && NamesAll(ys, xs)
    ensures a == b
  {
    IndexIncluded(parents, xs, ys, a, b);
    IndexIncluded(parents, ys, xs, b, a);
    SameMap(a, b);
  }

  /** On duplicate ids the last record wins. */
  lemma {:induction false} LastRecordWins(records: seq<Record>, i: nat)
    requires i < |records| && records[i].spanID != ""
    requires forall j :: i < j < |records| ==> records[j].spanID != records[i].spanID
    ensures records[i].spanID in Parents(records) && Parents(records)[records[i].spanID] == records[i].parentID
  {
    if i < |records| - 1 {
      LastRecordWins(records[..|records| - 1], i);
    }
  }

  lemma {:induction false} ParentsComeFromRecords(records: seq<Record>, id: string)
    requires id in Parents(records)
    ensures id != "" && Record(id, Parents(records)[id]) in records
  {
    var last := records[|records| - 1];
    if last.spanID != id || id == "" {
      ParentsComeFromRecords(records[..|records| - 1], id);
    } else {
      assert last in records;
    }
  }

  ghost predicate DistinctIDs(records: seq<Record>) {
    forall i, j :: 0 <= i < j < |records| && records[i].spanID != "" ==> records[i].spanID != records[j].spanID
  }

  lemma ParentsIncluded(xs: seq<Record>, ys: seq<Record>)
    requires multiset(xs) == multiset(ys) && DistinctIDs(ys)
    ensures forall id :: id in Parents(xs) ==> id in Parents(ys) && Parents(ys)[id] == Parents(xs)[id]
  {
    forall id | id in Parents(xs)
      ensures id in Parents(ys) && Parents(ys)[id] == Parents(xs)[id]
    {
      ParentsComeFromRecords(xs, id);
      assert Record(id, Parents(xs)[id]) in multiset(xs);
      var i :| 0 <= i < |ys| && ys[i] == Record(id, Parents(xs)[id]);
      LastRecordWins(ys, i);
    }
  }

  /** Reordering records with distinct ids changes neither the parent links nor the index. */
  lemma OrderDoesNotMatter(xs: seq<Record>, ys: seq<Record>, a: map<string, nat>, b: map<string, nat>)
    requires multiset(xs) == multiset(ys) && DistinctIDs(xs) && DistinctIDs(ys)
    requires IsIndex(Parents(xs), xs, a) && IsIndex(Parents(ys), ys, b)
    ensures a == b
  {
    ParentsIncluded(xs, ys);
    ParentsIncluded(ys, xs);
    assert Parents(xs) == Parents(ys);
    forall r
      ensures r in xs <==> r in ys
    {
      assert r in xs <==> r in multiset(xs);
      assert r in ys <==> r in multiset(ys);
    }
    IndexIsUnique(Parents(xs), xs, ys, a, b);
  }
}
