/** The migration heads of utility_scripts/find_heads.py: the revisions that no other revision
    names as its down revision. A named down revision need not exist. */
module RevisionHeads {

  type Revision = string

  /** Each revision with its down revisions. */
  type Graph = map<Revision, seq<Revision>>

  predicate Child(g: Graph, child: Revision, parent: Revision) {
    child in g && parent in g[child]
  }

  ghost predicate IsHead(g: Graph, r: Revision) {
    r in g && forall c :: !Child(g, c, r)
  }

  lemma {:induction false} Inhabited(revisions: set<Revision>)
    ensures revisions != {} ==> exists r :: r in revisions
  {
    assert (forall r :: r !in revisions) ==> revisions == {};
  }

  method Heads(revisions: Graph) returns (heads: set<Revision>)
    ensures forall r :: r in heads <==> IsHead(revisions, r)
  {
    var parents: set<Revision> := {};
    var todo := revisions.Keys;
    while todo != {}
      invariant todo <= revisions.Keys
      invariant forall p :: p in parents <==> exists r :: r !in todo && Child(revisions, r, p)
      decreases todo
    {
      Inhabited(todo);
      var r :| r in todo;
      ghost var before := parents;
      var down := revisions[r];
      for i := 0 to |down|
        invariant forall p :: p in parents <==> p in before || p in down[..i]
      {
        parents := parents + {down[i]};
      }
      assert down[..|down|] == down;
      assert forall p :: p in parents <==> p in before || Child(revisions, r, p);
      todo := todo - {r};
    }
    heads := revisions.Keys - parents;
  }

  /** A line of descent, from a descendant to an ancestor. */
  ghost predicate Chain(g: Graph, p: seq<Revision>) {
    p != [] && forall i, j :: 0 <= i && j == i + 1 && j < |p| ==> Child(g, p[i], p[j])
  }

  /** No revision is its own proper ancestor. */
  ghost predicate Acyclic(g: Graph) {
    forall p :: Chain(g, p) && |p| >= 2 ==> p[0] != p[|p| - 1]
  }

  /** `r` is an ancestor of `h`, or `h` itself. */
  ghost predicate Descends(g: Graph, h: Revision, r: Revision) {
    exists p :: Chain(g, p) && p[0] == h && p[|p| - 1] == r
  }

  lemma {:induction false} PartOfChain(g: Graph, p: seq<Revision>, i: nat, j: nat)
    requires Chain(g, p) && i <= j < |p|
    ensures var part := p[i..j + 1];
            Chain(g, part) && part[0] == p[i] && part[|part| - 1] == p[j]
  {
    var part := p[i..j + 1];
    forall a, b | 0 <= a && b == a + 1 && b < |part|
      ensures Child(g, part[a], part[b])
    {
      assert Child(g, p[i + a], p[i + b]);
    }
  }

  lemma {:induction false} ChainDistinct(g: Graph, p: seq<Revision>)
    requires Acyclic(g) && Chain(g, p)
    ensures forall i, j :: 0 <= i < j < |p| ==> p[i] != p[j]
  {
    forall i, j | 0 <= i < j < |p|
      ensures p[i] != p[j]
    {
      PartOfChain(g, p, i, j);
    }
  }

  lemma {:induction false} DistinctBound(p: seq<Revision>, s: set<Revision>)
    requires forall i, j :: 0 <= i < j < |p| ==> p[i] != p[j]
    requires forall i :: 0 <= i < |p| ==> p[i] in s
    ensures |p| <= |s|
  {
    if p != [] {
      DistinctBound(p[1..], s - {p[0]});
    }
  }

  /** A line of descent that starts at no head can be extended by a child; it cannot be
      extended forever, since it never repeats a revision. */
  lemma {:induction false} Climb(g: Graph, p: seq<Revision>) returns (h: Revision)
    requires Acyclic(g) && Chain(g, p) && forall i :: 0 <= i < |p| ==> p[i] in g
    ensures IsHead(g, h) && Descends(g, h, p[|p| - 1])
    decreases |g| - |p|
  {
    ChainDistinct(g, p);
    DistinctBound(p, g.Keys);
    if IsHead(g, p[0]) {
      h := p[0];
    } else {
      var c :| Child(g, c, p[0]);
      var longer := [c] + p;
      assert Chain(g, longer);
      ChainDistinct(g, longer);
      DistinctBound(longer, g.Keys);
      h := Climb(g, longer);
    }
  }

  /** MAIN: in an acyclic graph every revision is an ancestor-or-self of some head. */
  lemma {:induction false} HeadsCover(g: Graph, r: Revision)
    requires Acyclic(g) && r in g
    ensures exists h :: IsHead(g, h) && Descends(g, h, r)
  {
    var h := Climb(g, [r]);
  }

  /** So a non-empty acyclic graph has a head, and a single head descends from everything. */
  lemma {:induction false} SingleHead(g: Graph, heads: set<Revision>)
    requires Acyclic(g) && forall r :: r in heads <==> IsHead(g, r)
    ensures heads == {} <==> g == map[]
    ensures forall h, r :: heads == {h} && r in g ==> Descends(g, h, r)
  {
    forall r | r in g
      ensures exists h :: h in heads && Descends(g, h, r)
    {
      HeadsCover(g, r);
    }
    Inhabited(g.Keys);
    Inhabited(heads);
  }

  /** Two revisions that name each other leave no head at all. */
  lemma {:induction false} CycleHasNoHead(a: Revision, b: Revision, r: Revision)
    ensures !IsHead(map[a := [b], b := [a]], r)
  {
    var g := map[a := [b], b := [a]];
    assert Child(g, a, b) || a == b;
    assert Child(g, b, a);
    if a == b {
      assert g[a] == [a];
    }
  }

  lemma {:induction false} LastStep(g: Graph, p: seq<Revision>)
    requires Chain(g, p)
    ensures |p| == 1 || Child(g, p[|p| - 2], p[|p| - 1])
  {
    var i, j := |p| - 2, |p| - 1;
  }

  /** A head has nothing above it: the only revision that descends from it is itself. */
  lemma {:induction false} HeadsAreTops(g: Graph, h: Revision, c: Revision)
    requires IsHead(g, h) && Descends(g, c, h)
    ensures c == h
  {
    var p :| Chain(g, p) && p[0] == c && p[|p| - 1] == h;
    LastStep(g, p);
  }
}
