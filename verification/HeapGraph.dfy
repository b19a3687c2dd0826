/** The heap as the marker sees it: blocks, whether a block is scanned, and the words a scan of
    it reads, each already resolved to a block or to -1. What a type's mark bits, an untyped
    block or a page without pointers let the scan skip is not among the words. */
module HeapGraph {

  datatype Graph = Graph(scanned: seq<bool>, words: seq<seq<int>>) {
    function Size(): nat { |scanned| }

    ghost predicate Valid() {
      |words| == |scanned| &&
      forall b, i :: 0 <= b < |words| && 0 <= i < |words[b]| ==> -1 <= words[b][i] < |scanned|
    }

    ghost predicate Block(b: int) { 0 <= b < Size() }

    /** Scanning a finds b. */
    ghost predicate Edge(a: int, b: int)
      requires Valid()
    {
      Block(a) && Block(b) && scanned[a] && b in words[a]
    }

    ghost predicate Path(p: seq<int>)
      requires Valid()
    {
      |p| > 0 && (forall i :: 0 <= i < |p| ==> Block(p[i])) &&
      forall i :: 0 <= i < |p| - 1 ==> Edge(p[i], p[i + 1])
    }

    /** b can be reached from one of the roots. */
    ghost predicate Reach(roots: set<int>, b: int)
      requires Valid()
    {
      exists p: seq<int> :: Path(p) && p[0] in roots && p[|p| - 1] == b
    }

    ghost predicate Closed(s: iset<int>)
      requires Valid()
    {
      forall a, b :: a in s && Edge(a, b) ==> b in s
    }
  }

  lemma ReachRoot(g: Graph, roots: set<int>, b: int)
    requires g.Valid() && b in roots && g.Block(b)
    ensures g.Reach(roots, b)
  {
    assert g.Path([b]) && [b][0] in roots;
  }

  lemma ReachStep(g: Graph, roots: set<int>, a: int, b: int)
    requires g.Valid() && g.Reach(roots, a) && g.Edge(a, b)
    ensures g.Reach(roots, b)
  {
    var p :| g.Path(p) && p[0] in roots && p[|p| - 1] == a;
    var q := p + [b];
    assert g.Path(q) && q[0] in roots && q[|q| - 1] == b;
  }

  /** Reachability is the least closed set that contains the roots. */
  lemma {:induction false} ReachLeast(g: Graph, roots: set<int>, s: iset<int>, b: int)
    requires g.Valid() && g.Reach(roots, b) && g.Closed(s)
    requires forall r :: r in roots && g.Block(r) ==> r in s
    ensures b in s
  {
    var p :| g.Path(p) && p[0] in roots && p[|p| - 1] == b;
    PathStaysIn(g, p, s);
  }

  lemma {:induction false} PathStaysIn(g: Graph, p: seq<int>, s: iset<int>)
    requires g.Valid() && g.Path(p) && p[0] in s && g.Closed(s)
    ensures p[|p| - 1] in s
    decreases |p|
  {
    if |p| > 1 {
      var q := p[..|p| - 1];
      PathStaysIn(g, q, s);
      assert g.Edge(q[|q| - 1], p[|p| - 1]);
    }
  }

  /** What several sets of roots reach together is what they reach one by one. */
  lemma ReachUnion(g: Graph, r1: set<int>, r2: set<int>, b: int)
    requires g.Valid()
    ensures g.Reach(r1 + r2, b) <==> g.Reach(r1, b) || g.Reach(r2, b)
  {
    if g.Reach(r1 + r2, b) {
      var p :| g.Path(p) && p[0] in r1 + r2 && p[|p| - 1] == b;
      assert p[0] in r1 || p[0] in r2;
    }
    if g.Reach(r1, b) {
      var p :| g.Path(p) && p[0] in r1 && p[|p| - 1] == b;
      assert p[0] in r1 + r2;
    }
    if g.Reach(r2, b) {
      var p :| g.Path(p) && p[0] in r2 && p[|p| - 1] == b;
      assert p[0] in r1 + r2;
    }
  }

  lemma ReachFromReached(g: Graph, roots: set<int>, a: int, b: int)
    requires g.Valid() && g.Reach(roots, a) && g.Reach({a}, b)
    ensures g.Reach(roots, b)
  {
    var s := iset x | g.Reach(roots, x);
    forall x, y | x in s && g.Edge(x, y) ensures y in s { ReachStep(g, roots, x, y); }
    ReachLeast(g, {a}, s, b);
  }

  lemma ReachIsBlock(g: Graph, roots: set<int>, b: int)
    requires g.Valid() && g.Reach(roots, b)
    ensures g.Block(b)
  {
    var p :| g.Path(p) && p[0] in roots && p[|p| - 1] == b;
  }
}
