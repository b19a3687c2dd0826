/** The object graph that spans Python and HashLink, and the part of it that Python's collector
    sees: Python references, the edge lists of the HL handles, and the objects the registry
    still holds strongly. */
module PeerGraph {
  import opened HeapGraph
  import opened ForeignRoots

  /** `PythonPeer`: the HL allocation that stands for a Python object. `block` is the native call for
      a callback and the instance otherwise; `finBlock` is the finalizer-kind allocation whose death
      is reported to the peer (the same block for a callback, a block the instance points to
      otherwise). `alive` says that the weak reference still yields the object. */
  datatype Peer = Peer(block: int, finBlock: int, obj: nat, alive: bool, strong: bool, nativeLive: bool, dead: bool)

  /** `PythonRoot`: a handle object that owns an HL root slot, the word in the slot, and the list of
      Python objects reachable through it at the last snapshot. */
  datatype PyRoot = PyRoot(holder: nat, word: Word, edges: seq<nat>)

  datatype Node = Py(obj: nat) | Hl(block: int)

  ghost predicate PeerOk(g: Graph, p: Peer)
    requires g.Valid()
  {
    g.Block(p.block) && g.Block(p.finBlock) && (p.finBlock == p.block || g.Edge(p.block, p.finBlock))
  }

  ghost predicate PeersOk(g: Graph, peers: seq<Peer>)
    requires g.Valid()
  {
    && (forall i :: 0 <= i < |peers| && !peers[i].dead ==> PeerOk(g, peers[i]))
    && (forall i, j :: 0 <= i < j < |peers| ==> peers[i].block != peers[j].block)
  }

  ghost predicate RootsOk(g: Graph, roots: seq<PyRoot>) {
    forall i :: 0 <= i < |roots| ==> WordOk(g, roots[i].word)
  }

  /** The handles hold starts of blocks, so that both lookups agree on each. */
  ghost predicate AtStarts(roots: seq<PyRoot>) {
    forall i :: 0 <= i < |roots| ==> roots[i].word.id == roots[i].word.interior
  }

  // ---- the combined graph

  /** A handle leads to the block its word points into. */
  ghost predicate CombinedEdge(g: Graph, refs: nat -> set<nat>, peers: seq<Peer>, roots: seq<PyRoot>, n: Node, n': Node)
    requires g.Valid()
  {
    match (n, n')
    case (Py(o), Py(o')) => o' in refs(o)
    case (Py(o), Hl(b)) => exists r :: 0 <= r < |roots| && roots[r].holder == o && roots[r].word.interior == b && b >= 0
    case (Hl(a), Hl(b)) => g.Edge(a, b)
    case (Hl(b), Py(o)) => exists p :: 0 <= p < |peers| && !peers[p].dead && peers[p].alive && peers[p].block == b && peers[p].obj == o
  }

  ghost predicate CombinedStart(g: Graph, pyRoots: set<nat>, native: set<int>, n: Node) {
    match n
    case Py(o) => o in pyRoots
    case Hl(b) => b in native && g.Block(b)
  }

  ghost predicate CombinedPath(g: Graph, refs: nat -> set<nat>, peers: seq<Peer>, roots: seq<PyRoot>,
                               pyRoots: set<nat>, native: set<int>, path: seq<Node>)
    requires g.Valid()
  {
    && |path| > 0 && CombinedStart(g, pyRoots, native, path[0])
    && forall i :: 0 <= i < |path| - 1 ==> CombinedEdge(g, refs, peers, roots, path[i], path[i + 1])
  }

  ghost predicate CombinedReach(g: Graph, refs: nat -> set<nat>, peers: seq<Peer>, roots: seq<PyRoot>,
                                pyRoots: set<nat>, native: set<int>, n: Node)
    requires g.Valid()
  {
    exists path :: CombinedPath(g, refs, peers, roots, pyRoots, native, path) && path[|path| - 1] == n
  }

  // ---- what Python's collector sees

  ghost predicate ViewEdge(refs: nat -> set<nat>, roots: seq<PyRoot>, o: nat, o': nat) {
    o' in refs(o) || exists r :: 0 <= r < |roots| && roots[r].holder == o && o' in roots[r].edges
  }

  ghost predicate ViewStart(pyRoots: set<nat>, peers: seq<Peer>, o: nat) {
    o in pyRoots || exists p :: 0 <= p < |peers| && peers[p].strong && peers[p].obj == o
  }

  ghost predicate ViewPath(refs: nat -> set<nat>, peers: seq<Peer>, roots: seq<PyRoot>, pyRoots: set<nat>, path: seq<nat>) {
    && |path| > 0 && ViewStart(pyRoots, peers, path[0])
    && forall i :: 0 <= i < |path| - 1 ==> ViewEdge(refs, roots, path[i], path[i + 1])
  }

  ghost predicate ViewReach(refs: nat -> set<nat>, peers: seq<Peer>, roots: seq<PyRoot>, pyRoots: set<nat>, o: nat) {
    exists path :: ViewPath(refs, peers, roots, pyRoots, path) && path[|path| - 1] == o
  }

  // ---- what a refresh and a release record

  /** The edge list of each handle holds exactly the objects of the live peers its word reaches. */
  ghost predicate EdgesExact(g: Graph, peers: seq<Peer>, roots: seq<PyRoot>)
    requires g.Valid()
  {
    forall r :: 0 <= r < |roots| ==> EdgeListExact(g, peers, roots[r])
  }

  ghost predicate EdgeListExact(g: Graph, peers: seq<Peer>, root: PyRoot)
    requires g.Valid()
  {
    forall o: nat :: o in root.edges <==>
      exists p :: 0 <= p < |peers| && !peers[p].dead && peers[p].alive && peers[p].obj == o && g.Reach({root.word.interior}, peers[p].block)
  }

  /** The registry holds strongly exactly the objects of the live peers that native roots reach. */
  ghost predicate StrongExact(g: Graph, peers: seq<Peer>, native: set<int>)
    requires g.Valid()
  {
    forall p :: 0 <= p < |peers| ==>
      (peers[p].strong <==> !peers[p].dead && peers[p].alive && g.Reach(native, peers[p].block))
  }

  // ---- the theorem

  lemma CombinedStep(g: Graph, refs: nat -> set<nat>, peers: seq<Peer>, roots: seq<PyRoot>,
                     pyRoots: set<nat>, native: set<int>, n: Node, n': Node)
    requires g.Valid() && CombinedReach(g, refs, peers, roots, pyRoots, native, n)
    requires CombinedEdge(g, refs, peers, roots, n, n')
    ensures CombinedReach(g, refs, peers, roots, pyRoots, native, n')
  {
    var path :| CombinedPath(g, refs, peers, roots, pyRoots, native, path) && path[|path| - 1] == n;
    var longer := path + [n'];
    hide CombinedEdge, CombinedStart;
    forall i | 0 <= i < |longer| - 1 ensures CombinedEdge(g, refs, peers, roots, longer[i], longer[i + 1]) {
      if i < |path| - 1 { assert longer[i] == path[i] && longer[i + 1] == path[i + 1]; }
    }
    assert CombinedPath(g, refs, peers, roots, pyRoots, native, longer) && longer[|longer| - 1] == n';
  }

  /** Inside HashLink the combined graph follows the heap graph. */
  lemma CombinedThroughHeap(g: Graph, refs: nat -> set<nat>, peers: seq<Peer>, roots: seq<PyRoot>,
                            pyRoots: set<nat>, native: set<int>, a: int, b: int)
    requires g.Valid() && CombinedReach(g, refs, peers, roots, pyRoots, native, Hl(a)) && g.Reach({a}, b)
    ensures CombinedReach(g, refs, peers, roots, pyRoots, native, Hl(b))
  {
    hide CombinedReach;
    var s := iset x: int | CombinedReach(g, refs, peers, roots, pyRoots, native, Hl(x));
    forall x, y | x in s && g.Edge(x, y) ensures y in s {
      CombinedStep(g, refs, peers, roots, pyRoots, native, Hl(x), Hl(y));
    }
    ReachLeast(g, {a}, s, b);
  }

  lemma NativeIsCombined(g: Graph, refs: nat -> set<nat>, peers: seq<Peer>, roots: seq<PyRoot>,
                         pyRoots: set<nat>, native: set<int>, b: int)
    requires g.Valid() && g.Reach(native, b)
    ensures CombinedReach(g, refs, peers, roots, pyRoots, native, Hl(b))
  {
    var p :| g.Path(p) && p[0] in native && p[|p| - 1] == b;
    assert CombinedPath(g, refs, peers, roots, pyRoots, native, [Hl(p[0])]);
    assert [Hl(p[0])][|[Hl(p[0])]| - 1] == Hl(p[0]);
    assert g.Reach({p[0]}, b);
    CombinedThroughHeap(g, refs, peers, roots, pyRoots, native, p[0], b);
  }

  lemma ViewStep(refs: nat -> set<nat>, peers: seq<Peer>, roots: seq<PyRoot>, pyRoots: set<nat>, o: nat, o': nat)
    requires ViewReach(refs, peers, roots, pyRoots, o) && ViewEdge(refs, roots, o, o')
    ensures ViewReach(refs, peers, roots, pyRoots, o')
  {
    var path :| ViewPath(refs, peers, roots, pyRoots, path) && path[|path| - 1] == o;
    var longer := path + [o'];
    hide ViewEdge, ViewStart;
    forall i | 0 <= i < |longer| - 1 ensures ViewEdge(refs, roots, longer[i], longer[i + 1]) {
      if i < |path| - 1 { assert longer[i] == path[i] && longer[i + 1] == path[i + 1]; }
    }
    assert ViewPath(refs, peers, roots, pyRoots, longer) && longer[|longer| - 1] == o';
  }

  ghost predicate Settled(g: Graph, peers: seq<Peer>, roots: seq<PyRoot>, native: set<int>) {
    && g.Valid() && RootsOk(g, roots) && EdgesExact(g, peers, roots) && StrongExact(g, peers, native)
  }

  /** Everything Python's collector can see is reachable in the combined graph. */
  lemma {:induction false} ViewIsCombined(g: Graph, refs: nat -> set<nat>, peers: seq<Peer>, roots: seq<PyRoot>,
                                          pyRoots: set<nat>, native: set<int>, path: seq<nat>)
    requires Settled(g, peers, roots, native) && ViewPath(refs, peers, roots, pyRoots, path)
    ensures CombinedReach(g, refs, peers, roots, pyRoots, native, Py(path[|path| - 1]))
    decreases |path|
  {
    var o := path[|path| - 1];
    if |path| == 1 {
      if o in pyRoots {
        assert CombinedPath(g, refs, peers, roots, pyRoots, native, [Py(o)]);
        assert [Py(o)][|[Py(o)]| - 1] == Py(o);
      } else {
        var p :| 0 <= p < |peers| && peers[p].strong && peers[p].obj == o;
        NativeIsCombined(g, refs, peers, roots, pyRoots, native, peers[p].block);
        CombinedStep(g, refs, peers, roots, pyRoots, native, Hl(peers[p].block), Py(o));
      }
    } else {
      var before := path[..|path| - 1];
      forall i | 0 <= i < |before| - 1 ensures ViewEdge(refs, roots, before[i], before[i + 1]) {
        assert ViewEdge(refs, roots, path[i], path[i + 1]);
      }
      var h := before[|before| - 1];
      ViewIsCombined(g, refs, peers, roots, pyRoots, native, before);
      assert ViewEdge(refs, roots, path[|path| - 2], path[|path| - 2 + 1]);
      if o in refs(h) {
        CombinedStep(g, refs, peers, roots, pyRoots, native, Py(h), Py(o));
      } else {
        var r :| 0 <= r < |roots| && roots[r].holder == h && o in roots[r].edges;
        ThroughHandle(g, refs, peers, roots, pyRoots, native, r, o);
      }
    }
  }

  /** An entry of a handle's edge list stands for a way through the heap. */
  lemma ThroughHandle(g: Graph, refs: nat -> set<nat>, peers: seq<Peer>, roots: seq<PyRoot>,
                      pyRoots: set<nat>, native: set<int>, r: nat, o: nat)
    requires Settled(g, peers, roots, native) && r < |roots| && o in roots[r].edges
    requires CombinedReach(g, refs, peers, roots, pyRoots, native, Py(roots[r].holder))
    ensures CombinedReach(g, refs, peers, roots, pyRoots, native, Py(o))
  {
    hide CombinedReach;
    assert EdgeListExact(g, peers, roots[r]);
    var p :| 0 <= p < |peers| && !peers[p].dead && peers[p].alive && peers[p].obj == o && g.Reach({roots[r].word.interior}, peers[p].block);
    ReachIsBlockRoot(g, roots[r].word.interior, peers[p].block);
    CombinedStep(g, refs, peers, roots, pyRoots, native, Py(roots[r].holder), Hl(roots[r].word.interior));
    CombinedThroughHeap(g, refs, peers, roots, pyRoots, native, roots[r].word.interior, peers[p].block);
    CombinedStep(g, refs, peers, roots, pyRoots, native, Hl(peers[p].block), Py(o));
  }

  /** Where a block reached in the combined graph was entered: from a native root, or from a handle
      that Python's collector can see. */
  ghost predicate Entered(g: Graph, refs: nat -> set<nat>, peers: seq<Peer>, roots: seq<PyRoot>,
                          pyRoots: set<nat>, native: set<int>, b: int)
    requires g.Valid()
  {
    || g.Reach(native, b)
    || exists r :: 0 <= r < |roots| && ViewReach(refs, peers, roots, pyRoots, roots[r].holder) && g.Reach({roots[r].word.interior}, b)
  }

  /** Everything reachable in the combined graph is visible to Python's collector. */
  lemma {:induction false} CombinedIsView(g: Graph, refs: nat -> set<nat>, peers: seq<Peer>, roots: seq<PyRoot>,
                                          pyRoots: set<nat>, native: set<int>, path: seq<Node>)
    requires Settled(g, peers, roots, native) && CombinedPath(g, refs, peers, roots, pyRoots, native, path)
    ensures match path[|path| - 1]
            case Py(o) => ViewReach(refs, peers, roots, pyRoots, o)
            case Hl(b) => Entered(g, refs, peers, roots, pyRoots, native, b)
    decreases |path|
  {
    var n := path[|path| - 1];
    if |path| == 1 {
      match n {
        case Py(o) =>
          assert ViewPath(refs, peers, roots, pyRoots, [o]) && [o][|[o]| - 1] == o;
        case Hl(b) => ReachRoot(g, native, b);
      }
    } else {
      var before := path[..|path| - 1];
      forall i | 0 <= i < |before| - 1 ensures CombinedEdge(g, refs, peers, roots, before[i], before[i + 1]) {
        assert CombinedEdge(g, refs, peers, roots, path[i], path[i + 1]);
      }
      CombinedIsView(g, refs, peers, roots, pyRoots, native, before);
      assert CombinedEdge(g, refs, peers, roots, path[|path| - 2], path[|path| - 2 + 1]);
      match (before[|before| - 1], n) {
        case (Py(o), Py(o')) => ViewStep(refs, peers, roots, pyRoots, o, o');
        case (Py(o), Hl(b)) =>
          var r :| 0 <= r < |roots| && roots[r].holder == o && roots[r].word.interior == b && b >= 0;
          ReachRoot(g, {b}, b);
          assert ViewReach(refs, peers, roots, pyRoots, roots[r].holder) && g.Reach({roots[r].word.interior}, b);
        case (Hl(a), Hl(b)) => EnteredStep(g, refs, peers, roots, pyRoots, native, a, b);
        case (Hl(b), Py(o)) => LeaveHeap(g, refs, peers, roots, pyRoots, native, b, o);
      }
    }
  }

  lemma EnteredStep(g: Graph, refs: nat -> set<nat>, peers: seq<Peer>, roots: seq<PyRoot>,
                    pyRoots: set<nat>, native: set<int>, a: int, b: int)
    requires g.Valid() && Entered(g, refs, peers, roots, pyRoots, native, a) && g.Edge(a, b)
    ensures Entered(g, refs, peers, roots, pyRoots, native, b)
  {
    hide ViewReach;
    if g.Reach(native, a) {
      ReachStep(g, native, a, b);
    } else {
      var r :| 0 <= r < |roots| && ViewReach(refs, peers, roots, pyRoots, roots[r].holder) && g.Reach({roots[r].word.interior}, a);
      ReachStep(g, {roots[r].word.interior}, a, b);
    }
  }

  lemma LeaveHeap(g: Graph, refs: nat -> set<nat>, peers: seq<Peer>, roots: seq<PyRoot>,
                  pyRoots: set<nat>, native: set<int>, b: int, o: nat)
    requires Settled(g, peers, roots, native) && Entered(g, refs, peers, roots, pyRoots, native, b)
    requires CombinedEdge(g, refs, peers, roots, Hl(b), Py(o))
    ensures ViewReach(refs, peers, roots, pyRoots, o)
  {
    var p :| 0 <= p < |peers| && !peers[p].dead && peers[p].alive && peers[p].block == b && peers[p].obj == o;
    if g.Reach(native, b) {
      assert peers[p].strong;
      assert ViewPath(refs, peers, roots, pyRoots, [o]) && [o][|[o]| - 1] == o;
    } else {
      var r :| 0 <= r < |roots| && ViewReach(refs, peers, roots, pyRoots, roots[r].holder) && g.Reach({roots[r].word.interior}, b);
      assert EdgeListExact(g, peers, roots[r]);
      assert o in roots[r].edges;
      ViewStep(refs, peers, roots, pyRoots, roots[r].holder, o);
    }
  }

  /** Main result: what Python's collector reaches through its own references, the edge lists and the
      strong peers is exactly what is reachable in the graph of both languages together. */
  lemma CollectorSeesCombinedGraph(g: Graph, refs: nat -> set<nat>, peers: seq<Peer>, roots: seq<PyRoot>,
                                   pyRoots: set<nat>, native: set<int>, o: nat)
    requires Settled(g, peers, roots, native)
    ensures ViewReach(refs, peers, roots, pyRoots, o) <==> CombinedReach(g, refs, peers, roots, pyRoots, native, Py(o))
  {
    if ViewReach(refs, peers, roots, pyRoots, o) {
      var path :| ViewPath(refs, peers, roots, pyRoots, path) && path[|path| - 1] == o;
      ViewIsCombined(g, refs, peers, roots, pyRoots, native, path);
    }
    if CombinedReach(g, refs, peers, roots, pyRoots, native, Py(o)) {
      var path :| CombinedPath(g, refs, peers, roots, pyRoots, native, path) && path[|path| - 1] == Py(o);
      CombinedIsView(g, refs, peers, roots, pyRoots, native, path);
    }
  }
}
