/** The registry of peers over any run of registrations, changes of handles and Python collections. */
module PeerCycles {
  import opened HeapGraph
  import opened ForeignRoots
  import opened PeerGraph
  import opened PythonPeers

  /** `kept` holds the blocks of the peers that were reachable, in the graph of both languages, at every
      Python collection since they were registered. */
  datatype State = State(peers: seq<Peer>, roots: seq<PyRoot>, kept: set<int>)

  const EMPTY := State([], [], {})

  /** An instance or callback gets its peer, with its object held. */
  ghost predicate Binds(s: State, s': State, p: Peer) {
    && p.alive && p.strong && !p.dead && (forall i :: 0 <= i < |s.peers| ==> s.peers[i].block != p.block)
    && s' == s.(peers := s.peers + [p], kept := s.kept + {p.block})
  }

  /** Handles come and go. */
  ghost predicate Rehandles(s: State, s': State, roots: seq<PyRoot>) { s' == s.(roots := roots) }

  /** The heaps a Python collection meets: the HL graph with its native roots, Python's references and
      roots, and the objects that Python's collector drops. */
  datatype World = World(g: Graph, native: set<int>, refs: nat -> set<nat>, pyRoots: set<nat>, killed: set<nat>)

  /** The "start" phase, as Registry.GcStart leaves the registry. */
  ghost predicate Starts(s: State, w: World, observed: seq<Peer>, mid: State) {
    && w.g.Valid() && PeersOk(w.g, s.peers) && RootsOk(w.g, s.roots) && AtStarts(s.roots)
    && Observed(w.g, s.peers, observed, w.native, w.native + HandleRoots(s.roots))
    && mid.peers == Released(observed, true) && SameHandles(s.roots, mid.roots)
    && Settled(w.g, mid.peers, mid.roots, w.native)
    && Departed(w.g, s.peers, mid.peers, w.native + HandleRoots(s.roots))
  }

  ghost predicate Reachable(s: State, w: World, n: Node)
    requires w.g.Valid()
  {
    CombinedReach(w.g, w.refs, s.peers, s.roots, w.pyRoots, w.native, n)
  }

  /** A whole Python collection: start, objects dropped that the collector cannot reach, stop. */
  ghost predicate Collects(s: State, s': State, w: World, observed: seq<Peer>, mid: State) {
    && Starts(s, w, observed, mid)
    && (forall o :: o in w.killed ==> !ViewReach(w.refs, mid.peers, mid.roots, w.pyRoots, o))
    && s'.peers == Retaken(Released(Dropped(mid.peers, w.killed), false)) && s'.roots == mid.roots
    && s'.kept == set b | b in s.kept && Reachable(s, w, Hl(b))
  }

  ghost predicate Next(s: State, s': State) {
    || (exists p :: Binds(s, s', p))
    || (exists roots :: Rehandles(s, s', roots))
    || (exists w, observed, mid :: Collects(s, s', w, observed, mid))
  }

  ghost predicate History(run: seq<State>) {
    |run| > 0 && run[0] == EMPTY && forall t :: 0 <= t < |run| - 1 ==> Next(run[t], run[t + 1])
  }

  // ---- handles that point inside a block

  ghost predicate HandleAt(g: Graph, roots: seq<PyRoot>, r: nat, w: Word) {
    g.Valid() && RootsOk(g, roots) && r < |roots| && roots[r].word == w
  }

  /** The HL collection inside a refresh marks everything that the handle leads to. */
  ghost predicate HandleMarks(g: Graph, native: set<int>, roots: seq<PyRoot>, w: Word)
    requires g.Valid()
  {
    forall b :: g.Reach({w.interior}, b) ==> g.Reach(native + HandleRoots(roots), b)
  }

  /** What a handle leads to is marked in every heap exactly when its word is the start of a block, or in
      no block: with a word inside one, the peer there is reported dead although its handle is alive. */
  lemma HandleMarksIff(w: Word)
    requires w.interior >= -1 && (w.id == -1 || w.id == w.interior)
    ensures (forall g: Graph, native: set<int>, roots: seq<PyRoot>, r: nat :: HandleAt(g, roots, r, w) ==> HandleMarks(g, native, roots, w)) <==> w.id == w.interior
  {
    if w.id == w.interior {
      forall g: Graph, native: set<int>, roots: seq<PyRoot>, r: nat | HandleAt(g, roots, r, w) ensures HandleMarks(g, native, roots, w) {
        forall b | g.Reach({w.interior}, b) ensures g.Reach(native + HandleRoots(roots), b) {
          var p :| g.Path(p) && p[0] in {w.interior} && p[|p| - 1] == b;
          assert roots[r].word.id in HandleRoots(roots);
        }
      }
    } else {
      var n := w.interior + 1;
      var g, roots := Graph(seq(n, _ => false), seq(n, _ => [])), [PyRoot(0, w, [])];
      ReachRoot(g, {w.interior}, w.interior);
      assert HandleRoots(roots) == {};
      assert HandleAt(g, roots, 0, w) && !HandleMarks(g, {}, roots, w);
    }
  }

  // ---- what holds between collections

  ghost predicate OneEach(peers: seq<Peer>) {
    forall i, j :: 0 <= i < j < |peers| ==> peers[i].block != peers[j].block
  }

  ghost predicate Held(peers: seq<Peer>, b: int) {
    exists i :: 0 <= i < |peers| && peers[i].block == b && !peers[i].dead && peers[i].alive && peers[i].strong
  }

  ghost predicate Inv(s: State) {
    && StrongIsAlive(s.peers) && AllHeld(s.peers) && OneEach(s.peers)
    && forall b :: b in s.kept ==> Held(s.peers, b)
  }

  lemma {:induction false} ReleasedOneEach(peers: seq<Peer>, unretained: bool)
    requires OneEach(peers)
    ensures OneEach(Released(peers, unretained))
    ensures forall p :: p in Released(peers, unretained) ==> exists i :: 0 <= i < |peers| && peers[i].block == p.block
  {
    if peers != [] {
      var tail := peers[1..];
      ReleasedOneEach(tail, unretained);
      forall p | p in Released(peers, unretained) ensures exists i :: 0 <= i < |peers| && peers[i].block == p.block {
        if p in Released(tail, unretained) {
          var i :| 0 <= i < |tail| && tail[i].block == p.block;
          assert peers[i + 1].block == p.block;
        } else {
          assert p == Trim(peers[0], unretained);
        }
      }
      if !peers[0].dead {
        var rest := Released(tail, unretained);
        forall j | 0 <= j < |rest| ensures rest[j].block != peers[0].block {
          var i :| 0 <= i < |tail| && tail[i].block == rest[j].block;
          assert peers[i + 1] == tail[i];
        }
      }
    }
  }

  /** What both languages reach before a collection they still reach after its start phase, and all of it
      that lies in HashLink is reached from the roots of the HL collection. */
  lemma {:induction false} PathSurvives(s: State, w: World, observed: seq<Peer>, mid: State, path: seq<Node>)
    requires Starts(s, w, observed, mid)
    requires CombinedPath(w.g, w.refs, s.peers, s.roots, w.pyRoots, w.native, path)
    ensures Reachable(mid, w, path[|path| - 1])
    ensures path[|path| - 1].Hl? ==> w.g.Reach(w.native + HandleRoots(s.roots), path[|path| - 1].block)
    decreases |path|
  {
    hide Settled, Observed, PeersOk;
    var all := w.native + HandleRoots(s.roots);
    var n := path[|path| - 1];
    if |path| == 1 {
      assert CombinedPath(w.g, w.refs, mid.peers, mid.roots, w.pyRoots, w.native, path);
      if n.Hl? { ReachRoot(w.g, all, n.block); }
    } else {
      var pre := path[..|path| - 1];
      PathSurvives(s, w, observed, mid, pre);
      assert CombinedEdge(w.g, w.refs, s.peers, s.roots, pre[|pre| - 1], n);
      EdgeSurvives(s, w, observed, mid, pre[|pre| - 1], n);
      CombinedStep(w.g, w.refs, mid.peers, mid.roots, w.pyRoots, w.native, pre[|pre| - 1], n);
    }
  }

  lemma EdgeSurvives(s: State, w: World, observed: seq<Peer>, mid: State, a: Node, n: Node)
    requires Starts(s, w, observed, mid) && CombinedEdge(w.g, w.refs, s.peers, s.roots, a, n)
    requires a.Hl? ==> w.g.Reach(w.native + HandleRoots(s.roots), a.block)
    ensures CombinedEdge(w.g, w.refs, mid.peers, mid.roots, a, n)
    ensures n.Hl? ==> w.g.Reach(w.native + HandleRoots(s.roots), n.block)
  {
    hide Settled, Observed, PeersOk;
    var all := w.native + HandleRoots(s.roots);
    match (a, n) {
      case (Py(o), Py(_)) =>
      case (Py(o), Hl(b)) =>
        var r :| 0 <= r < |s.roots| && s.roots[r].holder == o && s.roots[r].word.interior == b && b >= 0;
        assert mid.roots[r].holder == o && mid.roots[r].word.interior == s.roots[r].word.id == b;
        assert b in HandleRoots(s.roots);
        ReachRoot(w.g, all, b);
      case (Hl(x), Hl(b)) => ReachStep(w.g, all, x, b);
      case (Hl(b), Py(o)) =>
        var p :| 0 <= p < |s.peers| && !s.peers[p].dead && s.peers[p].alive && s.peers[p].block == b && s.peers[p].obj == o;
        var k :| 0 <= k < |mid.peers| && mid.peers[k].block == b && mid.peers[k].obj == o && mid.peers[k].alive && !mid.peers[k].dead;
    }
  }

  /** A peer reachable in the combined graph comes out of the collection alive and held. */
  lemma KeptThrough(s: State, s': State, w: World, observed: seq<Peer>, mid: State, b: int)
    requires Collects(s, s', w, observed, mid) && Held(s.peers, b) && Reachable(s, w, Hl(b))
    ensures Held(s'.peers, b)
  {
    hide Settled, Observed, PeersOk, ViewReach, CombinedReach, StrongIsAlive;
    var i :| 0 <= i < |s.peers| && s.peers[i].block == b && !s.peers[i].dead && s.peers[i].alive && s.peers[i].strong;
    PathOf(s, w, observed, mid, Hl(b));
    var o := s.peers[i].obj;
    var k :| 0 <= k < |mid.peers| && mid.peers[k].block == b && mid.peers[k].obj == o && mid.peers[k].alive && !mid.peers[k].dead;
    assert CombinedEdge(w.g, w.refs, mid.peers, mid.roots, Hl(b), Py(o));
    CombinedStep(w.g, w.refs, mid.peers, mid.roots, w.pyRoots, w.native, Hl(b), Py(o));
    CollectorSparesReachable(w.g, w.refs, mid.peers, mid.roots, w.pyRoots, w.native, w.killed);
    var left := Dropped(mid.peers, w.killed);
    assert left[k].alive && !left[k].dead;
    ReleasedMembers(left, false);
    assert left[k] in Released(left, false);
    var j :| 0 <= j < |Released(left, false)| && Released(left, false)[j] == left[k];
    assert s'.peers[j].block == b;
  }

  lemma PathOf(s: State, w: World, observed: seq<Peer>, mid: State, n: Node)
    requires Starts(s, w, observed, mid) && Reachable(s, w, n)
    ensures Reachable(mid, w, n) && (n.Hl? ==> w.g.Reach(w.native + HandleRoots(s.roots), n.block))
  {
    hide Settled, Observed, PeersOk, Departed;
    var path :| CombinedPath(w.g, w.refs, s.peers, s.roots, w.pyRoots, w.native, path) && path[|path| - 1] == n;
    PathSurvives(s, w, observed, mid, path);
  }

  lemma CollectKeepsHolding(s: State, s': State, w: World, observed: seq<Peer>, mid: State)
    requires OneEach(s.peers) && Collects(s, s', w, observed, mid)
    ensures StrongIsAlive(s'.peers) && AllHeld(s'.peers) && OneEach(s'.peers)
  {
    hide Settled, PeersOk, ViewReach, CombinedReach;
    var left := Dropped(mid.peers, w.killed);
    CollectorSparesReachable(w.g, w.refs, mid.peers, mid.roots, w.pyRoots, w.native, w.killed);
    ReleasedMembers(left, false);
    assert OneEach(observed);
    ReleasedOneEach(observed, true);
    ReleasedOneEach(left, false);
    var kept := Released(left, false);
    forall k | 0 <= k < |kept| ensures kept[k].strong ==> kept[k].alive { assert kept[k] in kept; }
  }

  lemma StepKeepsInv(s: State, s': State)
    requires Inv(s) && Next(s, s')
    ensures Inv(s')
  {
    hide Collects;
    if p :| Binds(s, s', p) {
      BindKeepsInv(s, s', p);
    } else if roots :| Rehandles(s, s', roots) {
    } else {
      var w, observed, mid :| Collects(s, s', w, observed, mid);
      CollectKeepsHolding(s, s', w, observed, mid);
      KeptIs(s, s', w, observed, mid);
      forall b | b in s'.kept ensures Held(s'.peers, b) { KeptThrough(s, s', w, observed, mid, b); }
    }
  }

  lemma KeptIs(s: State, s': State, w: World, observed: seq<Peer>, mid: State)
    requires Collects(s, s', w, observed, mid)
    ensures w.g.Valid() && forall b :: b in s'.kept <==> b in s.kept && Reachable(s, w, Hl(b))
  {
    hide Reachable;
  }

  lemma BindKeepsInv(s: State, s': State, p: Peer)
    requires Inv(s) && Binds(s, s', p)
    ensures Inv(s')
  {
    forall b | b in s'.kept ensures Held(s'.peers, b) {
      if b == p.block {
        assert s'.peers[|s.peers|] == p;
      } else {
        var i :| 0 <= i < |s.peers| && s.peers[i].block == b && !s.peers[i].dead && s.peers[i].alive && s.peers[i].strong;
        assert s'.peers[i] == s.peers[i];
      }
    }
  }

  /** Main result, over every run of registrations and Python collections: a peer that was reachable in the
      graph of both languages at each collection so far is still registered, its object has not been
      dropped, and the registry holds it; the registry never holds a dropped object. */
  lemma {:induction false} ReachablePeersStay(run: seq<State>, t: nat)
    requires History(run) && t < |run|
    ensures Inv(run[t])
    ensures forall b :: b in run[t].kept ==> Held(run[t].peers, b)
    ensures StrongIsAlive(run[t].peers) && AllHeld(run[t].peers)
  {
    hide Next, StrongIsAlive, AllHeld, OneEach, Held;
    if t == 0 {
      EmptyInv();
    } else {
      ReachablePeersStay(run, t - 1);
      StepKeepsInv(run[t - 1], run[t]);
    }
  }

  lemma EmptyInv()
    ensures Inv(EMPTY)
  {
  }
}
