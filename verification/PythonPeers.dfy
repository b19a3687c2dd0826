/** The registry that ties Python objects to HL allocations: what a Python collection snapshots
    from the HL heap, what it lets go of, and what it takes back afterwards. */
module PythonPeers {
  import opened HeapGraph
  import opened ForeignRoots
  import opened PeerGraph

  /** A strong reference keeps its object alive. */
  ghost predicate StrongIsAlive(peers: seq<Peer>) {
    forall i :: 0 <= i < |peers| && peers[i].strong ==> peers[i].alive
  }

  /** Outside a Python collection the registry holds every object it knows. */
  ghost predicate AllHeld(peers: seq<Peer>) {
    forall i :: 0 <= i < |peers| && !peers[i].dead && peers[i].alive ==> peers[i].strong
  }

  /** What `release_peers` leaves of a list of peers. */
  function Released(peers: seq<Peer>, unretained: bool): seq<Peer> {
    if peers == [] then []
    else if peers[0].dead then Released(peers[1..], unretained)
    else [Trim(peers[0], unretained)] + Released(peers[1..], unretained)
  }

  function Trim(p: Peer, unretained: bool): Peer {
    if unretained && !p.nativeLive then p.(strong := false) else p
  }

  lemma {:induction false} ReleasedAppend(peers: seq<Peer>, p: Peer, unretained: bool)
    ensures Released(peers + [p], unretained) == Released(peers, unretained) + (if p.dead then [] else [Trim(p, unretained)])
  {
    if peers == [] {
      assert [p][1..] == [];
    } else {
      assert (peers + [p])[1..] == peers[1..] + [p];
      ReleasedAppend(peers[1..], p, unretained);
    }
  }

  /** The released list holds exactly the peers that are not dead, each as trimmed. */
  lemma {:induction false} ReleasedMembers(peers: seq<Peer>, unretained: bool)
    ensures forall i :: 0 <= i < |peers| && !peers[i].dead ==> Trim(peers[i], unretained) in Released(peers, unretained)
    ensures forall q :: q in Released(peers, unretained) ==>
              exists i :: 0 <= i < |peers| && !peers[i].dead && q == Trim(peers[i], unretained)
  {
    if peers != [] {
      ReleasedMembers(peers[1..], unretained);
      forall i | 0 <= i < |peers| && !peers[i].dead ensures Trim(peers[i], unretained) in Released(peers, unretained) {
        if i > 0 { assert peers[i] == peers[1..][i - 1]; }
      }
      forall q | q in Released(peers, unretained)
        ensures exists i :: 0 <= i < |peers| && !peers[i].dead && q == Trim(peers[i], unretained)
      {
        if q in Released(peers[1..], unretained) {
          var i :| 0 <= i < |peers[1..]| && !peers[1..][i].dead && q == Trim(peers[1..][i], unretained);
          assert peers[i + 1] == peers[1..][i];
        }
      }
    }
  }

  /** After the release of what is not natively live, an exact snapshot stays exact and the strong
      references are exactly those of the natively reachable peers. */
  lemma ReleaseSettles(g: Graph, peers: seq<Peer>, roots: seq<PyRoot>, native: set<int>)
    requires g.Valid() && RootsOk(g, roots) && EdgesExact(g, peers, roots)
    requires StrongIsAlive(peers) && AllHeld(peers)
    requires forall i :: 0 <= i < |peers| && !peers[i].dead ==> (peers[i].nativeLive <==> g.Reach(native, peers[i].block))
    ensures Settled(g, Released(peers, true), roots, native)
  {
    var after := Released(peers, true);
    ReleasedMembers(peers, true);
    forall p | 0 <= p < |after|
      ensures after[p].strong <==> !after[p].dead && after[p].alive && g.Reach(native, after[p].block)
    {
      assert after[p] in after;
    }
    forall r | 0 <= r < |roots| ensures EdgeListExact(g, after, roots[r]) {
      assert EdgeListExact(g, peers, roots[r]);
      ReleaseKeepsEdgeList(g, peers, roots[r]);
    }
  }

  lemma ReleaseKeepsEdgeList(g: Graph, peers: seq<Peer>, root: PyRoot)
    requires g.Valid() && EdgeListExact(g, peers, root)
    ensures EdgeListExact(g, Released(peers, true), root)
  {
    var after := Released(peers, true);
    ReleasedMembers(peers, true);
    forall o: nat ensures o in root.edges <==>
      exists p :: 0 <= p < |after| && !after[p].dead && after[p].alive && after[p].obj == o && g.Reach({root.word.interior}, after[p].block)
    {
      if o in root.edges {
        var i :| 0 <= i < |peers| && !peers[i].dead && peers[i].alive && peers[i].obj == o && g.Reach({root.word.interior}, peers[i].block);
        assert Trim(peers[i], true) in after;
        var p :| 0 <= p < |after| && after[p] == Trim(peers[i], true);
        assert g.Reach({root.word.interior}, after[p].block);
      }
      if p :| 0 <= p < |after| && !after[p].dead && after[p].alive && after[p].obj == o && g.Reach({root.word.interior}, after[p].block) {
        assert after[p] in after;
        var i :| 0 <= i < |peers| && !peers[i].dead && after[p] == Trim(peers[i], true);
        assert g.Reach({root.word.interior}, peers[i].block);
      }
    }
  }

  /** What one collection reports to the peers: native liveness before the foreign roots are marked,
      and death of those whose finalizer ran. */
  ghost predicate Observed(g: Graph, was: seq<Peer>, now: seq<Peer>, native: set<int>, all: set<int>)
    requires g.Valid()
  {
    |now| == |was| && forall i :: 0 <= i < |was| ==>
      && now[i] == was[i].(nativeLive := now[i].nativeLive, dead := now[i].dead)
      && (now[i].nativeLive <==> !was[i].dead && g.Reach(native, was[i].block))
      && (now[i].dead <==> was[i].dead || !g.Reach(all, was[i].finBlock))
  }

  /** A peer reported dead had become unreachable from every root. */
  lemma DeathIsReal(g: Graph, was: seq<Peer>, now: seq<Peer>, native: set<int>, all: set<int>, i: nat)
    requires g.Valid() && PeersOk(g, was) && Observed(g, was, now, native, all)
    requires i < |was| && !was[i].dead && now[i].dead
    ensures !g.Reach(all, was[i].block)
  {
    if g.Reach(all, was[i].block) && was[i].finBlock != was[i].block {
      ReachStep(g, all, was[i].block, was[i].finBlock);
    }
  }

  /** The peers a snapshot records for one handle, given what its trace reported. */
  ghost predicate SegmentExact(peers: seq<Peer>, segment: seq<nat>, report: seq<nat>) {
    && (forall k :: k in segment ==> k < |peers| && !peers[k].dead && peers[k].block >= 0 && peers[k].block in report)
    && (forall k: nat :: k < |peers| && !peers[k].dead && peers[k].block >= 0 && peers[k].block in report ==> k in segment)
  }

  /** `RootSnapshot`: where a handle's entries lie in the snapshot buffer. */
  datatype Segment = Segment(offset: nat, count: nat)

  class Registry {
    /** `python_peers` and `python_roots` in insertion order. */
    var peers: seq<Peer>
    var roots: seq<PyRoot>
    var collecting: bool

    /** `observe_native` */
    method ObserveNative(nativeLive: seq<bool>)
      requires forall i :: 0 <= i < |peers| && !peers[i].dead ==> 0 <= peers[i].block < |nativeLive|
      modifies this`peers
      ensures |peers| == |old(peers)|
      ensures forall i :: 0 <= i < |peers| ==>
                peers[i] == old(peers)[i].(nativeLive := !old(peers)[i].dead && nativeLive[old(peers)[i].block])
    {
      var i := 0;
      while i < |peers|
        invariant 0 <= i <= |peers| == |old(peers)|
        invariant forall j :: i <= j < |peers| ==> peers[j] == old(peers)[j]
        invariant forall j :: 0 <= j < i ==>
                    peers[j] == old(peers)[j].(nativeLive := !old(peers)[j].dead && nativeLive[old(peers)[j].block])
      {
        var p := peers[i];
        peers := peers[i := p.(nativeLive := !p.dead && nativeLive[p.block])];
        i := i + 1;
      }
    }

    /** `HASH_FIND_PTR` in the snapshot's index of peers by allocation. */
    method FindPeer(ptr: nat) returns (k: int)
      ensures k == -1 || (0 <= k < |peers| && peers[k].block == ptr)
      ensures k == -1 ==> forall j :: 0 <= j < |peers| ==> peers[j].block != ptr
    {
      k := 0;
      while k < |peers|
        invariant 0 <= k <= |peers|
        invariant forall j :: 0 <= j < k ==> peers[j].block != ptr
      {
        if peers[k].block == ptr { return; }
        k := k + 1;
      }
      k := -1;
    }

    /** `trace_foreign` over the report of one root: appends the live peers among the reported
        allocations to the shared snapshot buffer. */
    method TraceForeign(snapshot: seq<nat>, report: seq<nat>) returns (grown: seq<nat>)
      requires forall i, j :: 0 <= i < j < |peers| ==> peers[i].block != peers[j].block
      ensures |snapshot| <= |grown| && snapshot == grown[..|snapshot|]
      ensures SegmentExact(peers, grown[|snapshot|..], report)
    {
      grown := snapshot;
      var i := 0;
      while i < |report|
        invariant 0 <= i <= |report|
        invariant |snapshot| <= |grown| && snapshot == grown[..|snapshot|]
        invariant SegmentExact(peers, grown[|snapshot|..], report[..i])
      {
        assert report[..i + 1] == report[..i] + [report[i]];
        var k := FindPeer(report[i]);
        if k >= 0 && !peers[k].dead {
          assert (grown + [k])[|snapshot|..] == grown[|snapshot|..] + [k];
          grown := grown + [k];
        }
        i := i + 1;
      }
      assert report[..|report|] == report;
    }

    /** The tracing part of a collection: one segment of the snapshot buffer for each handle. */
    method Snapshot(reports: seq<seq<nat>>, first: nat) returns (snapshot: seq<nat>, segments: seq<Segment>)
      requires first + |roots| <= |reports|
      requires forall i, j :: 0 <= i < j < |peers| ==> peers[i].block != peers[j].block
      ensures |segments| == |roots| && SegmentsExact(peers, snapshot, segments, reports, first)
    {
      snapshot := [];
      segments := [];
      while |segments| < |roots|
        invariant |segments| <= |roots|
        invariant SegmentsExact(peers, snapshot, segments, reports, first)
      {
        var grown := TraceForeign(snapshot, reports[first + |segments|]);
        var segment := Segment(|snapshot|, |grown| - |snapshot|);
        SegmentsGrow(peers, snapshot, grown, segments, segment, reports, first);
        snapshot := grown;
        segments := segments + [segment];
      }
    }

    /** The sweep's finalizer calls as the peers see them: `peer_finalize` and `callback_finalize`. */
    method Finalize(marks: seq<bool>)
      requires forall i :: 0 <= i < |peers| && !peers[i].dead ==> 0 <= peers[i].finBlock < |marks|
      modifies this`peers
      ensures |peers| == |old(peers)|
      ensures forall i :: 0 <= i < |peers| ==>
                peers[i] == old(peers)[i].(dead := old(peers)[i].dead || !marks[old(peers)[i].finBlock])
    {
      var i := 0;
      while i < |peers|
        invariant 0 <= i <= |peers| == |old(peers)|
        invariant forall j :: i <= j < |peers| ==> peers[j] == old(peers)[j]
        invariant forall j :: 0 <= j < i ==>
                    peers[j] == old(peers)[j].(dead := old(peers)[j].dead || !marks[old(peers)[j].finBlock])
      {
        var p := peers[i];
        peers := peers[i := p.(dead := p.dead || !marks[p.finBlock])];
        i := i + 1;
      }
    }

    /** The edge list of one handle from its segment of the snapshot. */
    method EdgeList(segment: seq<nat>) returns (edges: seq<nat>)
      requires forall j :: 0 <= j < |segment| ==> segment[j] < |peers|
      ensures forall o: nat :: o in edges <==> exists k :: k in segment && Yields(peers, k, o)
    {
      edges := [];
      var j := 0;
      while j < |segment|
        invariant 0 <= j <= |segment|
        invariant forall o: nat :: o in edges <==> exists k :: k in segment[..j] && Yields(peers, k, o)
      {
        var p := peers[segment[j]];
        ghost var before := edges;
        if !p.dead && p.alive { edges := edges + [p.obj]; }
        EdgeAppended(peers, segment, j, before, edges);
        j := j + 1;
      }
      assert segment[..|segment|] == segment;
    }

    /** `release_peers` */
    method ReleasePeers(unretained: bool)
      modifies this`peers
      ensures peers == Released(old(peers), unretained)
    {
      var all := peers;
      var i := 0;
      var left: seq<Peer> := [];
      while i < |all|
        invariant 0 <= i <= |all| && left == Released(all[..i], unretained)
      {
        ReleasedAppend(all[..i], all[i], unretained);
        assert all[..i + 1] == all[..i] + [all[i]];
        var p := all[i];
        if !p.dead {
          if unretained && !p.nativeLive { p := p.(strong := false); }
          left := left + [p];
        }
        i := i + 1;
      }
      assert all[..|all|] == all;
      peers := left;
    }

    /** The HL collection inside a refresh, up to the sweep: native liveness is noted in the peers and
        the traces are recorded in the snapshot buffer. */
    method CollectAndTrace(g: Graph, nativeSlots: seq<RootSlot>, stacks: seq<Word>, marks: array<bool>)
      returns (snapshot: seq<nat>, segments: seq<Segment>, ghost reports: seq<seq<nat>>, ghost live: seq<bool>)
      requires g.Valid() && marks.Length == g.Size() && PeersOk(g, peers) && RootsOk(g, roots)
      requires SlotsOk(g, nativeSlots) && WordsOk(g, stacks) && (forall i :: 0 <= i < |nativeSlots| ==> !nativeSlots[i].deferred)
      modifies this`peers, marks
      ensures Exactly(g, live, NativeRoots(nativeSlots, stacks))
      ensures Exactly(g, marks[..], NativeRoots(nativeSlots, stacks) + HandleRoots(roots))
      ensures |live| == |marks[..]| == g.Size() && |peers| == |old(peers)|
      ensures forall i :: 0 <= i < |old(peers)| && !old(peers)[i].dead ==> 0 <= old(peers)[i].block < |live| && 0 <= old(peers)[i].finBlock < |live|
      ensures forall i :: 0 <= i < |peers| ==>
                peers[i] == old(peers)[i].(nativeLive := !old(peers)[i].dead && live[old(peers)[i].block])
      ensures |segments| == |roots|
      ensures if |peers| == 0 then forall r :: 0 <= r < |segments| ==> segments[r] == Segment(0, 0)
              else ReportsPerSlot(g, AllSlots(nativeSlots, roots), reports) &&
                   SegmentsExact(peers, snapshot, segments, reports, |nativeSlots|)
    {
      hide *;
      ghost var was := peers;
      var slots := AllSlots(nativeSlots, roots);
      AllSlotsRoots(g, nativeSlots, roots, stacks);
      var nativeLive, traced := GcMark(g, slots, stacks, marks, |peers| != 0);
      live, reports := nativeLive, traced;
      PeerBlocksInside(g, peers);
      ExactSize(g, live, NativeRoots(nativeSlots, stacks));
      ObserveNative(nativeLive);
      SameBlocks(was, peers);
      snapshot, segments := [], seq(|roots|, _ => Segment(0, 0));
      if |peers| != 0 {
        ReportsLength(g, slots, reports, nativeSlots, roots);
        snapshot, segments := Snapshot(traced, |nativeSlots|);
      }
    }

    /** `refresh_foreign_edges`: runs a full HL collection with the foreign hooks in place and turns
        what it traced into the edge lists. */
    method Refresh(g: Graph, nativeSlots: seq<RootSlot>, stacks: seq<Word>, marks: array<bool>)
      requires g.Valid() && marks.Length == g.Size() && PeersOk(g, peers) && RootsOk(g, roots)
      requires SlotsOk(g, nativeSlots) && WordsOk(g, stacks) && (forall i :: 0 <= i < |nativeSlots| ==> !nativeSlots[i].deferred)
      modifies this`peers, this`roots, marks
      ensures Observed(g, old(peers), peers, NativeRoots(nativeSlots, stacks), NativeRoots(nativeSlots, stacks) + HandleRoots(roots))
      ensures SameHandles(old(roots), roots) && EdgesExact(g, peers, roots)
    {
      hide *;
      ghost var was, handles := peers, roots;
      ghost var native := NativeRoots(nativeSlots, stacks);
      var snapshot, segments, reports, live := CollectAndTrace(g, nativeSlots, stacks, marks);
      ghost var observed := peers;
      Finalize(marks[..]);
      ObservedSoFar(g, was, observed, peers, live, marks[..], native, native + HandleRoots(roots));
      MakeLists(g, was, observed, nativeSlots, stacks, reports, snapshot, segments);
      SameHandleRoots(handles, roots);
    }

    /** The second half of a refresh: the lists are made first, then handed to the handles. */
    method MakeLists(g: Graph, ghost was: seq<Peer>, ghost observed: seq<Peer>, ghost nativeSlots: seq<RootSlot>, ghost stacks: seq<Word>,
                     ghost reports: seq<seq<nat>>, snapshot: seq<nat>, segments: seq<Segment>)
      requires g.Valid() && |segments| == |roots| && PeersOk(g, was) && RootsOk(g, roots)
      requires Observed(g, was, peers, NativeRoots(nativeSlots, stacks), NativeRoots(nativeSlots, stacks) + HandleRoots(roots))
      requires |observed| == |was| && forall i :: 0 <= i < |was| ==> observed[i].dead == was[i].dead && observed[i].block == was[i].block
      requires if |was| == 0 then forall r :: 0 <= r < |segments| ==> segments[r] == Segment(0, 0)
               else ReportsPerSlot(g, AllSlots(nativeSlots, roots), reports) &&
                    SegmentsExact(observed, snapshot, segments, reports, |nativeSlots|)
      modifies this`roots
      ensures SameHandles(old(roots), roots) && EdgesExact(g, peers, roots)
    {
      hide NativeRoots, HandleRoots, PeersOk, Observed, ReportsPerSlot, SegmentExact, EdgeListExact, AllSlots;
      ghost var handles := roots;
      ghost var native := NativeRoots(nativeSlots, stacks);
      var newEdges: seq<seq<nat>> := [];
      while |newEdges| < |segments|
        modifies {}
        invariant |newEdges| <= |segments|
        invariant forall r :: 0 <= r < |newEdges| ==> EdgeListExact(g, peers, roots[r].(edges := newEdges[r]))
      {
        var r := |newEdges|;
        var seg := segments[r];
        var slice := if seg.offset + seg.count <= |snapshot| then snapshot[seg.offset..seg.offset + seg.count] else [];
        ObservedLength(g, was, peers, native, native + HandleRoots(roots));
        if |was| == 0 {
          EmptyListExact(g, peers, roots[r]);
          assert slice == [];
        } else {
          HandleReport(g, nativeSlots, roots, reports, r);
          SliceInside(observed, slice, reports[|nativeSlots| + r]) by { assert slice == Slice(snapshot, segments[r]); }
        }
        var edges := EdgeList(slice);
        assert edges != [] ==> edges[0] in edges;
        if |was| != 0 {
          ListIsExact(g, was, observed, peers, native, native + HandleRoots(roots), slice, reports[|nativeSlots| + r], roots[r], edges);
        }
        newEdges := newEdges + [edges];
      }
      var i := 0;
      while i < |roots|
        invariant 0 <= i <= |roots| == |handles|
        invariant forall r :: 0 <= r < i ==> roots[r] == handles[r].(edges := newEdges[r])
        invariant forall r :: i <= r < |roots| ==> roots[r] == handles[r]
      {
        roots := roots[i := roots[i].(edges := newEdges[i])];
        i := i + 1;
      }
    }

    /** The "start" phase of a Python collection. */
    method GcStart(g: Graph, nativeSlots: seq<RootSlot>, stacks: seq<Word>, marks: array<bool>)
      requires g.Valid() && marks.Length == g.Size() && PeersOk(g, peers) && RootsOk(g, roots)
      requires SlotsOk(g, nativeSlots) && WordsOk(g, stacks) && (forall i :: 0 <= i < |nativeSlots| ==> !nativeSlots[i].deferred)
      requires StrongIsAlive(peers) && (!collecting ==> AllHeld(peers))
      modifies this, marks
      ensures collecting && SameHandles(old(roots), roots)
      ensures !old(collecting) ==> Settled(g, peers, roots, NativeRoots(nativeSlots, stacks))
      ensures !old(collecting) ==> Departed(g, old(peers), peers, NativeRoots(nativeSlots, stacks) + HandleRoots(roots))
      ensures !old(collecting) ==>
                exists observed :: peers == Released(observed, true) &&
                  Observed(g, old(peers), observed, NativeRoots(nativeSlots, stacks), NativeRoots(nativeSlots, stacks) + HandleRoots(roots))
      ensures old(collecting) ==> peers == old(peers) && roots == old(roots)
    {
      if !collecting {
        collecting := true;
        ghost var was := peers;
        Refresh(g, nativeSlots, stacks, marks);
        SettleAfterObserved(g, was, peers, roots, NativeRoots(nativeSlots, stacks), NativeRoots(nativeSlots, stacks) + HandleRoots(roots));
        ghost var observed := peers;
        ReleasePeers(true);
        assert peers == Released(observed, true);
      }
    }

    /** `hlmod_python_retain` */
    method Retain()
      requires StrongIsAlive(peers)
      modifies this`peers
      ensures StrongIsAlive(peers)
      ensures collecting ==> peers == old(peers)
      ensures !collecting ==> AllHeld(peers) && peers == Retaken(Released(old(peers), false))
    {
      if collecting { return; }
      ghost var was := peers;
      ReleasePeers(false);
      ReleasedMembers(was, false);
      ghost var kept := peers;
      forall k | 0 <= k < |kept| ensures kept[k].strong ==> kept[k].alive { assert kept[k] in kept; }
      var i := 0;
      while i < |peers|
        invariant 0 <= i <= |peers| == |kept|
        invariant forall j :: i <= j < |peers| ==> peers[j] == kept[j]
        invariant forall j :: 0 <= j < i ==> peers[j] == kept[j].(strong := kept[j].strong || kept[j].alive)
      {
        var p := peers[i];
        if !p.strong { peers := peers[i := p.(strong := p.alive)]; }
        i := i + 1;
      }
      assert peers == Retaken(kept);
    }

    /** The "stop" phase of a Python collection: every object still alive is held again. */
    method GcStop()
      requires StrongIsAlive(peers)
      modifies this
      ensures !collecting && StrongIsAlive(peers) && AllHeld(peers) && roots == old(roots)
      ensures peers == Retaken(Released(old(peers), false))
    {
      collecting := false;
      Retain();
    }

    /** A new instance or callback is registered with its object held. */
    method Bind(block: int, finBlock: int, obj: nat)
      requires StrongIsAlive(peers)
      modifies this`peers
      ensures peers == old(peers) + [Peer(block, finBlock, obj, true, true, false, false)]
      ensures StrongIsAlive(peers) && (AllHeld(old(peers)) ==> AllHeld(peers))
    {
      peers := peers + [Peer(block, finBlock, obj, true, true, false, false)];
    }
  }

  // ---- lemmas about a refresh

  /** `gc_roots` as the collection meets it: the native slots, and one deferred slot for each handle. */
  function AllSlots(nativeSlots: seq<RootSlot>, roots: seq<PyRoot>): seq<RootSlot> {
    nativeSlots + seq(|roots|, i requires 0 <= i < |roots| => RootSlot(true, roots[i].word))
  }

  ghost function HandleRoots(roots: seq<PyRoot>): set<int> {
    set i | 0 <= i < |roots| && roots[i].word.id >= 0 :: roots[i].word.id
  }

  ghost predicate SameHandles(was: seq<PyRoot>, now: seq<PyRoot>) {
    |now| == |was| && forall i :: 0 <= i < |was| ==> now[i] == was[i].(edges := now[i].edges)
  }

  function Retaken(peers: seq<Peer>): seq<Peer> {
    seq(|peers|, i requires 0 <= i < |peers| => peers[i].(strong := peers[i].strong || peers[i].alive))
  }

  /** Whatever left the registry had become unreachable from every root of the HL heap. */
  ghost predicate Departed(g: Graph, was: seq<Peer>, now: seq<Peer>, all: set<int>)
    requires g.Valid()
  {
    forall i :: 0 <= i < |was| && !was[i].dead && g.Reach(all, was[i].block) ==>
      exists k :: 0 <= k < |now| && now[k].block == was[i].block && now[k].obj == was[i].obj && now[k].alive == was[i].alive && !now[k].dead
  }

  lemma AllSlotsRoots(g: Graph, nativeSlots: seq<RootSlot>, roots: seq<PyRoot>, stacks: seq<Word>)
    requires SlotsOk(g, nativeSlots) && RootsOk(g, roots) && forall i :: 0 <= i < |nativeSlots| ==> !nativeSlots[i].deferred
    ensures SlotsOk(g, AllSlots(nativeSlots, roots))
    ensures NativeRoots(AllSlots(nativeSlots, roots), stacks) == NativeRoots(nativeSlots, stacks)
    ensures SlotRoots(AllSlots(nativeSlots, roots), true) == HandleRoots(roots)
  {
    var slots := AllSlots(nativeSlots, roots);
    forall x ensures x in SlotRoots(slots, false) <==> x in SlotRoots(nativeSlots, false) {
      if x in SlotRoots(nativeSlots, false) {
        var i :| 0 <= i < |nativeSlots| && nativeSlots[i].deferred == false && nativeSlots[i].word.id >= 0 && nativeSlots[i].word.id == x;
        assert slots[i] == nativeSlots[i];
      }
    }
    forall x ensures x in SlotRoots(slots, true) <==> x in HandleRoots(roots) {
      if x in HandleRoots(roots) {
        var i :| 0 <= i < |roots| && roots[i].word.id >= 0 && roots[i].word.id == x;
        assert slots[|nativeSlots| + i] == RootSlot(true, roots[i].word);
      }
    }
  }

  lemma SameHandleRoots(was: seq<PyRoot>, now: seq<PyRoot>)
    requires SameHandles(was, now)
    ensures HandleRoots(now) == HandleRoots(was)
  {
    assert forall i :: 0 <= i < |was| ==> now[i].word == was[i].word;
    forall x ensures x in HandleRoots(now) <==> x in HandleRoots(was) {
      if x in HandleRoots(was) {
        var i :| 0 <= i < |was| && was[i].word.id >= 0 && was[i].word.id == x;
        assert now[i].word.id == x;
      }
    }
  }

  lemma PeerBlocksInside(g: Graph, peers: seq<Peer>)
    requires g.Valid() && PeersOk(g, peers)
    ensures forall i :: 0 <= i < |peers| && !peers[i].dead ==> 0 <= peers[i].block < g.Size() && 0 <= peers[i].finBlock < g.Size()
    ensures forall i, j :: 0 <= i < j < |peers| ==> peers[i].block != peers[j].block
  {
  }

  lemma ExactSize(g: Graph, m: seq<bool>, roots: set<int>)
    requires g.Valid() && Exactly(g, m, roots)
    ensures |m| == g.Size()
  {
  }

  lemma SameBlocks(was: seq<Peer>, now: seq<Peer>)
    requires |now| == |was| && forall i :: 0 <= i < |was| ==> now[i] == was[i].(nativeLive := now[i].nativeLive)
    requires forall i, j :: 0 <= i < j < |was| ==> was[i].block != was[j].block
    ensures forall i, j :: 0 <= i < j < |now| ==> now[i].block != now[j].block
  {
  }

  lemma ReportsLength(g: Graph, slots: seq<RootSlot>, reports: seq<seq<nat>>, nativeSlots: seq<RootSlot>, roots: seq<PyRoot>)
    requires g.Valid() && ReportsPerSlot(g, slots, reports) && slots == AllSlots(nativeSlots, roots)
    ensures |reports| == |nativeSlots| + |roots|
  {
  }

  lemma ObservedSoFar(g: Graph, was: seq<Peer>, observed: seq<Peer>, now: seq<Peer>, live: seq<bool>, marks: seq<bool>, native: set<int>, all: set<int>)
    requires g.Valid() && PeersOk(g, was) && Exactly(g, live, native) && Exactly(g, marks, all)
    requires |observed| == |was| == |now|
    requires forall i :: 0 <= i < |was| && !was[i].dead ==> 0 <= was[i].block < |live| && 0 <= was[i].finBlock < |marks|
    requires forall i :: 0 <= i < |was| ==> observed[i] == was[i].(nativeLive := !was[i].dead && live[was[i].block])
    requires forall i :: 0 <= i < |was| ==> now[i] == observed[i].(dead := observed[i].dead || !marks[observed[i].finBlock])
    ensures Observed(g, was, now, native, all)
  {
  }

  lemma HandleReport(g: Graph, nativeSlots: seq<RootSlot>, roots: seq<PyRoot>, reports: seq<seq<nat>>, r: nat)
    requires g.Valid() && r < |roots| && ReportsPerSlot(g, AllSlots(nativeSlots, roots), reports)
    ensures |nativeSlots| + r < |reports|
    ensures forall b: nat :: b in reports[|nativeSlots| + r] <==> g.Reach({roots[r].word.interior}, b)
  {
    var slot := AllSlots(nativeSlots, roots)[|nativeSlots| + r];
    assert slot == RootSlot(true, roots[r].word);
    var w := roots[r].word;
    if w.interior >= 0 {
      assert [w][0].interior == w.interior;
      assert InteriorRoots([w]) == {w.interior};
    } else {
      assert InteriorRoots([w]) == {};
      forall b | g.Reach({w.interior}, b) ensures false { ReachIsBlockRoot(g, w.interior, b); }
    }
  }

  lemma ObservedLength(g: Graph, was: seq<Peer>, now: seq<Peer>, native: set<int>, all: set<int>)
    requires g.Valid() && Observed(g, was, now, native, all)
    ensures |now| == |was|
  {
  }

  lemma EmptyListExact(g: Graph, peers: seq<Peer>, root: PyRoot)
    requires g.Valid() && |peers| == 0
    ensures EdgeListExact(g, peers, root.(edges := []))
  {
  }

  lemma SliceInside(peers: seq<Peer>, slice: seq<nat>, report: seq<nat>)
    requires SegmentExact(peers, slice, report)
    ensures forall j :: 0 <= j < |slice| ==> slice[j] < |peers|
  {
    forall j | 0 <= j < |slice| ensures slice[j] < |peers| { assert slice[j] in slice; }
  }

  /** A list made from an exact segment is exact: of the peers noted during the trace it has those that
      have not died in the same collection, and no other can be reached. */
  lemma ListIsExact(g: Graph, was: seq<Peer>, observed: seq<Peer>, now: seq<Peer>, native: set<int>, all: set<int>,
                    slice: seq<nat>, report: seq<nat>, root: PyRoot, edges: seq<nat>)
    requires g.Valid() && PeersOk(g, was) && Observed(g, was, now, native, all)
    requires |observed| == |was| && forall i :: 0 <= i < |was| ==> observed[i].dead == was[i].dead && observed[i].block == was[i].block
    requires SegmentExact(observed, slice, report)
    requires forall b: nat :: b in report <==> g.Reach({root.word.interior}, b)
    requires forall o: nat :: o in edges <==> exists k :: k in slice && Yields(now, k, o)
    ensures EdgeListExact(g, now, root.(edges := edges))
  {
    forall o: nat ensures o in edges <==>
      exists p :: 0 <= p < |now| && !now[p].dead && now[p].alive && now[p].obj == o && g.Reach({root.word.interior}, now[p].block)
    {
      if o in edges {
        var k :| k in slice && Yields(now, k, o);
        assert g.Reach({root.word.interior}, now[k].block);
      }
      if p :| 0 <= p < |now| && !now[p].dead && now[p].alive && now[p].obj == o && g.Reach({root.word.interior}, now[p].block) {
        assert !was[p].dead && PeerOk(g, was[p]);
        assert p in slice && Yields(now, p, o);
      }
    }
  }

  lemma SettleAfterObserved(g: Graph, was: seq<Peer>, now: seq<Peer>, roots: seq<PyRoot>, native: set<int>, all: set<int>)
    requires g.Valid() && PeersOk(g, was) && RootsOk(g, roots) && EdgesExact(g, now, roots)
    requires StrongIsAlive(was) && AllHeld(was) && Observed(g, was, now, native, all)
    ensures Settled(g, Released(now, true), roots, native)
    ensures Departed(g, was, Released(now, true), all)
  {
    ReleaseSettles(g, now, roots, native);
    ReleasedMembers(now, true);
    forall i | 0 <= i < |was| && !was[i].dead && g.Reach(all, was[i].block)
      ensures exists k :: 0 <= k < |Released(now, true)| && Released(now, true)[k].block == was[i].block &&
                Released(now, true)[k].obj == was[i].obj && Released(now, true)[k].alive == was[i].alive && !Released(now, true)[k].dead
    {
      if now[i].dead { DeathIsReal(g, was, now, native, all, i); }
      var q := Trim(now[i], true);
      assert q in Released(now, true);
      var k :| 0 <= k < |Released(now, true)| && Released(now, true)[k] == q;
    }
  }

  /** What Python's collector does between the two phases: it may drop objects it cannot reach. */
  function Dropped(peers: seq<Peer>, killed: set<nat>): seq<Peer> {
    seq(|peers|, i requires 0 <= i < |peers| => peers[i].(alive := peers[i].alive && peers[i].obj !in killed))
  }

  /** After a "start" phase nothing that either language can still reach is dropped, and the
      registry never holds a dropped object. */
  lemma CollectorSparesReachable(g: Graph, refs: nat -> set<nat>, peers: seq<Peer>, roots: seq<PyRoot>, pyRoots: set<nat>,
                                 native: set<int>, killed: set<nat>)
    requires Settled(g, peers, roots, native)
    requires forall o :: o in killed ==> !ViewReach(refs, peers, roots, pyRoots, o)
    ensures forall o :: o in killed ==> !CombinedReach(g, refs, peers, roots, pyRoots, native, Py(o))
    ensures StrongIsAlive(Dropped(peers, killed))
  {
    forall o | o in killed ensures !CombinedReach(g, refs, peers, roots, pyRoots, native, Py(o)) {
      CollectorSeesCombinedGraph(g, refs, peers, roots, pyRoots, native, o);
    }
    forall i | 0 <= i < |peers| && peers[i].strong ensures peers[i].obj !in killed {
      var o := peers[i].obj;
      assert ViewPath(refs, peers, roots, pyRoots, [o]) && [o][|[o]| - 1] == o;
    }
  }

  // ---- snapshot bookkeeping

  ghost function Slice(snapshot: seq<nat>, segment: Segment): seq<nat> {
    if segment.offset + segment.count <= |snapshot| then snapshot[segment.offset..segment.offset + segment.count] else []
  }

  ghost predicate SegmentsExact(peers: seq<Peer>, snapshot: seq<nat>, segments: seq<Segment>, reports: seq<seq<nat>>, first: nat) {
    first + |segments| <= |reports| &&
    forall r :: 0 <= r < |segments| ==>
      && segments[r].offset + segments[r].count <= |snapshot|
      && SegmentExact(peers, Slice(snapshot, segments[r]), reports[first + r])
  }

  lemma SegmentsGrow(peers: seq<Peer>, snapshot: seq<nat>, grown: seq<nat>, segments: seq<Segment>, segment: Segment,
                     reports: seq<seq<nat>>, first: nat)
    requires SegmentsExact(peers, snapshot, segments, reports, first) && first + |segments| < |reports|
    requires |snapshot| <= |grown| && snapshot == grown[..|snapshot|]
    requires segment == Segment(|snapshot|, |grown| - |snapshot|)
    requires SegmentExact(peers, grown[|snapshot|..], reports[first + |segments|])
    ensures SegmentsExact(peers, grown, segments + [segment], reports, first)
  {
    hide SegmentExact;
    forall r | 0 <= r < |segments| ensures Slice(grown, segments[r]) == Slice(snapshot, segments[r]) {
    }
    assert Slice(grown, segment) == grown[|snapshot|..];
  }

  /** Entry k of the snapshot still yields object o when the lists are made. */
  ghost predicate Yields(peers: seq<Peer>, k: nat, o: nat) {
    k < |peers| && !peers[k].dead && peers[k].alive && peers[k].obj == o
  }

  lemma EdgeAppended(peers: seq<Peer>, segment: seq<nat>, j: nat, before: seq<nat>, after: seq<nat>)
    requires j < |segment| && segment[j] < |peers|
    requires forall o: nat :: o in before <==> exists k :: k in segment[..j] && Yields(peers, k, o)
    requires var p := peers[segment[j]]; after == if !p.dead && p.alive then before + [p.obj] else before
    ensures forall o: nat :: o in after <==> exists k :: k in segment[..j + 1] && Yields(peers, k, o)
  {
    assert segment[..j + 1] == segment[..j] + [segment[j]];
    forall o: nat ensures o in after <==> exists k :: k in segment[..j + 1] && Yields(peers, k, o) {
      if o in before {
        var k :| k in segment[..j] && Yields(peers, k, o);
        assert k in segment[..j + 1];
      } else if o in after {
        assert segment[j] in segment[..j + 1] && Yields(peers, segment[j], o);
      }
    }
  }
}
