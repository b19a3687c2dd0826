/** The load order of mods: each enabled mod after everything it depends on, or the reason why there is
    no such order. */
module ModSorter {

  type Id = string

  datatype Mod = Mod(id: Id, name: string, declared: seq<Id>, enabled: bool)

  datatype Entry = Entry(id: Id, name: string, dependencies: seq<Id>)

  datatype Outcome =
    | Duplicate(id: Id, first: string, second: string)
    | Unmet(mod: Id, dependency: Id)
    | Blocked(mods: seq<Id>)
    | Ordered(order: seq<Entry>)

  // ---- lists of mods

  ghost predicate Distinct<T(!new)>(s: seq<T>) { forall i, j :: 0 <= i < j < |s| ==> s[i] != s[j] }

  /** The declared dependencies without repetitions, first occurrences in order. */
  function Unique(ds: seq<Id>): (r: seq<Id>)
    ensures Distinct(r)
    ensures forall d :: d in r <==> d in ds
  {
    if ds == [] then [] else
    var r := Unique(ds[..|ds| - 1]);
    assert ds == ds[..|ds| - 1] + [ds[|ds| - 1]];
    if ds[|ds| - 1] in r then r else r + [ds[|ds| - 1]]
  }

  function Enabled(found: seq<Mod>): (r: seq<Mod>)
    ensures forall m :: m in r <==> m in found && m.enabled
  {
    if found == [] then [] else
    assert found == found[..|found| - 1] + [found[|found| - 1]];
    Enabled(found[..|found| - 1]) + if found[|found| - 1].enabled then [found[|found| - 1]] else []
  }

  function Ids(ms: seq<Mod>): (r: seq<Id>)
    ensures |r| == |ms| && forall i :: 0 <= i < |ms| ==> r[i] == ms[i].id
  {
    seq(|ms|, i requires 0 <= i < |ms| => ms[i].id)
  }

  /** Mods by id, together with the order in which they were entered. */
  ghost predicate Table(ms: seq<Mod>, mods: map<Id, Mod>) {
    && Distinct(Ids(ms))
    && (forall i :: 0 <= i < |ms| ==> ms[i].id in mods && mods[ms[i].id] == ms[i])
    && (forall x :: x in mods ==> mods[x].id == x && mods[x] in ms)
  }

  function Deps(m: Mod): (r: seq<Id>)
    ensures Distinct(r)
  {
    Unique(m.declared)
  }

  ghost predicate AllMet(mods: map<Id, Mod>) {
    forall x, d :: x in mods && d in Deps(mods[x]) ==> d in mods
  }

  // ---- dependency walks

  ghost predicate DependsOn(mods: map<Id, Mod>, x: Id, d: Id) { x in mods && d in Deps(mods[x]) }

  /** Each mod on the walk depends on the next. */
  ghost predicate Walk(mods: map<Id, Mod>, p: seq<Id>) {
    |p| > 0 && p[0] in mods && forall i :: 0 <= i < |p| - 1 ==> DependsOn(mods, p[i], p[i + 1])
  }

  /** Following dependencies from x one can come round in a circle. */
  ghost predicate ReachesCycle(mods: map<Id, Mod>, x: Id) {
    exists p :: Walk(mods, p) && p[0] == x && !Distinct(p)
  }

  /** A list in which everything comes after what it depends on. */
  ghost predicate DepsFirst(mods: map<Id, Mod>, order: seq<Id>) {
    forall i, d :: 0 <= i < |order| && order[i] in mods && d in Deps(mods[order[i]]) ==> d in order[..i]
  }

  /** Walking from a mod in the order means walking towards its start. */
  lemma {:induction false} WalksDown(mods: map<Id, Mod>, order: seq<Id>, p: seq<Id>, at: nat) returns (last: nat)
    requires DepsFirst(mods, order) && Walk(mods, p) && at < |order| && order[at] == p[0] && Distinct(order)
    ensures last <= at && last < |order| && order[last] == p[|p| - 1] && (|p| > 1 ==> last < at)
  {
    last := at;
    if |p| > 1 {
      var q := p[..|p| - 1];
      assert Walk(mods, q) by { assert forall i :: 0 <= i < |q| - 1 ==> DependsOn(mods, p[i], p[i + 1]); }
      var prev := WalksDown(mods, order, q, at);
      assert DependsOn(mods, p[|p| - 2], p[|p| - 1]);
      last :| 0 <= last < prev && order[last] == p[|p| - 1];
    }
  }

  lemma OrderedIsFree(mods: map<Id, Mod>, order: seq<Id>, x: Id)
    requires DepsFirst(mods, order) && Distinct(order) && x in order
    ensures !ReachesCycle(mods, x)
  {
    forall p | Walk(mods, p) && p[0] == x ensures Distinct(p) {
      forall i, j | 0 <= i < j < |p| ensures p[i] != p[j] {
        var at :| 0 <= at < |order| && order[at] == x;
        var a, b := p[..i + 1], p[i..j + 1];
        assert Walk(mods, a) by { assert forall k :: 0 <= k < |a| - 1 ==> DependsOn(mods, p[k], p[k + 1]); }
        var ai := WalksDown(mods, order, a, at);
        assert Walk(mods, b) by {
          assert i > 0 ==> DependsOn(mods, p[i], p[i + 1]);
          forall k | 0 <= k < |b| - 1 ensures DependsOn(mods, b[k], b[k + 1]) {
            assert DependsOn(mods, p[i + k], p[i + k + 1]);
          }
        }
        var bi := WalksDown(mods, order, b, ai);
        assert order[ai] == p[i] && order[bi] == p[j] && bi < ai;
      }
    }
  }

  ghost predicate StuckDep(mods: map<Id, Mod>, stuck: set<Id>, y: Id) {
    y in mods && exists d :: d in stuck && d in Deps(mods[y])
  }

  /** Every member depends on a member. */
  ghost predicate SelfBlocking(mods: map<Id, Mod>, stuck: set<Id>) {
    forall y :: y in stuck ==> StuckDep(mods, stuck, y)
  }

  lemma ExtendWalk(mods: map<Id, Mod>, q: seq<Id>, d: Id)
    requires Walk(mods, q) && DependsOn(mods, q[|q| - 1], d)
    ensures Walk(mods, q + [d])
  {
    var p := q + [d];
    forall i | 0 <= i < |p| - 1 ensures DependsOn(mods, p[i], p[i + 1]) {
      if i < |q| - 1 { assert DependsOn(mods, q[i], q[i + 1]); }
    }
  }

  /** Among mods that each depend on one of themselves there are walks of every length. */
  lemma {:induction false} EndlessWalk(mods: map<Id, Mod>, stuck: set<Id>, x: Id, len: nat) returns (p: seq<Id>)
    requires x in stuck && SelfBlocking(mods, stuck)
    ensures Walk(mods, p) && p[0] == x && |p| == len + 1 && forall y :: y in p ==> y in stuck
  {
    hide Unique;
    if len == 0 {
      p := [x];
      assert StuckDep(mods, stuck, x);
    } else {
      var q := EndlessWalk(mods, stuck, x, len - 1);
      var d := NextStuck(mods, stuck, q[|q| - 1]);
      ExtendWalk(mods, q, d);
      p := q + [d];
    }
  }

  lemma NextStuck(mods: map<Id, Mod>, stuck: set<Id>, y: Id) returns (d: Id)
    requires y in stuck && SelfBlocking(mods, stuck)
    ensures d in stuck && DependsOn(mods, y, d)
  {
    hide Unique;
    assert StuckDep(mods, stuck, y);
    d :| d in stuck && d in Deps(mods[y]);
  }

  lemma {:induction false} DistinctFits(p: seq<Id>, s: set<Id>)
    requires Distinct(p) && forall y :: y in p ==> y in s
    ensures |p| <= |s|
  {
    if p != [] {
      var y, q := p[|p| - 1], p[..|p| - 1];
      assert y in p && forall z :: z in q ==> z in p;
      forall z | z in q ensures z in s - {y} { var i :| 0 <= i < |q| && q[i] == z; }
      DistinctFits(q, s - {y});
    }
  }

  lemma StuckReachesCycle(mods: map<Id, Mod>, stuck: set<Id>, x: Id)
    requires x in stuck && SelfBlocking(mods, stuck)
    ensures ReachesCycle(mods, x)
  {
    hide SelfBlocking, Walk, Distinct;
    var p := EndlessWalk(mods, stuck, x, |stuck|);
    if Distinct(p) { DistinctFits(p, stuck); }
  }

  // ---- which order

  /** Where x stands in s; the length if it does not. */
  function IndexOf(s: seq<Id>, x: Id): (i: nat)
    ensures i <= |s| && (x in s <==> i < |s|) && (i < |s| ==> s[i] == x)
    ensures forall k :: 0 <= k < i ==> s[k] != x
  {
    if s == [] then 0 else
    assert s == s[..|s| - 1] + [s[|s| - 1]];
    var i := IndexOf(s[..|s| - 1], x);
    if i < |s| - 1 || s[|s| - 1] == x then i else |s|
  }

  /** How much of t it takes to have all of ds. */
  function LastOf(ds: seq<Id>, t: seq<Id>): (n: nat)
    ensures forall d :: d in ds ==> IndexOf(t, d) < n
    ensures n > 0 ==> exists d :: d in ds && IndexOf(t, d) + 1 == n
  {
    if ds == [] then 0 else
    assert ds == ds[..|ds| - 1] + [ds[|ds| - 1]];
    var n, d := LastOf(ds[..|ds| - 1], t), ds[|ds| - 1];
    if IndexOf(t, d) < n then n else IndexOf(t, d) + 1
  }

  /** When m can be loaded: behind the last of its dependencies. */
  function Since(mods: map<Id, Mod>, t: seq<Id>, m: Id): nat
    requires m in mods
  {
    LastOf(Deps(mods[m]), t)
  }

  /** What can be loaded earlier comes first; what can be loaded from the same point on comes as found. */
  ghost predicate Precedes(mods: map<Id, Mod>, ids: seq<Id>, t: seq<Id>, a: Id, b: Id)
    requires a in mods && b in mods
  {
    || Since(mods, t, a) < Since(mods, t, b)
    || (Since(mods, t, a) == Since(mods, t, b) && IndexOf(ids, a) < IndexOf(ids, b))
  }

  ghost predicate InTurn(mods: map<Id, Mod>, ids: seq<Id>, t: seq<Id>) {
    && (forall m :: m in t ==> m in mods)
    && forall i, j :: 0 <= i < j < |t| ==> Precedes(mods, ids, t, t[i], t[j])
  }

  /** All that the mods in t depend on is in the order. */
  ghost predicate Settled(mods: map<Id, Mod>, t: seq<Id>, order: seq<Id>) {
    forall m, d :: m in t && m in mods && d in Deps(mods[m]) ==> d in order
  }

  /** The mods that had to wait for all of the first n are in l. */
  ghost predicate Latest(mods: map<Id, Mod>, t: seq<Id>, n: nat, l: seq<Id>) {
    forall m :: m in t && m in mods && Since(mods, t, m) >= n ==> m in l
  }

  ghost predicate AsFound(ids: seq<Id>, l: seq<Id>) {
    forall i, j :: 0 <= i < j < |l| ==> IndexOf(ids, l[i]) < IndexOf(ids, l[j])
  }

  lemma IndexStays(t: seq<Id>, u: seq<Id>, d: Id)
    requires t <= u && d in t
    ensures IndexOf(u, d) == IndexOf(t, d)
  {
    var i, j := IndexOf(t, d), IndexOf(u, d);
    assert u[i] == t[i] == d;
    assert j < |t| ==> t[j] == u[j];
  }

  lemma {:induction false} LastStays(ds: seq<Id>, t: seq<Id>, u: seq<Id>)
    requires t <= u && forall d :: d in ds ==> d in t
    ensures LastOf(ds, u) == LastOf(ds, t) <= |t|
  {
    hide IndexOf;
    if ds != [] {
      LastStays(ds[..|ds| - 1], t, u);
      IndexStays(t, u, ds[|ds| - 1]);
      IndexBound(t, ds[|ds| - 1]);
    }
  }

  lemma IndexBound(t: seq<Id>, d: Id)
    requires d in t
    ensures IndexOf(t, d) < |t|
  {
  }

  /** Appending a mod changes nothing for those whose dependencies are in front. */
  lemma SinceStays(mods: map<Id, Mod>, order: seq<Id>, t: seq<Id>, m: Id, a: Id)
    requires a in mods && order <= t && forall d :: d in Deps(mods[a]) ==> d in order
    ensures Since(mods, t + [m], a) == Since(mods, t, a) <= |order|
  {
    hide Deps, LastOf;
    LastStays(Deps(mods[a]), order, t);
    LastStays(Deps(mods[a]), order, t + [m]);
  }

  /** A mod whose last dependency is the newest in the order can be loaded from there on. */
  lemma SinceNewest(mods: map<Id, Mod>, order: seq<Id>, t: seq<Id>, a: Id)
    requires a in mods && order <= t && order != [] && Distinct(order) && order[|order| - 1] in Deps(mods[a])
    requires forall d :: d in Deps(mods[a]) ==> d in order
    ensures Since(mods, t, a) == |order|
  {
    hide Deps, LastOf;
    var x := order[|order| - 1];
    LastStays(Deps(mods[a]), order, t);
    assert IndexOf(order, x) == |order| - 1;
    LastAtLeast(Deps(mods[a]), order, x);
  }

  lemma LastAtLeast(ds: seq<Id>, t: seq<Id>, d: Id)
    requires d in ds
    ensures LastOf(ds, t) > IndexOf(t, d)
  {
  }

  /** The queue stays in turn when a released mod is put at its end. */
  lemma Queued(mods: map<Id, Mod>, ids: seq<Id>, order: seq<Id>, t: seq<Id>, l: seq<Id>, k: nat)
    requires order <= t && order != [] && Distinct(order) && InTurn(mods, ids, t) && Settled(mods, t, order)
    requires k < |l| && AsFound(ids, l) && Latest(mods, t, |order|, l[..k])
    requires l[k] in mods && order[|order| - 1] in Deps(mods[l[k]]) && forall d :: d in Deps(mods[l[k]]) ==> d in order
    ensures InTurn(mods, ids, t + [l[k]]) && Settled(mods, t + [l[k]], order)
    ensures Latest(mods, t + [l[k]], |order|, l[..k + 1])
  {
    hide Deps, Since, Distinct, IndexOf;
    var m := l[k];
    var u := t + [m];
    assert l[..k + 1] == l[..k] + [m];
    SinceNewest(mods, order, u, m);
    forall a | a in t ensures a in mods && Since(mods, u, a) == Since(mods, t, a) <= |order| {
      SinceStays(mods, order, t, m, a);
    }
    forall i, j | 0 <= i < j < |u| ensures Precedes(mods, ids, u, u[i], u[j]) {
      assert u[i] in t;
      if j < |t| {
        assert u[i] == t[i] && u[j] == t[j] && Precedes(mods, ids, t, t[i], t[j]);
      } else if Since(mods, t, t[i]) >= |order| {
        var q :| 0 <= q < k && l[q] == t[i];
      }
    }
  }

  lemma NotQueued(mods: map<Id, Mod>, t: seq<Id>, n: nat, l: seq<Id>, k: nat)
    requires k < |l| && Latest(mods, t, n, l[..k])
    ensures Latest(mods, t, n, l[..k + 1])
  {
    assert l[..k + 1] == l[..k] + [l[k]];
  }

  /** Before x is taken, nobody has waited for it. */
  lemma NoneYet(mods: map<Id, Mod>, before: seq<Id>, t: seq<Id>)
    requires before <= t && Settled(mods, t, before)
    ensures Latest(mods, t, |before| + 1, [])
  {
    hide Deps, LastOf;
    forall m | m in t && m in mods ensures Since(mods, t, m) <= |before| {
      LastStays(Deps(mods[m]), before, t);
    }
  }

  lemma FirstInTurn(mods: map<Id, Mod>, ids: seq<Id>, ready: seq<Id>)
    requires AsFound(ids, ready) && forall m :: m in ready ==> m in mods && Deps(mods[m]) == []
    ensures InTurn(mods, ids, ready) && Settled(mods, ready, [])
  {
    hide Deps, IndexOf;
  }

  /** There is one order only that lists each mod behind its dependencies and in turn. */
  lemma {:induction false} OneOrder(mods: map<Id, Mod>, ids: seq<Id>, s: seq<Id>, t: seq<Id>, k: nat)
    requires Distinct(s) && Distinct(t) && |s| == |t| && k <= |s| && forall m :: m in s <==> m in t
    requires InTurn(mods, ids, s) && DepsFirst(mods, s) && InTurn(mods, ids, t) && DepsFirst(mods, t)
    ensures s[..k] == t[..k]
  {
    hide InTurn, DepsFirst, Distinct;
    if k > 0 {
      OneOrder(mods, ids, s, t, k - 1);
      NextAgrees(mods, ids, s, t, k - 1);
      assert s[..k] == s[..k - 1] + [s[k - 1]] && t[..k] == t[..k - 1] + [t[k - 1]];
    }
  }

  lemma NextAgrees(mods: map<Id, Mod>, ids: seq<Id>, s: seq<Id>, t: seq<Id>, k: nat)
    requires Distinct(s) && Distinct(t) && |s| == |t| && k < |s| && forall m :: m in s <==> m in t
    requires InTurn(mods, ids, s) && DepsFirst(mods, s) && InTurn(mods, ids, t) && DepsFirst(mods, t)
    requires s[..k] == t[..k]
    ensures s[k] == t[k]
  {
    hide *;
    var x, y := s[k], t[k];
    if x != y {
      MembersAreMods(mods, ids, s);
      SinceAgrees(mods, s, t, k, x);
      SinceAgrees(mods, t, s, k, y);
      Ahead(mods, ids, s, t, k);
      Ahead(mods, ids, t, s, k);
      OneWay(mods, ids, s, t, x, y);
    }
  }

  lemma MembersAreMods(mods: map<Id, Mod>, ids: seq<Id>, s: seq<Id>)
    requires InTurn(mods, ids, s)
    ensures forall m :: m in s ==> m in mods
  {
  }

  lemma Ahead(mods: map<Id, Mod>, ids: seq<Id>, s: seq<Id>, t: seq<Id>, k: nat)
    requires Distinct(t) && |s| == |t| && k < |s| && (forall m :: m in s <==> m in t) && s[..k] == t[..k] && s[k] != t[k]
    requires InTurn(mods, ids, s)
    ensures s[k] in mods && t[k] in mods && Precedes(mods, ids, s, s[k], t[k])
  {
    hide Since, IndexOf, Distinct;
    Later(s, t, k, t[k]);
  }

  lemma OneWay(mods: map<Id, Mod>, ids: seq<Id>, s: seq<Id>, t: seq<Id>, x: Id, y: Id)
    requires x in mods && y in mods && Since(mods, s, x) == Since(mods, t, x) && Since(mods, s, y) == Since(mods, t, y)
    requires Precedes(mods, ids, s, x, y)
    ensures !Precedes(mods, ids, t, y, x)
  {
    hide Since, IndexOf;
  }

  lemma SinceAgrees(mods: map<Id, Mod>, s: seq<Id>, t: seq<Id>, k: nat, x: Id)
    requires k < |s| && k < |t| && s[..k] == t[..k] && s[k] == x && x in mods && DepsFirst(mods, s)
    ensures Since(mods, s, x) == Since(mods, t, x)
  {
    hide Deps, LastOf;
    assert forall d :: d in Deps(mods[x]) ==> d in s[..k];
    LastStays(Deps(mods[x]), s[..k], s);
    LastStays(Deps(mods[x]), t[..k], t);
  }

  /** An element that t has at k and s does not stands further back in s. */
  lemma Later(s: seq<Id>, t: seq<Id>, k: nat, y: Id)
    requires k < |s| && k < |t| && s[..k] == t[..k] && t[k] == y != s[k] && y in s && Distinct(t)
    ensures exists j :: k < j < |s| && s[j] == y
  {
    var j :| 0 <= j < |s| && s[j] == y;
    assert forall q :: 0 <= q < k ==> t[q] == t[..k][q] == s[..k][q];
  }

  /** Repetitions are dropped behind the first occurrence. */
  lemma {:induction false} UniqueAsFound(ds: seq<Id>)
    ensures AsFound(ds, Unique(ds))
  {
    hide IndexOf;
    if ds != [] {
      var q, d := ds[..|ds| - 1], ds[|ds| - 1];
      assert ds == q + [d];
      UniqueAsFound(q);
      forall x | x in q ensures IndexOf(ds, x) == IndexOf(q, x) < |q| {
        IndexStays(q, ds, x);
        IndexBound(q, x);
      }
      if d !in q { assert IndexOf(ds, d) == |q| by { NewestAt(q, d); } }
    }
  }

  lemma NewestAt(q: seq<Id>, d: Id)
    requires d !in q
    ensures IndexOf(q + [d], d) == |q|
  {
    assert (q + [d])[..|q|] == q;
  }

  // ---- collecting

  ghost predicate SameId(on: seq<Mod>, i: nat, j: nat, r: Outcome)
    requires i < j < |on| && r.Duplicate?
  {
    on[i].id == on[j].id == r.id && on[i].name == r.first && on[j].name == r.second && Distinct(Ids(on[..j]))
  }

  /** The first mod whose id an earlier enabled mod already has. */
  ghost predicate FirstDuplicate(on: seq<Mod>, r: Outcome) {
    r.Duplicate? && exists i, j :: 0 <= i < j < |on| && SameId(on, i, j, r)
  }

  method CollectMods(found: seq<Mod>) returns (mods: map<Id, Mod>, ids: seq<Id>, duplicate: seq<Outcome>)
    ensures duplicate == [] ==> Table(Enabled(found), mods) && ids == Ids(Enabled(found))
    ensures duplicate != [] ==> duplicate[0].Duplicate? && FirstDuplicate(Enabled(found), duplicate[0])
  {
    hide Distinct;
    mods, ids, duplicate := map[], [], [];
    EmptyTable();
    for k := 0 to |found|
      invariant duplicate == [] && Table(Enabled(found[..k]), mods) && ids == Ids(Enabled(found[..k]))
    {
      ghost var on := Enabled(found[..k]);
      var item := found[k];
      EnabledNext(found, k);
      if item.enabled {
        if item.id in mods {
          duplicate := [Duplicate(item.id, mods[item.id].name, item.name)];
          FoundSoFar(found, k);
          DuplicateFound(on, item, mods, Enabled(found), duplicate[0]);
          return;
        }
        TableAdd(on, mods, item);
        mods := mods[item.id := item];
        ids := ids + [item.id];
      }
    }
    assert found[..|found|] == found;
  }

  lemma EmptyTable()
    ensures Table([], map[]) && Ids([]) == [] && Enabled([]) == []
  {
  }

  lemma TableAdd(on: seq<Mod>, mods: map<Id, Mod>, item: Mod)
    requires Table(on, mods) && item.id !in mods
    ensures Table(on + [item], mods[item.id := item]) && Ids(on + [item]) == Ids(on) + [item.id]
  {
  }

  lemma {:induction false} EnabledPrefix(found: seq<Mod>, k: nat)
    requires k <= |found|
    ensures Enabled(found[..k]) <= Enabled(found)
  {
    if k < |found| {
      EnabledPrefix(found[..|found| - 1], k);
      assert found[..|found| - 1][..k] == found[..k];
    } else {
      assert found[..k] == found;
    }
  }

  lemma EnabledNext(found: seq<Mod>, k: nat)
    requires k < |found|
    ensures Enabled(found[..k + 1]) == if found[k].enabled then Enabled(found[..k]) + [found[k]] else Enabled(found[..k])
  {
    assert found[..k + 1][..k] == found[..k];
    assert Enabled(found[..k]) + [] == Enabled(found[..k]);
  }

  lemma InTable(on: seq<Mod>, mods: map<Id, Mod>, x: Id)
    requires Table(on, mods) && x in mods
    ensures Distinct(Ids(on)) && mods[x].id == x && mods[x] in on
  {
    hide Distinct;
  }

  lemma FoundSoFar(found: seq<Mod>, k: nat)
    requires k < |found| && found[k].enabled
    ensures Enabled(found[..k]) + [found[k]] <= Enabled(found)
  {
    EnabledNext(found, k);
    EnabledPrefix(found, k + 1);
  }

  lemma DuplicateFound(on: seq<Mod>, item: Mod, mods: map<Id, Mod>, all: seq<Mod>, r: Outcome)
    requires Table(on, mods) && on + [item] <= all
    requires item.id in mods && r == Duplicate(item.id, mods[item.id].name, item.name)
    ensures FirstDuplicate(all, r)
  {
    hide Distinct, Table, Ids, FirstDuplicate;
    InTable(on, mods, item.id);
    ClashAt(on, item, all, mods[item.id], r);
  }

  lemma ClashAt(on: seq<Mod>, item: Mod, all: seq<Mod>, earlier: Mod, r: Outcome)
    requires on + [item] <= all && earlier in on && Distinct(Ids(on))
    requires earlier.id == item.id && r == Duplicate(item.id, earlier.name, item.name)
    ensures FirstDuplicate(all, r)
  {
    hide Distinct, Ids;
    var i :| 0 <= i < |on| && on[i] == earlier;
    assert all[..|on|] == (on + [item])[..|on|] == on;
    assert all[|on|] == (on + [item])[|on|];
    assert SameId(all, i, |on|, r);
  }

  // ---- linking

  /** l lists, once each and as found, the mods among the first i (and the next one, for the dependencies `extra`)
      that depend on d. */
  ghost predicate LinkList(mods: map<Id, Mod>, ids: seq<Id>, i: nat, extra: seq<Id>, d: Id, l: seq<Id>)
    requires i <= |ids|
  {
    && Distinct(l) && AsFound(ids, l)
    && forall m :: m in l <==> (m in ids[..i] && DependsOn(mods, m, d)) || (i < |ids| && m == ids[i] && d in extra)
  }

  ghost predicate Links(mods: map<Id, Mod>, ids: seq<Id>, i: nat, extra: seq<Id>, dependents: map<Id, seq<Id>>)
    requires i <= |ids|
  {
    dependents.Keys == mods.Keys && forall d :: d in mods ==> LinkList(mods, ids, i, extra, d, dependents[d])
  }

  ghost predicate Degrees(mods: map<Id, Mod>, ids: seq<Id>, i: nat, j: nat, indegree: map<Id, int>)
    requires forall x :: x in ids ==> x in mods
  {
    && indegree.Keys == mods.Keys
    && forall k :: 0 <= k < |ids| ==> indegree[ids[k]] == if k < i then |Deps(mods[ids[k]])| else if k == i then j else 0
  }

  /** The first dependency of the first mod that nothing provides. */
  ghost predicate FirstUnmet(mods: map<Id, Mod>, ids: seq<Id>, r: Outcome)
    requires forall x :: x in ids ==> x in mods
  {
    r.Unmet? && exists i, j :: 0 <= i < |ids| && 0 <= j < |Deps(mods[ids[i]])| && UnmetAt(mods, ids, i, j, r)
  }

  ghost predicate UnmetAt(mods: map<Id, Mod>, ids: seq<Id>, i: nat, j: nat, r: Outcome)
    requires r.Unmet? && i < |ids| && (forall x :: x in ids ==> x in mods) && j < |Deps(mods[ids[i]])|
  {
    && r.mod == ids[i] && r.dependency == Deps(mods[ids[i]])[j] && r.dependency !in mods
    && (forall d :: d in Deps(mods[ids[i]])[..j] ==> d in mods)
    && (forall x, d :: x in ids[..i] && d in Deps(mods[x]) ==> d in mods)
  }

  lemma NoLinks(mods: map<Id, Mod>, ids: seq<Id>)
    requires forall x :: x in ids ==> x in mods
    ensures Links(mods, ids, 0, [], map d | d in mods :: [])
    ensures Degrees(mods, ids, 0, 0, map d | d in mods :: 0)
  {
  }

  lemma LinkOne(mods: map<Id, Mod>, ids: seq<Id>, i: nat, j: nat, dependents: map<Id, seq<Id>>, indegree: map<Id, int>)
    requires Distinct(ids) && i < |ids| && (forall x :: x in ids ==> x in mods) && j < |Deps(mods[ids[i]])|
    requires var ds := Deps(mods[ids[i]]); ds[j] in mods && Links(mods, ids, i, ds[..j], dependents) && Degrees(mods, ids, i, j, indegree)
    ensures var ds := Deps(mods[ids[i]]);
            && Links(mods, ids, i, ds[..j + 1], dependents[ds[j] := dependents[ds[j]] + [ids[i]]])
            && Degrees(mods, ids, i, j + 1, indegree[ids[i] := indegree[ids[i]] + 1])
  {
    hide Deps, AsFound;
    var ds, x := Deps(mods[ids[i]]), ids[i];
    assert ds[..j + 1] == ds[..j] + [ds[j]];
    assert x !in ids[..i];
    var l := dependents[ds[j]];
    assert LinkList(mods, ids, i, ds[..j], ds[j], l);
    assert ds[j] !in ds[..j];
    NewestFound(ids, i, l);
    forall d | d in mods ensures LinkList(mods, ids, i, ds[..j + 1], d, dependents[ds[j] := l + [x]][d]) {
      assert LinkList(mods, ids, i, ds[..j], d, dependents[d]);
    }
  }

  /** The mod being linked was found after those already listed. */
  lemma NewestFound(ids: seq<Id>, i: nat, l: seq<Id>)
    requires Distinct(ids) && i < |ids| && AsFound(ids, l) && forall m :: m in l ==> m in ids[..i]
    ensures AsFound(ids, l + [ids[i]])
  {
    assert IndexOf(ids, ids[i]) == i;
    forall m | m in l ensures IndexOf(ids, m) < i { var q :| 0 <= q < i && ids[q] == m; }
  }

  lemma LinkedMod(mods: map<Id, Mod>, ids: seq<Id>, i: nat, dependents: map<Id, seq<Id>>, indegree: map<Id, int>)
    requires Distinct(ids) && i < |ids| && (forall x :: x in ids ==> x in mods)
    requires var ds := Deps(mods[ids[i]]); Links(mods, ids, i, ds, dependents) && Degrees(mods, ids, i, |ds|, indegree)
    ensures Links(mods, ids, i + 1, [], dependents) && Degrees(mods, ids, i + 1, 0, indegree)
  {
    hide Deps, AsFound;
    assert ids[..i + 1] == ids[..i] + [ids[i]];
    forall d | d in mods ensures LinkList(mods, ids, i + 1, [], d, dependents[d]) {
      assert LinkList(mods, ids, i, Deps(mods[ids[i]]), d, dependents[d]);
    }
  }

  method LinkMods(mods: map<Id, Mod>, ids: seq<Id>)
    returns (dependents: map<Id, seq<Id>>, indegree: map<Id, int>, unmet: seq<Outcome>)
    requires Distinct(ids) && forall x :: x in ids <==> x in mods
    ensures unmet != [] ==> unmet[0].Unmet? && FirstUnmet(mods, ids, unmet[0])
    ensures unmet == [] ==> AllMet(mods) && Links(mods, ids, |ids|, [], dependents) && Degrees(mods, ids, |ids|, 0, indegree)
  {
    hide Deps, Links, Degrees, Distinct;
    dependents, indegree, unmet := map d | d in mods :: [], map d | d in mods :: 0, [];
    NoLinks(mods, ids);
    for i := 0 to |ids|
      invariant unmet == [] && Links(mods, ids, i, [], dependents) && Degrees(mods, ids, i, 0, indegree)
      invariant forall x, d :: x in ids[..i] && d in Deps(mods[x]) ==> d in mods
    {
      var x := ids[i];
      var ds := Deps(mods[x]);
      assert ds[..0] == [];
      for j := 0 to |ds|
        invariant unmet == [] && Links(mods, ids, i, ds[..j], dependents) && Degrees(mods, ids, i, j, indegree)
        invariant forall d :: d in ds[..j] ==> d in mods
      {
        if ds[j] !in mods {
          unmet := [Unmet(x, ds[j])];
          assert UnmetAt(mods, ids, i, j, unmet[0]);
          return;
        }
        LinkOne(mods, ids, i, j, dependents, indegree);
        LinkKeys(mods, ids, i, j, ds[..j], dependents, indegree);
        dependents := dependents[ds[j] := dependents[ds[j]] + [x]];
        indegree := indegree[x := indegree[x] + 1];
        assert ds[..j + 1] == ds[..j] + [ds[j]];
      }
      assert ds[..|ds|] == ds;
      LinkedMod(mods, ids, i, dependents, indegree);
      assert ids[..i + 1] == ids[..i] + [x];
    }
    assert ids[..|ids|] == ids;
  }

  lemma LinkKeys(mods: map<Id, Mod>, ids: seq<Id>, i: nat, j: nat, extra: seq<Id>, dependents: map<Id, seq<Id>>, indegree: map<Id, int>)
    requires i <= |ids| && (forall x :: x in ids ==> x in mods)
    requires Links(mods, ids, i, extra, dependents) && Degrees(mods, ids, i, j, indegree)
    ensures dependents.Keys == indegree.Keys == mods.Keys
  {
    hide Deps;
  }

  // ---- Kahn's algorithm

  /** How many of these dependencies are not done. */
  function Open(ds: seq<Id>, done: set<Id>): (k: nat)
    ensures k == 0 <==> forall d :: d in ds ==> d in done
    ensures k <= |ds|
  {
    if ds == [] then 0 else
    assert ds == ds[..|ds| - 1] + [ds[|ds| - 1]];
    Open(ds[..|ds| - 1], done) + if ds[|ds| - 1] in done then 0 else 1
  }

  lemma {:induction false} OpenDone(ds: seq<Id>, done: set<Id>, x: Id)
    requires Distinct(ds) && x !in done
    ensures Open(ds, done + {x}) == Open(ds, done) - if x in ds then 1 else 0
  {
    if ds != [] {
      var y, q := ds[|ds| - 1], ds[..|ds| - 1];
      assert ds == q + [y];
      assert Distinct(q);
      OpenDone(q, done, x);
      assert y !in q;
    }
  }

  lemma {:induction false} OpenNone(ds: seq<Id>)
    ensures Open(ds, {}) == |ds|
  {
    if ds != [] { OpenNone(ds[..|ds| - 1]); }
  }

  function Elems(s: seq<Id>): (r: set<Id>)
    ensures forall x :: x in r <==> x in s
  {
    set x | x in s
  }

  ghost predicate Graph(mods: map<Id, Mod>, ids: seq<Id>, dependents: map<Id, seq<Id>>) {
    && dependents.Keys == mods.Keys
    && forall d :: d in mods ==> Distinct(dependents[d]) && AsFound(ids, dependents[d]) && forall m :: m in dependents[d] <==> DependsOn(mods, m, d)
  }

  /** Every count is right when the mods in `done`, and for the mods in `seen` also x, are done. */
  ghost predicate Counts(mods: map<Id, Mod>, indegree: map<Id, int>, done: set<Id>, x: Id, seen: seq<Id>) {
    && indegree.Keys == mods.Keys
    && forall m :: m in mods ==> indegree[m] == Open(Deps(mods[m]), if m in seen then done + {x} else done)
  }

  /** The queue and the order together hold, once each, the mods with nothing left to wait for. */
  ghost predicate Waiting(mods: map<Id, Mod>, indegree: map<Id, int>, taken: seq<Id>) {
    && Distinct(taken) && indegree.Keys == mods.Keys
    && (forall m :: m in taken <==> m in mods && indegree[m] == 0)
  }

  lemma TakeReady(mods: map<Id, Mod>, indegree: map<Id, int>, order: seq<Id>, ready: seq<Id>)
    requires ready != [] && Counts(mods, indegree, Elems(order), ready[0], []) && Waiting(mods, indegree, order + ready)
    requires DepsFirst(mods, order)
    ensures DepsFirst(mods, order + [ready[0]]) && ready[0] in mods && ready[0] !in order
    ensures Waiting(mods, indegree, order + [ready[0]] + ready[1..])
  {
    hide Deps;
    var x := ready[0];
    assert (order + ready)[|order|] == x;
    assert forall i :: 0 <= i < |order| ==> (order + ready)[i] == order[i];
    assert order + [x] + ready[1..] == order + ready;
    forall i, d | 0 <= i < |order + [x]| && (order + [x])[i] in mods && d in Deps(mods[(order + [x])[i]])
      ensures d in (order + [x])[..i]
    {
      if i == |order| { assert (order + [x])[..i] == order; } else { assert (order + [x])[..i] == order[..i]; }
    }
  }

  lemma LoweredCount(mods: map<Id, Mod>, ids: seq<Id>, dependents: map<Id, seq<Id>>, indegree: map<Id, int>, done: set<Id>, x: Id, k: nat)
    requires Graph(mods, ids, dependents) && x in mods && x !in done && k < |dependents[x]|
    requires Counts(mods, indegree, done, x, dependents[x][..k])
    ensures var m := dependents[x][k];
            m in mods && m in indegree && indegree[m] > 0 &&
            Counts(mods, indegree[m := indegree[m] - 1], done, x, dependents[x][..k + 1])
  {
    hide Deps, Open;
    var l := dependents[x];
    var m := l[k];
    assert m in l && DependsOn(mods, m, x);
    assert l[..k + 1] == l[..k] + [m] && m !in l[..k];
    OpenDone(Deps(mods[m]), done, x);
    assert Open(Deps(mods[m]), done) != 0;
  }

  lemma LoweredWaiting(mods: map<Id, Mod>, indegree: map<Id, int>, m: Id, taken: seq<Id>)
    requires Waiting(mods, indegree, taken) && m in mods && m in indegree && indegree[m] > 0
    ensures var lower := indegree[m := indegree[m] - 1];
            m !in taken && Waiting(mods, lower, if lower[m] == 0 then taken + [m] else taken)
  {
  }

  lemma AllLowered(mods: map<Id, Mod>, ids: seq<Id>, dependents: map<Id, seq<Id>>, indegree: map<Id, int>, order: seq<Id>, x: Id, y: Id)
    requires Graph(mods, ids, dependents) && x in mods && x !in order
    requires Counts(mods, indegree, Elems(order), x, dependents[x])
    ensures Counts(mods, indegree, Elems(order + [x]), y, [])
  {
    hide Deps;
    assert Elems(order + [x]) == Elems(order) + {x};
    forall m | m in mods ensures indegree[m] == Open(Deps(mods[m]), Elems(order) + {x}) {
      if m !in dependents[x] { OpenDone(Deps(mods[m]), Elems(order), x); }
    }
  }

  lemma {:induction false} DistinctCount(p: seq<Id>, s: set<Id>)
    requires Distinct(p) && Elems(p) == s
    ensures |p| == |s|
  {
    if p != [] {
      var y, q := p[|p| - 1], p[..|p| - 1];
      assert p == q + [y];
      assert Elems(q) == s - {y};
      DistinctCount(q, s - {y});
    }
  }

  /** The mods still waiting when the queue is empty are those from which a cycle can be reached. */
  lemma LeftOver(mods: map<Id, Mod>, indegree: map<Id, int>, order: seq<Id>, y: Id)
    requires AllMet(mods) && Counts(mods, indegree, Elems(order), y, []) && Waiting(mods, indegree, order)
    requires DepsFirst(mods, order)
    ensures indegree.Keys == mods.Keys
    ensures forall x :: x in mods ==> (indegree[x] != 0 <==> ReachesCycle(mods, x)) && (x in order <==> indegree[x] == 0)
  {
    hide Deps, ReachesCycle, Distinct, DepsFirst, Open;
    var stuck := set x | x in mods && indegree[x] != 0;
    assert SelfBlocking(mods, stuck) by {
      forall z | z in stuck ensures StuckDep(mods, stuck, z) {
        var d :| d in Deps(mods[z]) && d !in Elems(order);
        assert d in stuck;
      }
    }
    forall x | x in mods ensures indegree[x] != 0 <==> ReachesCycle(mods, x) {
      if x in stuck { StuckReachesCycle(mods, stuck, x); } else { OrderedIsFree(mods, order, x); }
    }
  }

  /** Takes ready mods off the queue in order of arrival and releases those that waited for them. */
  method TakeInOrder(mods: map<Id, Mod>, ids: seq<Id>, dependents: map<Id, seq<Id>>, degrees: map<Id, int>)
    returns (order: seq<Id>, indegree: map<Id, int>)
    requires Distinct(ids) && (forall x :: x in ids <==> x in mods) && AllMet(mods)
    requires Graph(mods, ids, dependents) && Counts(mods, degrees, {}, "", [])
    ensures Distinct(order) && DepsFirst(mods, order) && InTurn(mods, ids, order) && indegree.Keys == mods.Keys
    ensures forall x :: x in order ==> x in mods
    ensures forall x :: x in mods ==> (indegree[x] != 0 <==> ReachesCycle(mods, x)) && (x in order <==> indegree[x] == 0)
  {
    hide Deps, Graph, Counts, DepsFirst, ReachesCycle, AllMet, Waiting, Open, Elems, InTurn, Settled;
    indegree := degrees;
    Keys(mods, indegree, {}, "", []);
    var ready := ReadyAtStart(mods, ids, indegree);
    order := [];
    NothingOrdered(mods);
    ghost var y := "";
    assert order + ready == ready;
    while ready != []
      invariant Counts(mods, indegree, Elems(order), y, []) && Waiting(mods, indegree, order + ready)
      invariant DepsFirst(mods, order) && InTurn(mods, ids, order + ready) && Settled(mods, order + ready, order)
      decreases |mods| - |order|
    {
      var x := ready[0];
      AnyNext(mods, indegree, Elems(order), y, x);
      TakeReady(mods, indegree, order, ready);
      ghost var before := order;
      order := order + [x];
      assert before + ready == before + [x] + ready[1..];
      indegree, ready := Release(mods, ids, dependents, indegree, x, before, ready[1..]);
      y := x;
      Shrinks(mods, indegree, order + ready, |order|);
    }
    assert order + ready == order;
    LeftOver(mods, indegree, order, y);
    AllInMods(mods, indegree, order);
  }

  lemma AllInMods(mods: map<Id, Mod>, indegree: map<Id, int>, order: seq<Id>)
    requires Waiting(mods, indegree, order)
    ensures Distinct(order) && forall x :: x in order ==> x in mods
  {
  }

  /** Mod x is done: everything that depends on it waits for one mod less. */
  method Release(mods: map<Id, Mod>, ghost ids: seq<Id>, dependents: map<Id, seq<Id>>, degrees: map<Id, int>, x: Id, ghost before: seq<Id>, queue: seq<Id>)
    returns (indegree: map<Id, int>, ready: seq<Id>)
    requires Graph(mods, ids, dependents) && x in mods && x !in before && Counts(mods, degrees, Elems(before), x, [])
    requires Waiting(mods, degrees, before + [x] + queue)
    requires InTurn(mods, ids, before + [x] + queue) && Settled(mods, before + [x] + queue, before)
    ensures Counts(mods, indegree, Elems(before + [x]), x, []) && Waiting(mods, indegree, before + [x] + ready)
    ensures InTurn(mods, ids, before + [x] + ready) && Settled(mods, before + [x] + ready, before + [x])
  {
    hide Deps, Graph, Counts, Waiting, Open, Elems, InTurn, Settled, Latest;
    indegree, ready := degrees, queue;
    ghost var order := before + [x];
    DependentsOf(mods, ids, dependents, x);
    ElemsOf(before);
    OrderKept(mods, degrees, before, x, queue);
    for k := 0 to |dependents[x]|
      invariant Counts(mods, indegree, Elems(before), x, dependents[x][..k])
      invariant Waiting(mods, indegree, order + ready)
      invariant InTurn(mods, ids, order + ready) && Settled(mods, order + ready, order)
      invariant Latest(mods, order + ready, |order|, dependents[x][..k])
    {
      var m := dependents[x][k];
      LoweredCount(mods, ids, dependents, indegree, Elems(before), x, k);
      LoweredWaiting(mods, indegree, m, order + ready);
      indegree := indegree[m := indegree[m] - 1];
      assert order + ready + [m] == order + (ready + [m]);
      if indegree[m] == 0 {
        NowMet(mods, ids, dependents, indegree, before, x, k);
        Queued(mods, ids, order, order + ready, dependents[x], k);
        ready := ready + [m];
      } else {
        NotQueued(mods, order + ready, |order|, dependents[x], k);
      }
    }
    assert dependents[x][..|dependents[x]|] == dependents[x];
    AllLowered(mods, ids, dependents, indegree, before, x, x);
  }

  lemma OrderKept(mods: map<Id, Mod>, indegree: map<Id, int>, before: seq<Id>, x: Id, queue: seq<Id>)
    requires Waiting(mods, indegree, before + [x] + queue) && Settled(mods, before + [x] + queue, before)
    ensures Distinct(before + [x]) && Settled(mods, before + [x] + queue, before + [x])
    ensures Latest(mods, before + [x] + queue, |before + [x]|, [])
  {
    hide Deps, Latest;
    var t := before + [x] + queue;
    assert forall i :: 0 <= i < |before + [x]| ==> t[i] == (before + [x])[i];
    assert before <= t;
    NoneYet(mods, before, t);
  }

  /** A count of zero says that the mod's dependencies are all in the order, x among them. */
  lemma NowMet(mods: map<Id, Mod>, ids: seq<Id>, dependents: map<Id, seq<Id>>, indegree: map<Id, int>, before: seq<Id>, x: Id, k: nat)
    requires Graph(mods, ids, dependents) && x in mods && k < |dependents[x]|
    requires Counts(mods, indegree, Elems(before), x, dependents[x][..k + 1]) && dependents[x][k] in indegree
    requires indegree[dependents[x][k]] == 0
    ensures var m := dependents[x][k];
            m in mods && x in Deps(mods[m]) && (forall d :: d in Deps(mods[m]) ==> d in before + [x]) && AsFound(ids, dependents[x])
  {
    hide Deps, AsFound, Distinct;
    var l := dependents[x];
    assert l[..k + 1] == l[..k] + [l[k]];
    assert l[k] in l;
  }

  lemma ElemsOf(s: seq<Id>)
    ensures forall x :: x in Elems(s) <==> x in s
  {
  }

  lemma NothingOrdered(mods: map<Id, Mod>)
    ensures DepsFirst(mods, []) && Elems([]) == {}
  {
  }

  lemma Keys(mods: map<Id, Mod>, indegree: map<Id, int>, done: set<Id>, x: Id, seen: seq<Id>)
    requires Counts(mods, indegree, done, x, seen)
    ensures indegree.Keys == mods.Keys
  {
  }

  lemma DependentsOf(mods: map<Id, Mod>, ids: seq<Id>, dependents: map<Id, seq<Id>>, x: Id)
    requires Graph(mods, ids, dependents) && x in mods
    ensures x in dependents && dependents[x][..0] == []
  {
  }

  lemma AnyNext(mods: map<Id, Mod>, indegree: map<Id, int>, done: set<Id>, x: Id, y: Id)
    requires Counts(mods, indegree, done, x, [])
    ensures Counts(mods, indegree, done, y, [])
  {
  }

  lemma Shrinks(mods: map<Id, Mod>, indegree: map<Id, int>, taken: seq<Id>, n: nat)
    requires Waiting(mods, indegree, taken) && n <= |taken|
    ensures n <= |mods|
  {
    assert Distinct(taken[..n]);
    DistinctFits(taken[..n], mods.Keys);
  }

  method ReadyAtStart(mods: map<Id, Mod>, ids: seq<Id>, indegree: map<Id, int>) returns (ready: seq<Id>)
    requires Distinct(ids) && (forall x :: x in ids <==> x in mods) && Counts(mods, indegree, {}, "", [])
    ensures Waiting(mods, indegree, ready) && InTurn(mods, ids, ready) && Settled(mods, ready, [])
  {
    hide Deps, Open, InTurn, Settled, IndexOf, AsFound;
    ready := [];
    NoneFound(ids);
    NothingOpen(mods, indegree);
    for i := 0 to |ids|
      invariant Distinct(ready) && forall m :: m in ready <==> m in ids[..i] && indegree[m] == 0
      invariant AsFound(ids, ready)
    {
      assert ids[..i + 1] == ids[..i] + [ids[i]] && ids[i] !in ids[..i];
      NewestFound(ids, i, ready);
      if indegree[ids[i]] == 0 { ready := ready + [ids[i]]; }
    }
    assert ids[..|ids|] == ids;
    NothingOpen(mods, indegree);
    FirstInTurn(mods, ids, ready);
  }

  lemma NothingOpen(mods: map<Id, Mod>, indegree: map<Id, int>)
    requires Counts(mods, indegree, {}, "", [])
    ensures indegree.Keys == mods.Keys && forall m :: m in mods && indegree[m] == 0 ==> Deps(mods[m]) == []
  {
    hide Deps;
    forall m | m in mods && indegree[m] == 0 ensures Deps(mods[m]) == [] {
      HasFirst(Deps(mods[m]));
    }
  }

  lemma HasFirst(ds: seq<Id>)
    ensures ds != [] ==> exists d :: d in ds
  {
    if ds != [] { assert ds[0] in ds; }
  }

  lemma NoneFound(ids: seq<Id>)
    ensures AsFound(ids, [])
  {
  }

  // ---- sorting the ids in the message

  /** The order of strings by code points. */
  predicate StrLe(a: Id, b: Id) {
    a == "" || (b != "" && (a[0] < b[0] || (a[0] == b[0] && StrLe(a[1..], b[1..]))))
  }

  /** One string is in front of another if it is a beginning of it, or has the smaller character where they
      first differ. */
  lemma {:induction false} StrLeIff(a: Id, b: Id)
    ensures StrLe(a, b) <==>
            a <= b || exists k :: FirstDifference(a, b, k)
  {
    if a != "" && b != "" && a[0] == b[0] {
      StrLeIff(a[1..], b[1..]);
      FirstSame(a, b);
    } else if a != "" && b != "" {
      assert a[0] < b[0] ==> FirstDifference(a, b, 0);
    }
  }

  ghost predicate FirstDifference(a: Id, b: Id, k: nat) { k < |a| && k < |b| && a[..k] == b[..k] && a[k] < b[k] }

  lemma FirstSame(a: Id, b: Id)
    requires a != "" && b != "" && a[0] == b[0]
    ensures a <= b <==> a[1..] <= b[1..]
    ensures (exists k :: FirstDifference(a, b, k)) <==> exists k :: FirstDifference(a[1..], b[1..], k)
  {
    var c, d := a[1..], b[1..];
    assert a == [a[0]] + c && b == [b[0]] + d;
    if k: nat :| FirstDifference(c, d, k) { SameFurther(a, b, k); }
    if k: nat :| FirstDifference(a, b, k) {
      assert k > 0;
      SameFurther(a, b, k - 1);
    }
  }

  lemma SameFurther(a: Id, b: Id, k: nat)
    requires a != "" && b != "" && a[0] == b[0] && k < |a| - 1 && k < |b| - 1
    ensures FirstDifference(a, b, k + 1) <==> FirstDifference(a[1..], b[1..], k)
  {
    assert a[..k + 1] == [a[0]] + a[1..][..k] && b[..k + 1] == [b[0]] + b[1..][..k];
    assert a[..k + 1][1..] == a[1..][..k] && b[..k + 1][1..] == b[1..][..k];
  }

  lemma {:induction false} StrTotal(a: Id, b: Id)
    ensures StrLe(a, b) || StrLe(b, a)
  {
    if a != "" && b != "" { StrTotal(a[1..], b[1..]); }
  }

  lemma {:induction false} StrTrans(a: Id, b: Id, c: Id)
    requires StrLe(a, b) && StrLe(b, c)
    ensures StrLe(a, c)
  {
    if a != "" && a[0] == b[0] == c[0] { StrTrans(a[1..], b[1..], c[1..]); }
  }

  ghost predicate Sorted(s: seq<Id>) { forall i, j :: 0 <= i < j < |s| ==> StrLe(s[i], s[j]) }

  method SortIds(s: seq<Id>) returns (r: seq<Id>)
    ensures Sorted(r) && multiset(r) == multiset(s)
  {
    r := [];
    for i := 0 to |s|
      invariant Sorted(r) && multiset(r) == multiset(s[..i])
    {
      assert s[..i + 1] == s[..i] + [s[i]];
      r := Insert(r, s[i]);
    }
    assert s[..|s|] == s;
  }

  method Insert(s: seq<Id>, x: Id) returns (r: seq<Id>)
    requires Sorted(s)
    ensures Sorted(r) && multiset(r) == multiset(s) + multiset{x}
  {
    var k := 0;
    while k < |s| && StrLe(s[k], x)
      invariant k <= |s| && forall i :: 0 <= i < k ==> StrLe(s[i], x)
    {
      k := k + 1;
    }
    r := s[..k] + [x] + s[k..];
    assert s == s[..k] + s[k..];
    forall i | k <= i < |s| ensures StrLe(x, s[i]) {
      StrTotal(x, s[k]);
      if i > k { StrTrans(x, s[k], s[i]); }
    }
    forall i, j | 0 <= i < j < |r| ensures StrLe(r[i], r[j]) {
      if i < k && k < j { StrTrans(s[i], x, s[j - 1]); }
    }
  }

  // ---- the resolver

  /** The order lists every enabled mod once, as entered, after everything it depends on. */
  ghost predicate GoodOrder(on: seq<Mod>, order: seq<Entry>) {
    && |order| == |on|
    && Distinct(seq(|order|, i requires 0 <= i < |order| => order[i].id))
    && (forall e :: e in order ==> exists m :: m in on && e == Entry(m.id, m.name, Deps(m)))
    && (forall i, d :: 0 <= i < |order| && d in order[i].dependencies ==> exists j :: 0 <= j < i && order[j].id == d)
  }

  function EntryIds(order: seq<Entry>): (r: seq<Id>)
    ensures |r| == |order| && forall i :: 0 <= i < |r| ==> r[i] == order[i].id
  {
    seq(|order|, i requires 0 <= i < |order| => order[i].id)
  }

  /** Exactly the mods from which following dependencies leads into a cycle, sorted. */
  ghost predicate ExactlyCyclic(mods: map<Id, Mod>, blocked: seq<Id>) {
    && blocked != [] && Sorted(blocked) && Distinct(blocked)
    && forall x :: x in blocked <==> x in mods && ReachesCycle(mods, x)
  }

  ghost predicate Acyclic(mods: map<Id, Mod>) { forall x :: x in mods ==> !ReachesCycle(mods, x) }

  /** What each answer of the resolver means. */
  ghost predicate Justified(on: seq<Mod>, mods: map<Id, Mod>, r: Outcome) {
    match r
    case Duplicate(_, _, _) => FirstDuplicate(on, r)
    case Unmet(_, _) => Table(on, mods) && FirstUnmet(mods, Ids(on), r)
    case Blocked(b) => Table(on, mods) && AllMet(mods) && ExactlyCyclic(mods, b)
    case Ordered(o) =>
      Table(on, mods) && AllMet(mods) && Acyclic(mods) && GoodOrder(on, o) && InTurn(mods, Ids(on), EntryIds(o))
  }

  method ResolveModOrder(found: seq<Mod>) returns (r: Outcome)
    ensures exists mods :: Justified(Enabled(found), mods, r)
  {
    hide Enabled, Table, Deps, Links, Degrees, Graph, Counts, DepsFirst, ReachesCycle, AllMet, Sorted, FirstUnmet, FirstDuplicate, InTurn, Distinct, GoodOrder, ExactlyCyclic, Acyclic;
    var table, ids, duplicate := CollectMods(found);
    ghost var on := Enabled(found);
    if duplicate != [] {
      r := duplicate[0];
      assert Justified(on, table, r);
      return;
    }
    TableIds(on, table);
    var dependents, degrees, unmet := LinkMods(table, ids);
    if unmet != [] {
      r := unmet[0];
      assert Justified(on, table, r);
      return;
    }
    Linked(table, ids, dependents, degrees);
    var names, indegree := TakeInOrder(table, ids, dependents, degrees);
    if |names| != |table| {
      var b := Remaining(ids, indegree);
      SomeLeft(table, indegree, names);
      var blocked := SortIds(b);
      SameElements(b, blocked);
      CyclesBlock(table, indegree, b, blocked);
      r := Blocked(blocked);
      assert Justified(on, table, r);
    } else {
      AllTaken(table, indegree, names);
      var order := Entries(table, names);
      GoodEntries(on, table, names, order);
      assert EntryIds(order) == names;
      NoCycles(table, indegree);
      r := Ordered(order);
      assert Justified(on, table, r);
    }
  }

  lemma CyclesBlock(mods: map<Id, Mod>, indegree: map<Id, int>, b: seq<Id>, blocked: seq<Id>)
    requires indegree.Keys == mods.Keys && forall x :: x in mods ==> (indegree[x] != 0 <==> ReachesCycle(mods, x))
    requires (forall x :: x in b <==> x in indegree && indegree[x] != 0) && (exists x :: x in mods && indegree[x] != 0)
    requires Sorted(blocked) && Distinct(blocked) && forall x :: x in blocked <==> x in b
    ensures ExactlyCyclic(mods, blocked)
  {
    hide ReachesCycle, Sorted, Distinct;
  }

  lemma NoCycles(mods: map<Id, Mod>, indegree: map<Id, int>)
    requires indegree.Keys == mods.Keys && forall x :: x in mods ==> indegree[x] == 0 && !ReachesCycle(mods, x)
    ensures Acyclic(mods)
  {
    hide ReachesCycle;
  }

  lemma TableIds(on: seq<Mod>, mods: map<Id, Mod>)
    requires Table(on, mods)
    ensures Distinct(Ids(on)) && forall x :: x in Ids(on) <==> x in mods
  {
    forall x | x in mods ensures x in Ids(on) {
      var i :| 0 <= i < |on| && on[i] == mods[x];
      assert Ids(on)[i] == x;
    }
  }

  lemma Linked(mods: map<Id, Mod>, ids: seq<Id>, dependents: map<Id, seq<Id>>, indegree: map<Id, int>)
    requires Distinct(ids) && forall x :: x in ids <==> x in mods
    requires Links(mods, ids, |ids|, [], dependents) && Degrees(mods, ids, |ids|, 0, indegree)
    ensures Graph(mods, ids, dependents) && Counts(mods, indegree, {}, "", [])
  {
    hide Deps, Open, Distinct, AsFound;
    assert ids[..|ids|] == ids;
    forall d | d in mods ensures Distinct(dependents[d]) && AsFound(ids, dependents[d]) && forall m :: m in dependents[d] <==> DependsOn(mods, m, d) {
      assert LinkList(mods, ids, |ids|, [], d, dependents[d]);
    }
    forall m | m in mods ensures indegree[m] == Open(Deps(mods[m]), {}) {
      var k :| 0 <= k < |ids| && ids[k] == m;
      OpenNone(Deps(mods[m]));
    }
  }

  method Remaining(ids: seq<Id>, indegree: map<Id, int>) returns (b: seq<Id>)
    requires Distinct(ids) && forall x :: x in ids <==> x in indegree
    ensures Distinct(b) && forall x :: x in b <==> x in indegree && indegree[x] != 0
  {
    b := [];
    for i := 0 to |ids|
      invariant Distinct(b) && forall m :: m in b <==> m in ids[..i] && indegree[m] != 0
    {
      assert ids[..i + 1] == ids[..i] + [ids[i]] && ids[i] !in ids[..i];
      if indegree[ids[i]] != 0 { b := b + [ids[i]]; }
    }
    assert ids[..|ids|] == ids;
  }

  lemma SomeLeft(mods: map<Id, Mod>, indegree: map<Id, int>, order: seq<Id>)
    requires indegree.Keys == mods.Keys && Distinct(order) && |order| != |mods|
    requires forall x :: x in order ==> x in mods
    requires forall x :: x in mods ==> (x in order <==> indegree[x] == 0)
    ensures exists x :: x in mods && indegree[x] != 0
  {
    DistinctCount(order, Elems(order));
    assert Elems(order) != mods.Keys;
    assert Elems(order) <= mods.Keys;
    var x :| x in mods.Keys && x !in Elems(order);
  }

  lemma AllTaken(mods: map<Id, Mod>, indegree: map<Id, int>, order: seq<Id>)
    requires indegree.Keys == mods.Keys && Distinct(order) && |order| == |mods|
    requires forall x :: x in order ==> x in mods
    requires forall x :: x in mods ==> (x in order <==> indegree[x] == 0)
    ensures forall x :: x in mods ==> x in order && indegree[x] == 0
  {
    DistinctCount(order, Elems(order));
    assert Elems(order) <= mods.Keys;
    SubsetSame(Elems(order), mods.Keys);
  }

  lemma {:induction false} SubsetSame(a: set<Id>, b: set<Id>)
    requires a <= b && |a| == |b|
    ensures a == b
  {
    if a != {} {
      var x :| x in a;
      SubsetSame(a - {x}, b - {x});
      assert a == a - {x} + {x} && b == b - {x} + {x};
    }
  }

  /** Sorting neither adds, drops nor repeats ids. */
  lemma SameElements(a: seq<Id>, b: seq<Id>)
    requires multiset(a) == multiset(b) && Distinct(a)
    ensures Distinct(b) && (forall x :: x in b <==> x in a)
  {
    forall x ensures x in b <==> x in a { assert x in b <==> x in multiset(b); }
    forall i, j | 0 <= i < j < |b| ensures b[i] != b[j] {
      Once(a, b[i]);
      if b[i] == b[j] { Twice(b, i, j); }
    }
  }

  lemma {:induction false} Once(a: seq<Id>, x: Id)
    requires Distinct(a)
    ensures multiset(a)[x] <= 1
  {
    if a != [] {
      var q := a[..|a| - 1];
      assert a == q + [a[|a| - 1]];
      Once(q, x);
      if multiset(q)[x] == 1 { assert x in q; }
    }
  }

  lemma Twice(b: seq<Id>, i: nat, j: nat)
    requires i < j < |b| && b[i] == b[j]
    ensures multiset(b)[b[i]] >= 2
  {
    assert b == b[..j] + b[j..];
    assert b[i] in b[..j];
    assert b[j..][0] == b[j];
    assert b[j] in b[j..];
  }

  method Entries(mods: map<Id, Mod>, names: seq<Id>) returns (order: seq<Entry>)
    requires forall x :: x in names ==> x in mods
    ensures |order| == |names|
    ensures forall i :: 0 <= i < |names| ==> order[i] == Entry(names[i], mods[names[i]].name, Deps(mods[names[i]]))
  {
    hide Deps;
    order := [];
    for i := 0 to |names|
      invariant |order| == i
      invariant forall k :: 0 <= k < i ==> order[k] == Entry(names[k], mods[names[k]].name, Deps(mods[names[k]]))
    {
      order := order + [Entry(names[i], mods[names[i]].name, Deps(mods[names[i]]))];
    }
  }

  lemma GoodEntries(on: seq<Mod>, mods: map<Id, Mod>, names: seq<Id>, order: seq<Entry>)
    requires Table(on, mods) && Distinct(names) && DepsFirst(mods, names) && |names| == |mods| == |order|
    requires forall x :: x in names ==> x in mods
    requires forall i :: 0 <= i < |names| ==> order[i] == Entry(names[i], mods[names[i]].name, Deps(mods[names[i]]))
    ensures GoodOrder(on, order)
  {
    hide Deps;
    TableIds(on, mods);
    DistinctCount(Ids(on), Elems(Ids(on)));
    assert Elems(Ids(on)) == mods.Keys;
    assert |mods| == |mods.Keys|;
    forall e | e in order ensures exists m :: m in on && e == Entry(m.id, m.name, Deps(m)) {
      var i :| 0 <= i < |order| && order[i] == e;
      assert mods[names[i]] in on;
    }
    forall i, d | 0 <= i < |order| && d in order[i].dependencies ensures exists j :: 0 <= j < i && order[j].id == d {
      assert d in names[..i];
      var j :| 0 <= j < i && names[j] == d;
      assert order[j].id == d;
    }
  }

  /** The resolver complains of a duplicate exactly when ids are not unique, of an unmet dependency exactly
      when one is missing, and otherwise succeeds exactly when no dependency cycle exists. */
  lemma SucceedsIff(on: seq<Mod>, mods: map<Id, Mod>, r: Outcome)
    requires Justified(on, mods, r)
    ensures r.Duplicate? <==> !Distinct(Ids(on))
    ensures !r.Duplicate? ==> Table(on, mods) && (r.Unmet? <==> !AllMet(mods))
    ensures !r.Duplicate? ==> (r.Ordered? <==> AllMet(mods) && Acyclic(mods))
  {
    hide Deps, ReachesCycle, Table;
    match r {
      case Duplicate(id, _, _) =>
        var i: nat, j: nat :| i < j < |on| && SameId(on, i, j, r);
        assert Ids(on)[i] == Ids(on)[j];
      case Unmet(_, _) =>
        TableIds(on, mods);
        UnmetNotMet(on, mods, r);
      case Blocked(b) =>
        TableIds(on, mods);
        assert b[0] in b;
      case Ordered(_) => TableIds(on, mods);
    }
  }

  /** Which order it is: any list of the enabled mods that has each behind its dependencies and in turn is
      the one given. */
  lemma OrderIsDetermined(on: seq<Mod>, mods: map<Id, Mod>, o: seq<Entry>, t: seq<Id>)
    requires Justified(on, mods, Ordered(o))
    requires Distinct(t) && (forall x :: x in t <==> x in mods) && DepsFirst(mods, t) && InTurn(mods, Ids(on), t)
    ensures EntryIds(o) == t
  {
    hide Deps, InTurn, Distinct, Table;
    var s := EntryIds(o);
    TableIds(on, mods);
    EntriesCover(on, mods, o);
    DistinctCount(s, Elems(s));
    DistinctCount(t, Elems(t));
    assert Elems(s) == Elems(t);
    OneOrder(mods, Ids(on), s, t, |s|);
    assert s[..|s|] == s && t[..|s|] == t;
  }

  lemma EntriesCover(on: seq<Mod>, mods: map<Id, Mod>, o: seq<Entry>)
    requires Table(on, mods) && GoodOrder(on, o)
    ensures Distinct(EntryIds(o)) && (forall x :: x in EntryIds(o) <==> x in mods) && DepsFirst(mods, EntryIds(o))
  {
    hide Deps;
    var s := EntryIds(o);
    TableIds(on, mods);
    assert s == seq(|o|, i requires 0 <= i < |o| => o[i].id);
    forall i | 0 <= i < |o| ensures s[i] in mods && o[i].dependencies == Deps(mods[s[i]]) {
      assert o[i] in o;
      var m :| m in on && o[i] == Entry(m.id, m.name, Deps(m));
      var k :| 0 <= k < |on| && on[k] == m;
    }
    DistinctCount(s, Elems(s));
    DistinctCount(Ids(on), Elems(Ids(on)));
    assert Elems(s) <= Elems(Ids(on));
    SubsetSame(Elems(s), Elems(Ids(on)));
    forall x | x in mods ensures x in s { assert x in Elems(Ids(on)); }
    forall i, d | 0 <= i < |s| && s[i] in mods && d in Deps(mods[s[i]]) ensures d in s[..i] {
      assert d in o[i].dependencies;
      var j :| 0 <= j < i && o[j].id == d;
      assert s[..i][j] == d;
    }
  }

  /** Without dependencies the order is the one in which the mods were found. */
  lemma IndependentAsFound(on: seq<Mod>, mods: map<Id, Mod>, o: seq<Entry>)
    requires Justified(on, mods, Ordered(o)) && forall m :: m in on ==> Deps(m) == []
    ensures EntryIds(o) == Ids(on)
  {
    hide Deps, InTurn;
    TableIds(on, mods);
    forall i, j | 0 <= i < j < |on| ensures IndexOf(Ids(on), Ids(on)[i]) < IndexOf(Ids(on), Ids(on)[j]) {
      PlaceOf(Ids(on), i);
      PlaceOf(Ids(on), j);
    }
    FirstInTurn(mods, Ids(on), Ids(on));
    OrderIsDetermined(on, mods, o, Ids(on));
  }

  lemma PlaceOf(s: seq<Id>, i: nat)
    requires Distinct(s) && i < |s|
    ensures IndexOf(s, s[i]) == i
  {
  }

  lemma UnmetNotMet(on: seq<Mod>, mods: map<Id, Mod>, r: Outcome)
    requires Table(on, mods) && FirstUnmet(mods, Ids(on), r)
    ensures !AllMet(mods)
  {
    hide Deps;
    var ids := Ids(on);
    var i: nat, j: nat :| i < |ids| && j < |Deps(mods[ids[i]])| && UnmetAt(mods, ids, i, j, r);
    assert Deps(mods[ids[i]])[j] in Deps(mods[ids[i]]);
  }
}
