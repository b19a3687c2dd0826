/** The merge sort of uthash: bottom-up over the application order, in place, stable. */
module UtSort {
  import opened UtHash

  type Cmp = (Item, Item) -> int

  // ---- the order

  function IndexOf(s: seq<Item>, x: Item): (i: nat)
    requires x in s
    ensures i < |s| && s[i] == x
  {
    if s[0] == x then 0 else 1 + IndexOf(s[1..], x)
  }

  lemma {:induction false} IndexIs(s: seq<Item>, i: nat)
    requires Distinct(s) && i < |s|
    ensures IndexOf(s, s[i]) == i
  {
  }

  /** The comparison is a total preorder on these items. */
  ghost predicate Ordering(cmp: Cmp, s: seq<Item>) {
    && (forall x, y :: x in s && y in s ==> cmp(x, y) <= 0 || cmp(y, x) <= 0)
    && (forall x, y, z :: x in s && y in s && z in s && cmp(x, y) <= 0 && cmp(y, z) <= 0 ==> cmp(x, z) <= 0)
  }

  /** x goes before y: it compares lower, or equal and was there first. */
  ghost predicate Goes(cmp: Cmp, orig: seq<Item>, x: Item, y: Item) {
    x in orig && y in orig && cmp(x, y) <= 0 && (cmp(y, x) <= 0 ==> IndexOf(orig, x) < IndexOf(orig, y))
  }

  ghost predicate Sorted(cmp: Cmp, orig: seq<Item>, s: seq<Item>) {
    forall i, j :: 0 <= i < j < |s| ==> Goes(cmp, orig, s[i], s[j])
  }

  /** The same items, in order, equal ones in their original order. */
  ghost predicate StableSorted(cmp: Cmp, orig: seq<Item>, out: seq<Item>) {
    multiset(out) == multiset(orig) && Sorted(cmp, orig, out)
  }

  ghost predicate Ahead(orig: seq<Item>, a: seq<Item>, b: seq<Item>) {
    forall x, y :: x in a && y in b ==> x in orig && y in orig && IndexOf(orig, x) < IndexOf(orig, y)
  }

  // ---- merging

  function Merge(cmp: Cmp, p: seq<Item>, q: seq<Item>): seq<Item>
    decreases |p| + |q|
  {
    if p == [] then q
    else if q == [] then p
    else if cmp(p[0], q[0]) <= 0 then [p[0]] + Merge(cmp, p[1..], q)
    else [q[0]] + Merge(cmp, p, q[1..])
  }

  lemma {:induction false} MergeItems(cmp: Cmp, p: seq<Item>, q: seq<Item>)
    ensures multiset(Merge(cmp, p, q)) == multiset(p) + multiset(q)
    decreases |p| + |q|
  {
    if p != [] && q != [] {
      assert p == [p[0]] + p[1..] && q == [q[0]] + q[1..];
      if cmp(p[0], q[0]) <= 0 { MergeItems(cmp, p[1..], q); } else { MergeItems(cmp, p, q[1..]); }
    }
  }

  lemma {:induction false} MergeIn(cmp: Cmp, p: seq<Item>, q: seq<Item>)
    ensures forall x :: x in Merge(cmp, p, q) ==> x in p || x in q
    decreases |p| + |q|
  {
    if p != [] && q != [] {
      if cmp(p[0], q[0]) <= 0 { MergeIn(cmp, p[1..], q); } else { MergeIn(cmp, p, q[1..]); }
    }
  }

  /** Merging sorted runs, the first originally ahead of the second, keeps order and stability. */
  lemma {:induction false} MergeSorted(cmp: Cmp, orig: seq<Item>, p: seq<Item>, q: seq<Item>)
    requires Ordering(cmp, orig) && Sorted(cmp, orig, p) && Sorted(cmp, orig, q) && Ahead(orig, p, q)
    requires (forall x :: x in p ==> x in orig) && (forall x :: x in q ==> x in orig)
    ensures Sorted(cmp, orig, Merge(cmp, p, q))
    decreases |p| + |q|
  {
    hide IndexOf;
    if p != [] && q != [] {
      if cmp(p[0], q[0]) <= 0 {
        var r := Merge(cmp, p[1..], q);
        MergeSorted(cmp, orig, p[1..], q);
        MergeIn(cmp, p[1..], q);
        forall y | y in r ensures Goes(cmp, orig, p[0], y) {
          FirstGoes(cmp, orig, p, q, y);
        }
        Prefixed(cmp, orig, p[0], r);
      } else {
        var r := Merge(cmp, p, q[1..]);
        MergeSorted(cmp, orig, p, q[1..]);
        MergeIn(cmp, p, q[1..]);
        forall y | y in r ensures Goes(cmp, orig, q[0], y) {
          SecondGoes(cmp, orig, p, q, y);
        }
        Prefixed(cmp, orig, q[0], r);
      }
    }
  }

  lemma Prefixed(cmp: Cmp, orig: seq<Item>, x: Item, r: seq<Item>)
    requires Sorted(cmp, orig, r) && forall y :: y in r ==> Goes(cmp, orig, x, y)
    ensures Sorted(cmp, orig, [x] + r)
  {
    hide Goes;
    var t := [x] + r;
    forall i, j | 0 <= i < j < |t| ensures Goes(cmp, orig, t[i], t[j]) {
      if i > 0 { assert t[i] == r[i - 1] && t[j] == r[j - 1]; } else { assert t[j] == r[j - 1] && r[j - 1] in r; }
    }
  }

  lemma FirstGoes(cmp: Cmp, orig: seq<Item>, p: seq<Item>, q: seq<Item>, y: Item)
    requires Ordering(cmp, orig) && Sorted(cmp, orig, p) && Sorted(cmp, orig, q) && Ahead(orig, p, q)
    requires (forall x :: x in p ==> x in orig) && (forall x :: x in q ==> x in orig)
    requires p != [] && q != [] && cmp(p[0], q[0]) <= 0 && (y in p[1..] || y in q)
    ensures Goes(cmp, orig, p[0], y)
  {
    hide IndexOf;
    assert p[0] in p && q[0] in q;
    if y in p[1..] {
      var i :| 0 <= i < |p[1..]| && p[1..][i] == y;
      assert Goes(cmp, orig, p[0], p[i + 1]);
    } else {
      var i :| 0 <= i < |q| && q[i] == y;
      if i > 0 { assert Goes(cmp, orig, q[0], q[i]); }
    }
  }

  lemma SecondGoes(cmp: Cmp, orig: seq<Item>, p: seq<Item>, q: seq<Item>, y: Item)
    requires Ordering(cmp, orig) && Sorted(cmp, orig, p) && Sorted(cmp, orig, q)
    requires (forall x :: x in p ==> x in orig) && (forall x :: x in q ==> x in orig)
    requires p != [] && q != [] && cmp(p[0], q[0]) > 0 && (y in p || y in q[1..])
    ensures Goes(cmp, orig, q[0], y)
  {
    hide IndexOf;
    assert p[0] in p && q[0] in q;
    if y in q[1..] {
      var i :| 0 <= i < |q[1..]| && q[1..][i] == y;
      assert Goes(cmp, orig, q[0], q[i + 1]);
    } else {
      var i :| 0 <= i < |p| && p[i] == y;
      if i > 0 { assert Goes(cmp, orig, p[0], p[i]); }
    }
  }

  // ---- passes

  function Min(a: nat, b: nat): nat { if a < b then a else b }

  /** One pass: neighbouring runs of k merged. */
  function Pass(cmp: Cmp, s: seq<Item>, k: nat): seq<Item>
    requires k > 0
    decreases |s|
  {
    if s == [] then [] else
    var m, e := Min(k, |s|), Min(2 * k, |s|);
    Merge(cmp, s[..m], s[m..e]) + Pass(cmp, s[e..], k)
  }

  function SortFrom(cmp: Cmp, s: seq<Item>, k: nat): seq<Item>
    requires k > 0
    decreases if |s| > k then |s| - k else 0, 1
  {
    if |s| <= 2 * k then Pass(cmp, s, k) else
    PassLength(cmp, s, k);
    SortFrom(cmp, Pass(cmp, s, k), 2 * k)
  }

  lemma {:induction false} PassItems(cmp: Cmp, s: seq<Item>, k: nat)
    requires k > 0
    ensures multiset(Pass(cmp, s, k)) == multiset(s)
    decreases |s|
  {
    hide Merge;
    if s != [] {
      var m, e := Min(k, |s|), Min(2 * k, |s|);
      MergeItems(cmp, s[..m], s[m..e]);
      PassItems(cmp, s[e..], k);
      ThreeParts(s, m, e);
    }
  }

  lemma ThreeParts(s: seq<Item>, m: nat, e: nat)
    requires m <= e <= |s|
    ensures multiset(s) == multiset(s[..m]) + multiset(s[m..e]) + multiset(s[e..])
  {
    assert s == s[..m] + s[m..e] + s[e..];
  }

  lemma PassLength(cmp: Cmp, s: seq<Item>, k: nat)
    requires k > 0
    ensures |Pass(cmp, s, k)| == |s|
  {
    PassItems(cmp, s, k);
    assert |multiset(s)| == |s| && |multiset(Pass(cmp, s, k))| == |Pass(cmp, s, k)|;
  }

  /** Sorted runs of k, each originally ahead of what follows. */
  ghost predicate Runs(cmp: Cmp, orig: seq<Item>, s: seq<Item>, k: nat)
    requires k > 0
    decreases |s|
  {
    s == [] ||
    var m := Min(k, |s|);
    Sorted(cmp, orig, s[..m]) && Ahead(orig, s[..m], s[m..]) && Runs(cmp, orig, s[m..], k)
  }

  /** A pass turns runs of k into runs of 2k. */
  lemma {:induction false} PassRuns(cmp: Cmp, orig: seq<Item>, s: seq<Item>, k: nat)
    requires k > 0 && Ordering(cmp, orig) && Runs(cmp, orig, s, k) && forall x :: x in s ==> x in orig
    ensures Runs(cmp, orig, Pass(cmp, s, k), 2 * k)
    decreases |s|
  {
    hide Merge, Goes, IndexOf, Ordering;
    if s != [] {
      var m, e := Min(k, |s|), Min(2 * k, |s|);
      var a, b, rest := s[..m], s[m..e], s[e..];
      var tail := s[m..];
      TwoRuns(cmp, orig, s, k);
      MergeSorted(cmp, orig, a, b);
      var r, t := Merge(cmp, a, b), Pass(cmp, rest, k);
      PassRuns(cmp, orig, rest, k);
      MergeItems(cmp, a, b);
      PassItems(cmp, rest, k);
      assert |r| == e by { assert |multiset(r)| == |r| && |multiset(a)| == |a| && |multiset(b)| == |b|; }
      assert forall x :: x in r ==> x in multiset(r);
      assert forall x :: x in t ==> x in multiset(t);
      assert Ahead(orig, r, t);
      RunsGlue(cmp, orig, r, t, 2 * k, |s|);
    }
  }

  lemma RunsGlue(cmp: Cmp, orig: seq<Item>, r: seq<Item>, t: seq<Item>, k: nat, n: nat)
    requires k > 0 && Sorted(cmp, orig, r) && Ahead(orig, r, t) && Runs(cmp, orig, t, k)
    requires |r| == Min(k, n) > 0 && (|r| < k ==> t == [])
    ensures Runs(cmp, orig, r + t, k)
  {
    hide Goes, Sorted, Ahead;
    var s := r + t;
    if |r| < k { assert s == r; }
    var m := Min(k, |s|);
    assert m == |r| && s[..m] == r && s[m..] == t;
  }

  /** The first two runs and the rest. */
  lemma TwoRuns(cmp: Cmp, orig: seq<Item>, s: seq<Item>, k: nat)
    requires k > 0 && s != [] && Runs(cmp, orig, s, k)
    ensures var m, e := Min(k, |s|), Min(2 * k, |s|);
            && Sorted(cmp, orig, s[..m]) && Sorted(cmp, orig, s[m..e]) && Ahead(orig, s[..m], s[m..e])
            && Ahead(orig, s[..m], s[e..]) && Ahead(orig, s[m..e], s[e..]) && Runs(cmp, orig, s[e..], k)
  {
    hide Goes, IndexOf, Ahead, Sorted;
    var m, e := Min(k, |s|), Min(2 * k, |s|);
    var tail := s[m..];
    if tail == [] {
      assert s[m..e] == [] && s[e..] == [];
      NoneAhead(cmp, orig, s[..m]);
    } else {
      var m' := Min(k, |tail|);
      assert m + m' == e;
      Slices(s, m, m');
      AheadPart(orig, s[..m], tail, s[m..e]);
      AheadPart(orig, s[..m], tail, s[e..]);
    }
  }

  lemma Slices(s: seq<Item>, m: nat, n: nat)
    requires m + n <= |s|
    ensures s[m..][..n] == s[m..m + n] && s[m..][n..] == s[m + n..]
    ensures (forall x :: x in s[m..m + n] ==> x in s[m..]) && (forall x :: x in s[m + n..] ==> x in s[m..])
  {
    assert s[m..] == s[m..m + n] + s[m + n..];
  }

  lemma NoneAhead(cmp: Cmp, orig: seq<Item>, a: seq<Item>)
    ensures Ahead(orig, a, []) && Ahead(orig, [], []) && Sorted(cmp, orig, [])
  {
  }

  lemma AheadPart(orig: seq<Item>, a: seq<Item>, b: seq<Item>, c: seq<Item>)
    requires Ahead(orig, a, b) && forall x :: x in c ==> x in b
    ensures Ahead(orig, a, c)
  {
    hide IndexOf;
  }

  lemma {:induction false} SingleRuns(cmp: Cmp, orig: seq<Item>, s: seq<Item>, o: nat)
    requires Distinct(orig) && o <= |orig| && s == orig[o..]
    ensures Runs(cmp, orig, s, 1)
    decreases |s|
  {
    if s != [] {
      SingleRuns(cmp, orig, s[1..], o + 1);
      forall x, y | x in s[..1] && y in s[1..] ensures x in orig && y in orig && IndexOf(orig, x) < IndexOf(orig, y) {
        var j :| 0 <= j < |s[1..]| && s[1..][j] == y;
        IndexIs(orig, o);
        IndexIs(orig, o + 1 + j);
      }
    }
  }

  lemma {:induction false} SortsFrom(cmp: Cmp, orig: seq<Item>, s: seq<Item>, k: nat)
    requires k > 0 && Ordering(cmp, orig) && Runs(cmp, orig, s, k) && multiset(s) == multiset(orig)
    ensures StableSorted(cmp, orig, SortFrom(cmp, s, k))
    decreases if |s| > k then |s| - k else 0
  {
    hide Runs, Pass, Goes, Ordering;
    forall x | x in s ensures x in orig { assert x in multiset(orig); }
    PassRuns(cmp, orig, s, k);
    PassItems(cmp, s, k);
    PassLength(cmp, s, k);
    if |s| <= 2 * k {
      OneRun(cmp, orig, Pass(cmp, s, k), 2 * k);
    } else {
      SortsFrom(cmp, orig, Pass(cmp, s, k), 2 * k);
    }
  }

  lemma OneRun(cmp: Cmp, orig: seq<Item>, s: seq<Item>, k: nat)
    requires k > 0 && |s| <= k && Runs(cmp, orig, s, k)
    ensures Sorted(cmp, orig, s)
  {
    hide Goes;
    if s != [] { assert s[..Min(k, |s|)] == s; }
  }

  /** The algorithm, started with runs of one, sorts stably. */
  lemma SortIsStable(cmp: Cmp, orig: seq<Item>)
    requires Distinct(orig) && Ordering(cmp, orig)
    ensures StableSorted(cmp, orig, SortFrom(cmp, orig, 1))
  {
    assert orig[0..] == orig;
    SingleRuns(cmp, orig, orig, 0);
    SortsFrom(cmp, orig, orig, 1);
  }

  // ---- in place

  ghost predicate NextIs(s: seq<Item>, i: nat)
    requires i < |s|
    reads s`next
  {
    s[i].next == After(s, i)
  }

  /** The output so far: linked both ways, except that its last item's next link is still to be set. */
  ghost predicate Output(list: Item?, tail: Item?, out: seq<Item>)
    reads out`next, out`prev
  {
    && Distinct(out) && list == (if out == [] then null else out[0]) && tail == (if out == [] then null else out[|out| - 1])
    && forall i :: 0 <= i < |out| ==> OutAt(out, i)
  }

  ghost predicate OutAt(out: seq<Item>, i: nat)
    requires i < |out|
    reads out`next, out`prev
  {
    out[i].prev == Before(out, i) && (i + 1 < |out| ==> out[i].next == out[i + 1])
  }

  /** Appends an item to the output; both are within the list being sorted. */
  method Emit(list: Item?, tail: Item?, e: Item, ghost out: seq<Item>, ghost s: seq<Item>) returns (list': Item?, tail': Item?)
    requires Output(list, tail, out) && e !in out && e in s && forall x :: x in out ==> x in s
    modifies s`next, s`prev
    ensures Output(list', tail', out + [e])
    ensures forall x :: x in s && x !in out ==> x.next == old(x.next)
  {
    list' := list;
    if tail != null {
      assert tail in out;
      tail.next := e;
    } else {
      list' := e;
    }
    e.prev := tail;
    tail' := e;
    ghost var t := out + [e];
    forall i | 0 <= i < |t| ensures OutAt(t, i) {
      if i < |out| { assert old(OutAt(out, i)); }
    }
  }

  lemma MergeStep(cmp: Cmp, s: seq<Item>, p: nat, mid: nat, q: nat, end: nat)
    requires p <= mid <= q <= end <= |s| && (p < mid || q < end)
    ensures var whole := Merge(cmp, s[p..mid], s[q..end]);
            if p < mid && (q == end || cmp(s[p], s[q]) <= 0) then whole == [s[p]] + Merge(cmp, s[p + 1..mid], s[q..end])
            else whole == [s[q]] + Merge(cmp, s[p..mid], s[q + 1..end])
  {
    var a, b := s[p..mid], s[q..end];
    if p < mid {
      assert a[0] == s[p] && a[1..] == s[p + 1..mid];
      if q == end { assert Merge(cmp, a[1..], b) == a[1..]; assert a == [a[0]] + a[1..]; }
    } else {
      assert a == [] && s[p..mid] == [];
    }
    if q < end {
      assert b[0] == s[q] && b[1..] == s[q + 1..end];
      if p == mid { assert b == [b[0]] + b[1..]; }
    }
  }

  /** Not yet merged: the first run from p to mid, the second from q on, and everything behind it. */
  ghost predicate Pending(s: seq<Item>, p: nat, mid: nat, q: nat, out: seq<Item>)
    reads s`next
  {
    && (forall i :: 0 <= i < |s| && (p <= i < mid || q <= i) ==> NextIs(s, i) && s[i] !in out)
    && (forall x :: x in out ==> x in s)
  }

  lemma PendingNext(s: seq<Item>, p: nat, mid: nat, q: nat, out: seq<Item>, i: nat)
    requires Pending(s, p, mid, q, out) && i < |s| && (p <= i < mid || q <= i)
    ensures s[i].next == After(s, i)
  {
    assert NextIs(s, i);
  }

  /** Taking one item over keeps what is still pending linked. */
  method TakeOver(list: Item?, tail: Item?, e: Item, ghost out: seq<Item>, ghost s: seq<Item>, ghost p: nat, ghost mid: nat, ghost q: nat,
                  ghost p': nat, ghost q': nat)
    returns (list': Item?, tail': Item?)
    requires Distinct(s) && Output(list, tail, out) && Pending(s, p, mid, q, out)
    requires p <= mid <= q <= |s|
    requires (p < mid && e == s[p] && p' == p + 1 && q' == q) || (q < |s| && e == s[q] && p' == p && q' == q + 1)
    modifies s`next, s`prev
    ensures Output(list', tail', out + [e]) && Pending(s, p', mid, q', out + [e])
  {
    hide Output;
    assert e !in out && e in s;
    assert forall x :: x in out ==> x in s;
    list', tail' := Emit(list, tail, e, out, s);
    forall i | 0 <= i < |s| && (p' <= i < mid || q' <= i) ensures NextIs(s, i) && s[i] !in out + [e] {
      assert old(NextIs(s, i)) && s[i] !in out && s[i] in s;
    }
  }

  /** The merge loop of the source: two neighbouring runs of the list moved to the output. */
  method MergeRun(cmp: Cmp, p0: Item?, q0: Item?, psize0: nat, qsize0: nat, list0: Item?, tail0: Item?,
                  ghost s: seq<Item>, ghost pos: nat, ghost out0: seq<Item>)
    returns (list: Item?, tail: Item?, q: Item?, ghost out: seq<Item>)
    requires Distinct(s) && psize0 > 0 && pos + psize0 <= |s| && p0 == s[pos]
    requires q0 == (if pos + psize0 < |s| then s[pos + psize0] else null)
    requires Output(list0, tail0, out0) && Pending(s, pos, pos + psize0, pos + psize0, out0)
    modifies s`next, s`prev
    ensures var mid, end := pos + psize0, Min(pos + psize0 + qsize0, |s|);
            && out == out0 + Merge(cmp, s[pos..mid], s[mid..end])
            && Output(list, tail, out) && Pending(s, mid, mid, end, out)
            && q == (if end < |s| then s[end] else null)
  {
    hide Output, Merge, Pending;
    ghost var mid, end := pos + psize0, Min(pos + psize0 + qsize0, |s|);
    ghost var pp, qq := pos, mid;
    var p, psize, qsize := p0, psize0, qsize0;
    list, tail, q, out := list0, tail0, q0, out0;
    while psize != 0 || (qsize != 0 && q != null)
      invariant pos <= pp && pp + psize == mid && mid <= qq <= end && qq + qsize == mid + qsize0
      invariant psize > 0 ==> p == s[pp]
      invariant q == if qq < |s| then s[qq] else null
      invariant out + Merge(cmp, s[pp..mid], s[qq..end]) == out0 + Merge(cmp, s[pos..mid], s[mid..end])
      invariant Output(list, tail, out) && Pending(s, pp, mid, qq, out)
      decreases psize + qsize
    {
      MergeStep(cmp, s, pp, mid, qq, end);
      var e: Item;
      ghost var pp', qq' := pp, qq;
      if psize == 0 {
        PendingNext(s, pp, mid, qq, out, qq);
        e, q, qsize, qq' := q, q.next, qsize - 1, qq + 1;
      } else if qsize == 0 || q == null {
        PendingNext(s, pp, mid, qq, out, pp);
        e, p, psize, pp' := p, p.next, psize - 1, pp + 1;
      } else if cmp(p, q) <= 0 {
        PendingNext(s, pp, mid, qq, out, pp);
        e, p, psize, pp' := p, p.next, psize - 1, pp + 1;
      } else {
        PendingNext(s, pp, mid, qq, out, qq);
        e, q, qsize, qq' := q, q.next, qsize - 1, qq + 1;
      }
      list, tail := TakeOver(list, tail, e, out, s, pp, mid, qq, pp', qq');
      assert out + ([e] + Merge(cmp, s[pp'..mid], s[qq'..end])) == out + [e] + Merge(cmp, s[pp'..mid], s[qq'..end]);
      out, pp, qq := out + [e], pp', qq';
    }
    NothingLeft(cmp, s, mid, end);
    assert out + [] == out;
  }

  lemma NothingLeft(cmp: Cmp, s: seq<Item>, mid: nat, end: nat)
    requires mid <= end <= |s|
    ensures Merge(cmp, s[mid..mid], s[end..end]) == []
  {
  }

  /** Steps over at most `insize` items: how many, and where it stopped. */
  method StepOver(p: Item, insize: nat, ghost s: seq<Item>, ghost pos: nat) returns (psize: nat, q: Item?)
    requires pos < |s| && p == s[pos] && insize > 0 && forall i :: pos <= i < |s| ==> NextIs(s, i)
    ensures psize == Min(insize, |s| - pos)
    ensures q == if pos + psize < |s| then s[pos + psize] else null
  {
    q := p;
    psize := 0;
    for i := 0 to insize
      invariant psize == i && pos + i < |s| && q == s[pos + i]
    {
      assert NextIs(s, pos + i);
      psize := psize + 1;
      q := q.next;
      if q == null { return; }
    }
  }

  /** One pair of runs. */
  method PassPair(cmp: Cmp, p: Item, insize: nat, list0: Item?, tail0: Item?, ghost s: seq<Item>, ghost pos: nat, ghost out0: seq<Item>)
    returns (list: Item?, tail: Item?, q: Item?, ghost out: seq<Item>, ghost end: nat)
    requires Distinct(s) && insize > 0 && pos < |s| && p == s[pos]
    requires Output(list0, tail0, out0) && Pending(s, pos, pos, pos, out0)
    modifies s`next, s`prev
    ensures end == Min(pos + 2 * insize, |s|) && q == (if end < |s| then s[end] else null)
    ensures Output(list, tail, out) && Pending(s, end, end, end, out)
    ensures out + Pass(cmp, s[end..], insize) == out0 + Pass(cmp, s[pos..], insize)
  {
    hide Output, Merge, Pass, Pending;
    AllPending(s, pos, out0);
    var psize, next := StepOver(p, insize, s, pos);
    ghost var mid := pos + psize;
    end := Min(mid + insize, |s|);
    PassStep(cmp, s, pos, insize, mid, end);
    SplitPending(s, pos, mid, out0);
    ghost var merged, rest := Merge(cmp, s[pos..mid], s[mid..end]), Pass(cmp, s[end..], insize);
    list, tail, q, out := MergeRun(cmp, p, next, psize, insize, list0, tail0, s, pos, out0);
    Regroup(out0, merged, rest);
    JoinPending(s, mid, end, out);
  }

  lemma Regroup(a: seq<Item>, b: seq<Item>, c: seq<Item>)
    ensures a + (b + c) == a + b + c
  {
  }

  /** One pass over the list: the pairs of runs merged one after the other. */
  method SortPass(cmp: Cmp, first: Item, insize: nat, ghost s: seq<Item>) returns (list: Item?, tail: Item?, nmerges: nat, ghost out: seq<Item>)
    requires Distinct(s) && s != [] && first == s[0] && insize > 0 && forall i :: 0 <= i < |s| ==> NextIs(s, i)
    modifies s`next, s`prev
    ensures out == Pass(cmp, s, insize) && Output(list, tail, out)
    ensures nmerges <= 1 <==> |s| <= 2 * insize
  {
    hide Output, Merge, Pass, Pending;
    var p: Item? := first;
    ghost var pos := 0;
    list, tail, nmerges, out := null, null, 0, [];
    NoOutput(s);
    assert s[0..] == s && [] + Pass(cmp, s, insize) == Pass(cmp, s, insize);
    while p != null
      invariant pos <= |s| && p == (if pos < |s| then s[pos] else null)
      invariant Output(list, tail, out) && Pending(s, pos, pos, pos, out)
      invariant out + Pass(cmp, s[pos..], insize) == Pass(cmp, s, insize)
      invariant nmerges == 0 ==> pos == 0
      invariant nmerges == 1 ==> pos == Min(2 * insize, |s|)
      invariant nmerges > 1 ==> |s| > 2 * insize
      decreases |s| - pos
    {
      nmerges := nmerges + 1;
      list, tail, p, out, pos := PassPair(cmp, p, insize, list, tail, s, pos, out);
    }
    PassNothing(cmp, s, insize);
    assert out + [] == out;
  }

  lemma AllPending(s: seq<Item>, pos: nat, out: seq<Item>)
    requires Pending(s, pos, pos, pos, out)
    ensures forall i :: pos <= i < |s| ==> NextIs(s, i)
  {
  }

  lemma SplitPending(s: seq<Item>, pos: nat, mid: nat, out: seq<Item>)
    requires Pending(s, pos, pos, pos, out) && pos <= mid
    ensures Pending(s, pos, mid, mid, out)
  {
  }

  lemma JoinPending(s: seq<Item>, mid: nat, end: nat, out: seq<Item>)
    requires Pending(s, mid, mid, end, out)
    ensures Pending(s, end, end, end, out)
  {
  }

  lemma NoOutput(s: seq<Item>)
    requires forall i :: 0 <= i < |s| ==> NextIs(s, i)
    ensures Output(null, null, []) && Pending(s, 0, 0, 0, [])
  {
  }

  lemma PassStep(cmp: Cmp, s: seq<Item>, pos: nat, k: nat, mid: nat, end: nat)
    requires k > 0 && pos < |s| && mid == pos + Min(k, |s| - pos) && end == Min(mid + k, |s|)
    ensures Pass(cmp, s[pos..], k) == Merge(cmp, s[pos..mid], s[mid..end]) + Pass(cmp, s[end..], k)
    ensures end == Min(pos + 2 * k, |s|)
  {
    hide Merge;
    var r := s[pos..];
    var m, e := Min(k, |r|), Min(2 * k, |r|);
    assert r[..m] == s[pos..pos + m] && r[m..e] == s[pos + m..pos + e] && r[e..] == s[pos + e..];
  }

  lemma PassNothing(cmp: Cmp, s: seq<Item>, k: nat)
    requires k > 0
    ensures Pass(cmp, s[|s|..], k) == []
  {
  }

  // ---- the sort

  /** Closes the output of a pass: with its last link cut it is a list again. */
  method CloseList(list: Item?, tail: Item?, ghost out: seq<Item>)
    requires Output(list, tail, out) && out != []
    modifies out`next
    ensures AppList(list, tail, out) && forall i :: 0 <= i < |out| ==> NextIs(out, i)
  {
    if tail != null { tail.next := null; }
    forall i | 0 <= i < |out| ensures AppAt(out, i) && NextIs(out, i) {
      assert old(OutAt(out, i));
    }
  }

  lemma SameItems(a: seq<Item>, b: seq<Item>)
    requires multiset(a) == multiset(b)
    ensures Elems(a) == Elems(b) && |a| == |b|
    ensures forall i :: 0 <= i < |a| ==> a[i] in Elems(b)
    ensures (forall x :: x in a ==> x in b) && (forall x :: x in b ==> x in a)
  {
    forall x | x in a ensures x in b { assert x in multiset(a); }
    forall x | x in b ensures x in a { assert x in multiset(b); }
    assert forall i :: 0 <= i < |a| ==> a[i] in a;
    assert |multiset(a)| == |a| && |multiset(b)| == |b|;
  }

  lemma NextLinks(head: Item?, tail: Item?, s: seq<Item>)
    requires AppList(head, tail, s)
    ensures s != [] && Distinct(s) && head == s[0] && forall i :: 0 <= i < |s| ==> NextIs(s, i)
  {
    forall i | 0 <= i < |s| ensures NextIs(s, i) { assert AppAt(s, i); }
  }

  /** Sorts the application order; what is in the table and its buckets does not change. */
  method SortTable(t: Table, cmp: Cmp)
    requires t.Fsck() && Ordering(cmp, t.app)
    modifies t`head, t`tail, t`app, Elems(t.app)`next, Elems(t.app)`prev
    ensures t.Fsck() && StableSorted(cmp, old(t.app), t.app)
  {
    hide AppList, Filed, Linked, Pass, Output, Ordering, Sorted;
    if t.head == null {
      NothingSorted(cmp, t.app);
      return;
    }
    ghost var orig := t.app;
    NextLinks(t.head, t.tail, orig);
    SortIsStable(cmp, orig);
    var list: Item? := t.head;
    var insize, looping := 1, true;
    ghost var s := orig;
    while looping
      invariant insize > 0 && s != [] && Distinct(s) && multiset(s) == multiset(orig)
      invariant looping ==> list == s[0] && SortFrom(cmp, s, insize) == SortFrom(cmp, orig, 1)
      invariant looping ==> forall i :: 0 <= i < |s| ==> NextIs(s, i)
      invariant !looping ==> s == SortFrom(cmp, orig, 1) && AppList(t.head, t.tail, s) && t.head != null
      invariant t.app == orig
      decreases looping, if |s| > insize then |s| - insize else 0
    {
      SameItems(s, orig);
      var tail, nmerges;
      ghost var out;
      list, tail, nmerges, out := SortPass(cmp, list, insize, s);
      PassItems(cmp, s, insize);
      SameItems(out, s);
      CloseList(list, tail, out);
      NextLinks(list, tail, out);
      if nmerges <= 1 {
        looping := false;
        t.tail, t.head := tail, list;
      }
      s, insize := out, insize * 2;
    }
    SameItems(s, orig);
    t.app := s;
  }

  lemma NothingSorted(cmp: Cmp, s: seq<Item>)
    requires s == []
    ensures StableSorted(cmp, s, s)
  {
  }
}
