/** The hash table of uthash: items linked in application order and, by the same handles, in bucket
    chains. `Fsck` is the integrity check the source can compile in, as an invariant. */
module UtHash {

  type Key = seq<int>

  const INITIAL_BUCKETS := 32
  const CAPACITY_THRESHOLD := 10

  class Item {
    const key: Key
    const hashv: nat
    var next: Item?          // application order
    var prev: Item?
    var hhNext: Item?        // bucket order
    var hhPrev: Item?

    constructor (key: Key, hashv: nat)
      ensures this.key == key && this.hashv == hashv
      ensures next == prev == hhNext == hhPrev == null
    {
      this.key, this.hashv := key, hashv;
      next, prev, hhNext, hhPrev := null, null, null, null;
    }
  }

  datatype Bucket = Bucket(head: Item?, count: nat, expandMult: nat)

  ghost predicate Distinct(s: seq<Item>) { forall i, j :: 0 <= i < j < |s| ==> s[i] != s[j] }

  function After(s: seq<Item>, i: nat): Item?
    requires i < |s|
  {
    if i + 1 < |s| then s[i + 1] else null
  }

  function Before(s: seq<Item>, i: nat): Item?
    requires i < |s|
  {
    if i > 0 then s[i - 1] else null
  }

  // ---- the application order

  ghost predicate AppAt(s: seq<Item>, i: nat)
    requires i < |s|
    reads s`next, s`prev
  {
    s[i].next == After(s, i) && s[i].prev == Before(s, i)
  }

  ghost predicate AppList(head: Item?, tail: Item?, s: seq<Item>)
    reads s`next, s`prev
  {
    && s != [] && Distinct(s) && head == s[0] && tail == s[|s| - 1]
    && forall i :: 0 <= i < |s| ==> AppAt(s, i)
  }

  // ---- bucket chains

  ghost predicate ChainAt(s: seq<Item>, i: nat)
    requires i < |s|
    reads s`hhNext, s`hhPrev
  {
    s[i].hhNext == After(s, i) && s[i].hhPrev == Before(s, i)
  }

  ghost predicate Chain(b: Bucket, s: seq<Item>)
    reads s`hhNext, s`hhPrev
  {
    && Distinct(s) && b.count == |s| && b.head == (if s == [] then null else s[0])
    && forall i :: 0 <= i < |s| ==> ChainAt(s, i)
  }

  ghost predicate Within(s: seq<Item>, all: set<Item>) { forall x :: x in s ==> x in all }

  // ---- masks and shifts

  function Pow2(k: nat): (p: nat)
    ensures p > 0
  {
    if k == 0 then 1 else 2 * Pow2(k - 1)
  }

  lemma DoubledPow2(k: nat)
    ensures Pow2(k + 1) == 2 * Pow2(k)
  {
  }

  /** The bits that two numbers have in common. */
  function And(a: nat, b: nat): (r: nat)
    ensures r <= b
  {
    if a == 0 || b == 0 then 0 else 2 * And(a / 2, b / 2) + (a % 2) * (b % 2)
  }

  function ShiftRight(n: nat, k: nat): nat
  {
    if k == 0 then n else ShiftRight(n / 2, k - 1)
  }

  /** Masking by one less than a power of two is the remainder. */
  lemma {:induction false} MaskIsRemainder(n: nat, k: nat)
    ensures And(n, Pow2(k) - 1) == n % Pow2(k)
  {
    hide Pow2, And;
    if k == 0 {
      NoMask(n);
    } else {
      var p := Pow2(k - 1);
      MaskIsRemainder(n / 2, k - 1);
      DoubledPow2(k - 1);
      LowestBit(n, p);
      HalvedRemainder(n, p);
    }
  }

  lemma NoMask(n: nat)
    ensures Pow2(0) == 1 && And(n, 0) == 0
  {
  }

  lemma LowestBit(n: nat, p: nat)
    requires p > 0
    ensures And(n, 2 * p - 1) == 2 * And(n / 2, p - 1) + n % 2
  {
    assert (2 * p - 1) / 2 == p - 1 && (2 * p - 1) % 2 == 1;
    if n == 0 { assert And(0, p - 1) == 0; }
  }

  lemma HalvedRemainder(n: nat, p: nat)
    requires p > 0
    ensures n % (2 * p) == 2 * (n / 2 % p) + n % 2 && n / (2 * p) == n / 2 / p
  {
    var h := n / 2;
    var q, r := h / p, h % p;
    assert h == p * q + r;
    assert n == 2 * h + n % 2;
    assert n == (2 * p) * q + (2 * r + n % 2) by { assert (2 * p) * q == 2 * (p * q); }
    QuotientIs(n, 2 * p, q, 2 * r + n % 2);
  }

  lemma QuotientIs(n: nat, d: nat, q: nat, r: nat)
    requires n == d * q + r && r < d
    ensures n / d == q && n % d == r
  {
    var e := q - n / d;
    assert d * e == d * q - d * (n / d);
    assert d * e == n % d - r;
    Multiple(d, e);
  }

  lemma Multiple(d: nat, e: int)
    ensures e >= 1 ==> d * e >= d
    ensures e <= -1 ==> d * e + d <= 0
  {
    if e >= 1 { assert d * (e - 1) >= 0; }
    if e <= -1 { assert d * (-e - 1) >= 0; }
  }

  lemma {:induction false} ShiftIsQuotient(n: nat, k: nat)
    ensures ShiftRight(n, k) == n / Pow2(k)
  {
    if k > 0 {
      ShiftIsQuotient(n / 2, k - 1);
      HalvedRemainder(n, Pow2(k - 1));
    }
  }

  /** The bucket of a hash value. */
  function ToBkt(hashv: nat, buckets: nat): (b: nat)
    requires buckets > 0
    ensures b < buckets
  {
    And(hashv, buckets - 1)
  }

  /** With a power of two of buckets, which every table has, the bucket is the remainder. */
  lemma ToBktIsRemainder(t: Table, hashv: nat)
    requires t.Fsck() && t.head != null
    ensures t.buckets.Length > 0 && ToBkt(hashv, t.buckets.Length) == hashv % t.buckets.Length
  {
    hide Filed, Linked, AppList, And;
    MaskIsRemainder(hashv, t.log2);
  }

  /** The ideal chain length as an expansion computes it: items over buckets, rounded up. */
  lemma IdealLength(n: nat, k: nat)
    ensures ShiftRight(n, k) + (if And(n, Pow2(k) - 1) != 0 then 1 else 0) == CeilDiv(n, Pow2(k))
  {
    hide And, ShiftRight;
    MaskIsRemainder(n, k);
    ShiftIsQuotient(n, k);
  }

  /** Each item is in the chain of its own bucket, and nothing else is in the chains. */
  ghost predicate Filed(all: set<Item>, chains: seq<seq<Item>>) {
    && |chains| > 0
    && (forall b, x :: 0 <= b < |chains| && x in chains[b] ==> x in all && ToBkt(x.hashv, |chains|) == b)
    && (forall x :: x in all ==> x in chains[ToBkt(x.hashv, |chains|)])
  }

  ghost function Elems(s: seq<Item>): (r: set<Item>)
    ensures (forall x :: x in r ==> x in s) && (forall x :: x in s ==> x in r)
  {
    set x | x in s
  }

  /** Buckets and their chains. */
  ghost predicate Linked(buckets: seq<Bucket>, chains: seq<seq<Item>>, all: set<Item>)
    reads all`hhNext, all`hhPrev
  {
    && |buckets| == |chains|
    && forall b :: 0 <= b < |chains| ==> Within(chains[b], all) && Chain(buckets[b], chains[b])
  }

  /** The number of items in all chains. */
  function Total(chains: seq<seq<Item>>): nat {
    if chains == [] then 0 else Total(chains[..|chains| - 1]) + |chains[|chains| - 1]|
  }

  /** The bucket counts add up to the number of items. */
  lemma CountsAddUp(all: set<Item>, chains: seq<seq<Item>>)
    requires Filed(all, chains) && forall b :: 0 <= b < |chains| ==> Distinct(chains[b])
    ensures Total(chains) == |all|
  {
    hide Total, ToBkt;
    assert InFirst(all, |chains|, |chains|) == all;
    assert chains[..|chains|] == chains;
    FirstBuckets(all, chains, |chains|);
  }

  /** The items whose bucket is one of the first n. */
  ghost function InFirst(all: set<Item>, buckets: nat, n: nat): set<Item>
    requires buckets > 0
  {
    set x | x in all && ToBkt(x.hashv, buckets) < n
  }

  lemma {:induction false} FirstBuckets(all: set<Item>, chains: seq<seq<Item>>, n: nat)
    requires Filed(all, chains) && n <= |chains| && forall b :: 0 <= b < |chains| ==> Distinct(chains[b])
    ensures Total(chains[..n]) == |InFirst(all, |chains|, n)|
  {
    hide ToBkt, Total, Elems, Filed;
    SomeBuckets(all, chains);
    NoChains();
    if n == 0 {
      assert InFirst(all, |chains|, 0) == {};
    } else {
      hide InFirst;
      FirstBuckets(all, chains, n - 1);
      OneBucket(all, chains, n - 1);
      DistinctCount(chains[n - 1]);
      TotalNext(chains, n);
    }
  }

  lemma NoChains()
    ensures Total([]) == 0
  {
  }

  lemma TotalNext(chains: seq<seq<Item>>, n: nat)
    requires 0 < n <= |chains|
    ensures Total(chains[..n]) == Total(chains[..n - 1]) + |chains[n - 1]|
  {
    assert chains[..n][..n - 1] == chains[..n - 1];
  }

  lemma OneBucket(all: set<Item>, chains: seq<seq<Item>>, b: nat)
    requires Filed(all, chains) && b < |chains|
    ensures InFirst(all, |chains|, b + 1) == InFirst(all, |chains|, b) + Elems(chains[b])
    ensures InFirst(all, |chains|, b) !! Elems(chains[b])
  {
    hide ToBkt;
  }

  lemma {:induction false} DistinctCount(s: seq<Item>)
    requires Distinct(s)
    ensures |Elems(s)| == |s|
  {
    if s != [] {
      var q := s[..|s| - 1];
      DistinctCount(q);
      assert s[|s| - 1] !in q;
      assert Elems(s) == Elems(q) + {s[|s| - 1]};
    }
  }

  // ---- bucket operations

  /** Puts an item at the head of a chain. */
  method PushChain(bkt: Bucket, add: Item, ghost s: seq<Item>) returns (r: Bucket)
    requires Chain(bkt, s) && add !in s
    modifies add`hhNext, add`hhPrev, s`hhPrev
    ensures Chain(r, [add] + s) && r.expandMult == bkt.expandMult && r.count == bkt.count + 1
  {
    add.hhNext := bkt.head;
    add.hhPrev := null;
    if bkt.head != null { bkt.head.hhPrev := add; }
    r := Bucket(add, bkt.count + 1, bkt.expandMult);
    ghost var t := [add] + s;
    forall i | 0 <= i < |t| ensures ChainAt(t, i) {
      if i > 0 { assert old(ChainAt(s, i - 1)); }
    }
  }

  /** Takes an item out of a chain by its own links. */
  method DropChain(bkt: Bucket, del: Item, ghost s: seq<Item>, ghost at: nat) returns (r: Bucket)
    requires Chain(bkt, s) && at < |s| && s[at] == del
    modifies s`hhNext, s`hhPrev
    ensures Chain(r, s[..at] + s[at + 1..]) && r.expandMult == bkt.expandMult
  {
    assert ChainAt(s, at);
    if at > 0 { assert ChainAt(s, at - 1); }
    if at + 1 < |s| { assert ChainAt(s, at + 1); }
    var first := if bkt.head == del then del.hhNext else bkt.head;
    if del.hhPrev != null { del.hhPrev.hhNext := del.hhNext; }
    if del.hhNext != null { del.hhNext.hhPrev := del.hhPrev; }
    r := Bucket(first, bkt.count - 1, bkt.expandMult);
    ghost var t := s[..at] + s[at + 1..];
    forall i | 0 <= i < |t| ensures ChainAt(t, i) {
      assert old(ChainAt(s, if i < at then i else i + 1));
    }
  }

  /** Files an item that is in none of the chains. */
  method PushBucket(buckets: array<Bucket>, add: Item, ghost chains: seq<seq<Item>>, ghost all: set<Item>)
    returns (b: nat, ghost chains': seq<seq<Item>>)
    requires Filed(all, chains) && Linked(buckets[..], chains, all) && add !in all
    modifies buckets, add`hhNext, add`hhPrev, all`hhPrev
    ensures b == ToBkt(add.hashv, |chains|) && b < |chains| && chains' == chains[b := [add] + chains[b]]
    ensures Filed(all + {add}, chains') && Linked(buckets[..], chains', all + {add})
    ensures buckets[b].count == old(buckets[b].count) + 1 && buckets[b].expandMult == old(buckets[b].expandMult)
    ensures forall k :: 0 <= k < buckets.Length && k != b ==> buckets[k] == old(buckets[k])
  {
    hide ToBkt;
    b := ToBkt(add.hashv, buckets.Length);
    ghost var s := chains[b];
    assert Chain(buckets[..][b], s);
    var bkt := PushChain(buckets[b], add, s);
    buckets[b] := bkt;
    chains' := chains[b := [add] + s];
    forall k | 0 <= k < |chains'| ensures Within(chains'[k], all + {add}) && Chain(buckets[..][k], chains'[k]) {
      assert old(Chain(buckets[..][k], chains[k]));
      if k != b {
        Apart(all, chains, k, b);
        forall i | 0 <= i < |chains[k]| ensures ChainAt(chains[k], i) {
          assert old(ChainAt(chains[k], i));
        }
      }
    }
    FiledMore(all, chains, add);
  }

  lemma Apart(all: set<Item>, chains: seq<seq<Item>>, k: nat, b: nat)
    requires Filed(all, chains) && k < |chains| && b < |chains| && k != b
    ensures forall i :: 0 <= i < |chains[k]| ==> chains[k][i] !in chains[b] && chains[k][i] in all
  {
    hide ToBkt;
    forall i | 0 <= i < |chains[k]| ensures chains[k][i] !in chains[b] && chains[k][i] in all {
      Home(all, chains, k, chains[k][i]);
      Home(all, chains, b, chains[k][i]);
    }
  }

  lemma Home(all: set<Item>, chains: seq<seq<Item>>, b: nat, x: Item)
    requires Filed(all, chains) && b < |chains|
    ensures x in chains[b] ==> ToBkt(x.hashv, |chains|) == b && x in all
  {
    hide ToBkt;
  }

  lemma ChainFirst(bkt: Bucket, s: seq<Item>)
    requires Chain(bkt, s)
    ensures bkt.head == (if s == [] then null else s[0]) && Distinct(s)
    ensures forall t :: 0 <= t < |s| ==> s[t].hhNext == After(s, t)
  {
    forall t | 0 <= t < |s| ensures s[t].hhNext == After(s, t) { assert ChainAt(s, t); }
  }

  /** Of all items, exactly those whose old bucket is below i are done. */
  ghost predicate Below(all: set<Item>, done: set<Item>, buckets: nat, i: nat)
    requires buckets > 0
  {
    done <= all && forall x :: x in all ==> (x in done <==> ToBkt(x.hashv, buckets) < i)
  }

  lemma NothingFiled(buckets: seq<Bucket>, chains: seq<seq<Item>>)
    requires |buckets| == |chains| > 0 && (forall b :: 0 <= b < |chains| ==> chains[b] == [] && buckets[b] == Bucket(null, 0, 0))
    ensures Filed({}, chains) && Linked(buckets, chains, {})
  {
  }

  lemma SomeBuckets(all: set<Item>, chains: seq<seq<Item>>)
    requires Filed(all, chains)
    ensures |chains| > 0
  {
  }

  lemma NothingDone(all: set<Item>, buckets: nat)
    requires buckets > 0
    ensures Below(all, {}, buckets, 0)
  {
  }

  lemma AllChains(buckets: seq<Bucket>, chains: seq<seq<Item>>, all: set<Item>)
    requires Linked(buckets, chains, all)
    ensures |buckets| == |chains| && forall b :: 0 <= b < |chains| ==> Chain(buckets[b], chains[b])
  {
    hide Chain;
  }

  /** The items of the next chain are not done yet; with them done, those below the next index are. */
  lemma Unfiled(all: set<Item>, chains: seq<seq<Item>>, i: nat, done: set<Item>)
    requires Filed(all, chains) && i < |chains| && Below(all, done, |chains|, i)
    ensures done !! Elems(chains[i]) && Below(all, done + Elems(chains[i]), |chains|, i + 1)
    ensures (forall x :: x in done ==> x in all) && (forall x :: x in chains[i] ==> x in all)
  {
    hide ToBkt;
    forall x | x in chains[i] ensures x !in done && x in all { Home(all, chains, i, x); }
    forall x | x in all ensures x in done + Elems(chains[i]) <==> ToBkt(x.hashv, |chains|) < i + 1 {
      Home(all, chains, i, x);
    }
  }

  /** A later chain shares no item with what is being filed. */
  lemma Untouched(all: set<Item>, chains: seq<seq<Item>>, i: nat, b: nat, done: set<Item>)
    requires Filed(all, chains) && i < b < |chains| && Below(all, done, |chains|, i)
    ensures forall x :: x in chains[b] ==> x !in chains[i] && x !in done && x in all
  {
    hide ToBkt;
    forall x | x in chains[b] ensures x !in chains[i] && x !in done && x in all {
      Home(all, chains, b, x);
      Home(all, chains, i, x);
    }
  }

  lemma AllFiled(all: set<Item>, done: set<Item>, buckets: nat)
    requires buckets > 0 && Below(all, done, buckets, buckets)
    ensures done == all
  {
    hide ToBkt;
    forall x | x in all ensures x in done { assert ToBkt(x.hashv, buckets) < buckets; }
  }

  lemma ElemsNone(s: seq<Item>)
    ensures Elems(s[..0]) == {}
  {
  }

  lemma ElemsNext(s: seq<Item>, k: nat)
    requires k < |s|
    ensures Elems(s[..k + 1]) == Elems(s[..k]) + {s[k]}
  {
    assert s[..k + 1] == s[..k] + [s[k]];
  }

  lemma NotYet(s: seq<Item>, k: nat, done: set<Item>)
    requires Distinct(s) && k < |s| && done !! Elems(s)
    ensures s[k] !in done + Elems(s[..k])
  {
    assert s[k] in s;
  }

  /** The multiplier is no part of what the chains mean. */
  lemma MultiplierApart(buckets: seq<Bucket>, chains: seq<seq<Item>>, all: set<Item>, j: nat)
    requires Linked(buckets, chains, all) && j < |buckets|
    ensures Linked(buckets[j := buckets[j].(expandMult := buckets[j].expandMult + 1)], chains, all)
  {
  }

  lemma SameLength(buckets: seq<Bucket>, chains: seq<seq<Item>>, all: set<Item>)
    requires Linked(buckets, chains, all)
    ensures |buckets| == |chains|
  {
  }

  lemma FiledMore(all: set<Item>, chains: seq<seq<Item>>, add: Item)
    requires Filed(all, chains) && add !in all
    ensures var b := ToBkt(add.hashv, |chains|); Filed(all + {add}, chains[b := [add] + chains[b]])
  {
    hide ToBkt;
  }

  // ---- how well the items are spread

  /** Items beyond the ideal length of their chains. */
  function Excess(chains: seq<seq<Item>>, ideal: nat): nat {
    if chains == [] then 0 else
    Excess(chains[..|chains| - 1], ideal) + if |chains[|chains| - 1]| > ideal then |chains[|chains| - 1]| - ideal else 0
  }

  /** How often a chain's limit has been raised when c items have been filed in it, one by one. */
  function Raised(c: nat, ideal: nat): nat {
    if c == 0 then 0 else
    var m := Raised(c - 1, ideal);
    if c > ideal && c > m * ideal then m + 1 else m
  }

  ghost predicate Spread(buckets: seq<Bucket>, ideal: nat) {
    forall b :: 0 <= b < |buckets| ==> buckets[b].expandMult == Raised(buckets[b].count, ideal)
  }

  lemma {:induction false} ExcessOfOne(chains: seq<seq<Item>>, b: nat, s: seq<Item>, ideal: nat)
    requires b < |chains| && |s| == |chains[b]| + 1
    ensures Excess(chains[b := s], ideal) == Excess(chains, ideal) + if |s| > ideal then 1 else 0
  {
    var n := |chains| - 1;
    var t := chains[b := s];
    if b < n {
      ExcessOfOne(chains[..n], b, s, ideal);
      assert t[..n] == chains[..n][b := s];
    } else {
      assert t[..n] == chains[..n];
    }
  }

  lemma {:induction false} NoExcess(chains: seq<seq<Item>>, ideal: nat)
    requires forall b :: 0 <= b < |chains| ==> chains[b] == []
    ensures Excess(chains, ideal) == 0
  {
    if chains != [] { NoExcess(chains[..|chains| - 1], ideal); }
  }

  lemma CountOf(buckets: seq<Bucket>, chains: seq<seq<Item>>, all: set<Item>, b: nat)
    requires Linked(buckets, chains, all) && b < |buckets|
    ensures |buckets| == |chains| && buckets[b].count == |chains[b]|
  {
    assert Chain(buckets[b], chains[b]);
  }

  /** The limit of a chain of c items has been raised to its length over the ideal, rounded up; to one less
      while a single item exceeds the ideal, and always if the ideal is one. */
  lemma {:induction false} RaisedIs(c: nat, ideal: nat)
    requires ideal > 0
    ensures c <= ideal ==> Raised(c, ideal) == 0
    ensures c > ideal ==> Raised(c, ideal) == CeilDiv(c, ideal) - if c == ideal + 1 || ideal == 1 then 1 else 0
  {
    hide CeilDiv;
    if c > 0 {
      RaisedIs(c - 1, ideal);
      if c > ideal { RaisedOnce(c, ideal); }
    }
  }

  lemma RaisedOnce(c: nat, ideal: nat)
    requires ideal > 0 && c > ideal
    ensures c - 1 > ideal ==> CeilDiv(c, ideal) == CeilDiv(c - 1, ideal) + if c > CeilDiv(c - 1, ideal) * ideal then 1 else 0
    ensures c == ideal + 1 ==> CeilDiv(c, ideal) == 2
    ensures c == ideal + 2 && ideal > 1 ==> CeilDiv(c, ideal) == 2
    ensures ideal == 1 ==> CeilDiv(c, ideal) == c
  {
    hide CeilDiv;
    CeilIs(c, ideal, CeilDiv(c, ideal));
    var m := CeilDiv(c - 1, ideal);
    if c > m * ideal { CeilIs(c, ideal, m + 1); } else { CeilIs(c, ideal, m); }
    CeilIs(c, ideal, 2);
    if ideal == 1 { CeilIs(c, 1, c); }
  }

  lemma CeilIs(n: nat, b: nat, c: nat)
    requires b > 0
    ensures c * b >= n && (c > 0 ==> (c - 1) * b < n) ==> CeilDiv(n, b) == c
  {
    hide CeilDiv;
    var d := CeilDiv(n, b);
    if c * b >= n && (c > 0 ==> (c - 1) * b < n) {
      if d < c { Longer(d, c - 1, b); }
      if c < d { Longer(c, d - 1, b); }
    }
  }

  lemma Longer(a: nat, c: nat, b: nat)
    requires a <= c
    ensures a * b <= c * b
  {
    assert c * b == a * b + (c - a) * b;
  }

  lemma NothingRaised(buckets: seq<Bucket>, ideal: nat)
    requires forall b :: 0 <= b < |buckets| ==> buckets[b] == Bucket(null, 0, 0)
    ensures Spread(buckets, ideal)
  {
  }

  /** The chain that a new item joins has then reached its limit. */
  ghost predicate Crowded(buckets: seq<Bucket>, chains: seq<seq<Item>>, add: Item, noexpand: bool)
    reads add
  {
    && |buckets| == |chains| > 0 && !noexpand
    && var b := ToBkt(add.hashv, |buckets|);
       |chains[b]| + 1 >= (buckets[b].expandMult + 1) * CAPACITY_THRESHOLD
  }

  class Table {
    var head: Item?
    var tail: Item?
    var buckets: array<Bucket>
    var log2: nat
    var numItems: nat
    var idealMax: nat
    var nonideal: nat
    var ineffective: nat
    var noexpand: bool
    ghost var app: seq<Item>
    ghost var chains: seq<seq<Item>>

    /** The integrity of the table. With no head there is no table and nothing to check. */
    ghost predicate Fsck()
      reads this, buckets, app
    {
      if head == null then app == [] else
      && Filed(Elems(app), chains) && Linked(buckets[..], chains, Elems(app))
      && AppList(head, tail, app) && numItems == |app| && buckets.Length == Pow2(log2)
    }

    constructor ()
      ensures Fsck() && app == [] && head == null
    {
      head, tail, log2, numItems, idealMax, nonideal, ineffective, noexpand := null, null, 0, 0, 0, 0, 0, false;
      app, chains := [], [];
      buckets := new Bucket[0];
    }

    /** Follows one chain: finds an item with the key exactly if the table has one. */
    method Find(key: Key, hashv: nat) returns (out: Item?)
      requires Fsck() && forall x :: x in app && x.key == key ==> x.hashv == hashv
      ensures out == null <==> forall x :: x in app ==> x.key != key
      ensures out != null ==> out in app && out.key == key
    {
      if head == null { return null; }
      var b := ToBkt(hashv, buckets.Length);
      ghost var s := chains[b];
      out := buckets[b].head;
      assert Chain(buckets[..][b], s);
      ghost var i := 0;
      while out != null
        invariant i <= |s| && out == (if i < |s| then s[i] else null)
        invariant forall k :: 0 <= k < i ==> s[k].key != key
        decreases |s| - i
      {
        if out.hashv == hashv && out.key == key { break; }
        assert ChainAt(s, i);
        out := out.hhNext;
        i := i + 1;
      }
    }

    /** Puts an item behind the tail of the application order. */
    method AppendList(add: Item)
      requires AppList(head, tail, app) && add !in app
      modifies `tail, `app, app`next, add`next, add`prev
      ensures app == old(app) + [add] && AppList(head, tail, app) && tail == add
    {
      add.next := null;
      add.prev := tail;
      tail.next := add;
      tail := add;
      app := app + [add];
      forall i | 0 <= i < |app| ensures AppAt(app, i) {
        if i < |old(app)| { assert old(AppAt(app, i)); }
      }
    }

    method MakeTable(add: Item)
      modifies this, add`next, add`prev
      ensures head == add && app == [add] && AppList(head, tail, app) && numItems == 0 && fresh(buckets)
      ensures buckets.Length == Pow2(log2)
      ensures Filed({}, chains) && Linked(buckets[..], chains, {})
    {
      add.next, add.prev := null, null;
      head, tail, app := add, add, [add];
      assert AppAt(app, 0);
      log2, numItems, idealMax, nonideal, ineffective, noexpand := 5, 0, 0, 0, 0, false;
      buckets := new Bucket[INITIAL_BUCKETS](i => Bucket(null, 0, 0));
      chains := seq(INITIAL_BUCKETS, _ => []);
      assert Pow2(3) == 8;
    }

    /** Adds an item that is not in the table. */
    method Add(add: Item)
      requires Fsck() && add !in app
      modifies this, buckets, app, add
      ensures Fsck() && app == old(app) + [add] && head != null
    {
      ghost var before := Elems(app);
      if head == null {
        MakeTable(add);
      } else {
        AppendList(add);
      }
      AddToTable(add, before);
    }

    method AddToTable(add: Item, ghost before: set<Item>)
      requires head != null && AppList(head, tail, app) && add !in before && Elems(app) == before + {add}
      requires Filed(before, chains) && Linked(buckets[..], chains, before) && numItems + 1 == |app|
      requires buckets.Length == Pow2(log2)
      modifies this, buckets, before`hhNext, before`hhPrev, add`hhNext, add`hhPrev
      ensures Fsck() && app == old(app) && head == old(head)
      ensures |chains| == buckets.Length == (if Crowded(old(buckets[..]), old(chains), add, old(noexpand)) then 2 * old(buckets.Length) else old(buckets.Length))
      ensures !Crowded(old(buckets[..]), old(chains), add, old(noexpand)) ==> noexpand == old(noexpand) && ineffective == old(ineffective)
      ensures Crowded(old(buckets[..]), old(chains), add, old(noexpand)) ==> Expanded(old(ineffective), old(noexpand))
    {
      hide ToBkt, Filed, Linked, AppList, Excess, Spread, Expanded, Pow2;
      numItems := numItems + 1;
      SameLength(buckets[..], chains, before);
      ghost var all := Elems(app);
      var b, chains' := PushBucket(buckets, add, chains, before);
      chains := chains';
      assert before + {add} == all;
      CountOf(buckets[..], chains, all, b);
      if buckets[b].count >= (buckets[b].expandMult + 1) * CAPACITY_THRESHOLD && !noexpand {
        ExpandBuckets();
      }
      SameLength(buckets[..], chains, all);
    }

    /** What an expansion leaves: every item is filed anew against the new ideal length; if more than half of the
        items are beyond it twice in a row, there are no more expansions. */
    ghost predicate Expanded(ineffective0: nat, noexpand0: bool)
      reads this, buckets
    {
      && buckets.Length > 0 && idealMax == CeilDiv(numItems, buckets.Length)
      && nonideal == Excess(chains, idealMax) && Spread(buckets[..], idealMax)
      && ineffective == (if nonideal > numItems / 2 then ineffective0 + 1 else 0)
      && noexpand == (noexpand0 || ineffective > 1)
    }

    /** Files the items of one chain in the new buckets, each at the head of its chain. */
    method MoveChain(i: nat, newBuckets: array<Bucket>, ghost nc: seq<seq<Item>>, ghost done: set<Item>)
      returns (ghost nc': seq<seq<Item>>, ghost done': set<Item>)
      requires i < buckets.Length == |chains| && newBuckets != buckets && Chain(buckets[i], chains[i])
      requires Filed(done, nc) && Linked(newBuckets[..], nc, done) && done !! Elems(chains[i])
      requires nonideal == Excess(nc, idealMax) && Spread(newBuckets[..], idealMax)
      modifies newBuckets, `nonideal, chains[i]`hhNext, chains[i]`hhPrev, done`hhPrev
      ensures nonideal == Excess(nc', idealMax) && Spread(newBuckets[..], idealMax)
      ensures |nc'| == |nc| && done' == done + Elems(chains[i])
      ensures Filed(done', nc') && Linked(newBuckets[..], nc', done')
    {
      hide Chain, ToBkt, Filed, Linked, Elems, Excess, Spread;
      ghost var s, k := chains[i], 0;
      nc', done' := nc, done + Elems(s[..0]);
      ElemsNone(s);
      assert done' == done;
      var thh := buckets[i].head;
      ChainFirst(buckets[i], s);
      while thh != null
        invariant k <= |s| && thh == (if k < |s| then s[k] else null)
        invariant |nc'| == |nc| && done' == done + Elems(s[..k])
        invariant Filed(done', nc') && Linked(newBuckets[..], nc', done')
        invariant nonideal == Excess(nc', idealMax) && Spread(newBuckets[..], idealMax)
        invariant forall t :: k <= t < |s| ==> s[t].hhNext == After(s, t)
        decreases |s| - k
      {
        var nxt := thh.hhNext;
        NotYet(s, k, done);
        nc' := Refile(thh, newBuckets, nc', done');
        ElemsNext(s, k);
        assert done' + {s[k]} == done + Elems(s[..k + 1]);
        done' := done + Elems(s[..k + 1]);
        thh, k := nxt, k + 1;
      }
      assert s[..k] == s;
    }

    /** Files one item in the new buckets and counts it if its chain is longer than the ideal. */
    method Refile(thh: Item, newBuckets: array<Bucket>, ghost nc: seq<seq<Item>>, ghost done: set<Item>)
      returns (ghost nc': seq<seq<Item>>)
      requires newBuckets != buckets && thh !in done
      requires Filed(done, nc) && Linked(newBuckets[..], nc, done)
      requires nonideal == Excess(nc, idealMax) && Spread(newBuckets[..], idealMax)
      modifies newBuckets, `nonideal, thh`hhNext, thh`hhPrev, done`hhPrev
      ensures |nc'| == |nc| && Filed(done + {thh}, nc') && Linked(newBuckets[..], nc', done + {thh})
      ensures nonideal == Excess(nc', idealMax) && Spread(newBuckets[..], idealMax)
    {
      hide Chain, ToBkt, Filed, Linked, Excess;
      var j;
      SameLength(newBuckets[..], nc, done);
      j, nc' := PushBucket(newBuckets, thh, nc, done);
      ExcessOfOne(nc, j, nc'[j], idealMax);
      CountOf(newBuckets[..], nc', done + {thh}, j);
      ghost var mult := newBuckets[j].expandMult;
      assert mult == Raised(newBuckets[j].count - 1, idealMax);
      if newBuckets[j].count > idealMax {
        nonideal := nonideal + 1;
        if newBuckets[j].count > newBuckets[j].expandMult * idealMax {
          MultiplierApart(newBuckets[..], nc', done + {thh}, j);
          label Raise:
          newBuckets[j] := newBuckets[j].(expandMult := newBuckets[j].expandMult + 1);
          assert newBuckets[..] == old@Raise(newBuckets[..])[j := newBuckets[j]];
        }
      }
    }

    /** One old bucket; the chains of those behind it stay as they are. */
    method ExpandBucket(i: nat, newBuckets: array<Bucket>, ghost nc: seq<seq<Item>>, ghost done: set<Item>, ghost all: set<Item>)
      returns (ghost nc': seq<seq<Item>>, ghost done': set<Item>)
      requires i < buckets.Length == |chains| && newBuckets != buckets && Filed(all, chains) && Below(all, done, |chains|, i)
      requires forall b :: i <= b < |chains| ==> Chain(buckets[b], chains[b])
      requires Filed(done, nc) && Linked(newBuckets[..], nc, done)
      requires nonideal == Excess(nc, idealMax) && Spread(newBuckets[..], idealMax)
      modifies newBuckets, `nonideal, all`hhNext, all`hhPrev
      ensures nonideal == Excess(nc', idealMax) && Spread(newBuckets[..], idealMax)
      ensures |nc'| == |nc| && Below(all, done', |chains|, i + 1)
      ensures Filed(done', nc') && Linked(newBuckets[..], nc', done')
      ensures forall b :: i < b < |chains| ==> Chain(buckets[b], chains[b])
    {
      hide Filed, Linked, ToBkt, Elems, Below, Excess, Spread;
      Unfiled(all, chains, i, done);
      nc', done' := MoveChain(i, newBuckets, nc, done);
      forall b | i < b < |chains| ensures Chain(buckets[b], chains[b]) {
        assert old(Chain(buckets[b], chains[b]));
        Untouched(all, chains, i, b, done);
        forall t | 0 <= t < |chains[b]| ensures ChainAt(chains[b], t) {
          assert chains[b][t] in chains[b];
          assert old(ChainAt(chains[b], t));
        }
      }
    }

    /** The ideal chain length for twice the buckets. */
    method SetIdeal()
      requires buckets.Length == Pow2(log2)
      modifies `idealMax
      ensures Pow2(log2 + 1) == 2 * buckets.Length && idealMax == CeilDiv(numItems, 2 * buckets.Length)
    {
      hide Pow2, And, ShiftRight, CeilDiv;
      DoubledPow2(log2);
      idealMax := ShiftRight(numItems, log2 + 1) + if And(numItems, 2 * buckets.Length - 1) != 0 then 1 else 0;
      IdealLength(numItems, log2 + 1);
    }

    /** Doubles the number of buckets and files every item again. */
    method ExpandBuckets()
      requires Filed(Elems(app), chains) && Linked(buckets[..], chains, Elems(app)) && buckets.Length == Pow2(log2)
      modifies `buckets, `chains, `log2, `idealMax, `nonideal, `ineffective, `noexpand, app`hhNext, app`hhPrev
      ensures Filed(Elems(app), chains) && Linked(buckets[..], chains, Elems(app))
      ensures |chains| == 2 * |old(chains)| && fresh(buckets) && buckets.Length == Pow2(log2)
      ensures Expanded(old(ineffective), old(noexpand))
    {
      hide Filed, Linked, Chain, ToBkt, Elems, Below, Pow2, And, ShiftRight, CeilDiv, Excess, Spread;
      SameLength(buckets[..], chains, Elems(app));
      SomeBuckets(Elems(app), chains);
      var nb := buckets.Length;
      var newBuckets := new Bucket[2 * nb](i => Bucket(null, 0, 0));
      ghost var nc: seq<seq<Item>> := seq(2 * nb, _ => []);
      SetIdeal();
      nonideal := 0;
      ghost var all, done := Elems(app), {};
      NothingFiled(newBuckets[..], nc);
      NoExcess(nc, idealMax);
      NothingRaised(newBuckets[..], idealMax);
      AllChains(buckets[..], chains, all);
      NothingDone(all, nb);
      for i := 0 to nb
        invariant fresh(newBuckets) && newBuckets.Length == 2 * nb == |nc|
        invariant Filed(done, nc) && Linked(newBuckets[..], nc, done)
        invariant Below(all, done, nb, i)
        invariant nonideal == Excess(nc, idealMax) && Spread(newBuckets[..], idealMax)
        invariant ineffective == old(ineffective) && noexpand == old(noexpand) && numItems == old(numItems)
        invariant buckets == old(buckets) && chains == old(chains) && app == old(app)
        invariant log2 == old(log2) && idealMax == CeilDiv(numItems, 2 * nb)
        invariant forall b :: i <= b < nb ==> Chain(buckets[b], chains[b])
      {
        nc, done := ExpandBucket(i, newBuckets, nc, done, all);
      }
      AllFiled(all, done, nb);
      assert done == all;
      buckets, chains := newBuckets, nc;
      log2 := log2 + 1;
      ineffective := if nonideal > numItems / 2 then ineffective + 1 else 0;
      if ineffective > 1 { noexpand := true; }
    }

    /** Takes an item out. The last one takes the table with it. */
    method Delete(del: Item, ghost at: nat)
      requires Fsck() && at < |app| && app[at] == del
      modifies this, buckets, app
      ensures Fsck() && app == old(app)[..at] + old(app)[at + 1..]
    {
      hide Filed, Linked, AppList, ToBkt;
      AppEnds(head, tail, app, at);
      if del.prev == null && del.next == null {
        head := null;
        app := [];
      } else {
        ghost var all := Elems(app);
        Unlink(del, at);
        Unfile(del, all);
        numItems := numItems - 1;
        WithoutElems(old(app), at);
      }
    }

    /** The application-order part of a deletion. */
    method Unlink(del: Item, ghost at: nat)
      requires AppList(head, tail, app) && at < |app| && app[at] == del && |app| > 1
      modifies `head, `tail, `app, app`next, app`prev
      ensures app == old(app)[..at] + old(app)[at + 1..] && AppList(head, tail, app) && head != null
    {
      assert AppAt(app, at);
      if at > 0 { assert AppAt(app, at - 1); }
      if at + 1 < |app| { assert AppAt(app, at + 1); }
      if del == tail { tail := del.prev; }
      if del.prev != null { del.prev.next := del.next; } else { head := del.next; }
      if del.next != null { del.next.prev := del.prev; }
      app := app[..at] + app[at + 1..];
      forall i | 0 <= i < |app| ensures AppAt(app, i) {
        assert old(AppAt(app, if i < at then i else i + 1));
      }
    }

    /** The bucket part of a deletion. */
    method Unfile(del: Item, ghost all: set<Item>)
      requires Filed(all, chains) && Linked(buckets[..], chains, all) && del in all
      modifies buckets, `chains, all`hhNext, all`hhPrev
      ensures Filed(all - {del}, chains) && Linked(buckets[..], chains, all - {del})
    {
      hide ToBkt;
      var b := ToBkt(del.hashv, buckets.Length);
      ghost var s := chains[b];
      ghost var at: nat :| at < |s| && s[at] == del;
      assert Chain(buckets[..][b], s);
      var bkt := DropChain(buckets[b], del, s, at);
      buckets[b] := bkt;
      FiledLess(all, chains, b, at);
      ghost var before := chains;
      chains := chains[b := s[..at] + s[at + 1..]];
      forall k | 0 <= k < |chains| ensures Within(chains[k], all - {del}) && Chain(buckets[..][k], chains[k]) {
        assert old(Chain(buckets[..][k], chains[k]));
        if k != b {
          Apart(all, before, k, b);
          forall i | 0 <= i < |before[k]| ensures ChainAt(before[k], i) {
            assert old(ChainAt(before[k], i));
          }
        }
      }
    }
  }

  lemma AppEnds(head: Item?, tail: Item?, s: seq<Item>, at: nat)
    requires at < |s| && AppList(head, tail, s)
    ensures s[at].prev == null && s[at].next == null <==> |s| == 1
    ensures Distinct(s)
  {
    assert AppAt(s, at);
  }

  lemma WithoutElems(s: seq<Item>, at: nat)
    requires Distinct(s) && at < |s|
    ensures Elems(s[..at] + s[at + 1..]) == Elems(s) - {s[at]}
  {
    forall x | x in Elems(s) - {s[at]} ensures x in s[..at] + s[at + 1..] {
      var i :| 0 <= i < |s| && s[i] == x;
      assert i < at ==> s[..at][i] == x;
      assert i > at ==> s[at + 1..][i - at - 1] == x;
    }
  }

  lemma FiledLess(all: set<Item>, chains: seq<seq<Item>>, b: nat, at: nat)
    requires Filed(all, chains) && b < |chains| && at < |chains[b]| && Distinct(chains[b])
    ensures Filed(all - {chains[b][at]}, chains[b := chains[b][..at] + chains[b][at + 1..]])
    ensures forall k :: 0 <= k < |chains| && k != b ==> chains[b][at] !in chains[k]
  {
    hide ToBkt;
    var s, del := chains[b], chains[b][at];
    WithoutElems(s, at);
    assert del in s;
    forall k | 0 <= k < |chains| && k != b ensures del !in chains[k] {
      Home(all, chains, k, del);
      Home(all, chains, b, del);
    }
    var t := s[..at] + s[at + 1..];
    assert forall x :: x in t <==> x in s && x != del by {
      assert forall x :: x in t ==> x in Elems(t);
      assert forall x :: x in s && x != del ==> x in Elems(s) - {del};
    }
  }

  function SumCounts(buckets: seq<Bucket>): nat {
    if buckets == [] then 0 else SumCounts(buckets[..|buckets| - 1]) + buckets[|buckets| - 1].count
  }

  /** What the integrity check of the source adds up: the bucket counts give the item count. */
  lemma FsckCounts(t: Table)
    requires t.Fsck() && t.head != null
    ensures SumCounts(t.buckets[..]) == t.numItems == |t.app|
  {
    hide SumCounts, Total, ToBkt;
    forall b | 0 <= b < |t.chains| ensures t.buckets[..][b].count == |t.chains[b]| && Distinct(t.chains[b]) {
      assert Chain(t.buckets[..][b], t.chains[b]);
    }
    CountsAddUp(Elems(t.app), t.chains);
    DistinctCount(t.app);
    SameSums(t.buckets[..], t.chains);
  }

  lemma {:induction false} SameSums(buckets: seq<Bucket>, chains: seq<seq<Item>>)
    requires |buckets| == |chains| && forall b :: 0 <= b < |chains| ==> buckets[b].count == |chains[b]|
    ensures SumCounts(buckets) == Total(chains)
  {
    if chains != [] { SameSums(buckets[..|buckets| - 1], chains[..|chains| - 1]); }
  }

  /** The ideal chain length: items over buckets, rounded up. */
  function CeilDiv(n: nat, b: nat): (c: nat)
    requires b > 0
    ensures c * b >= n && (c > 0 ==> (c - 1) * b < n)
  {
    var c := n / b + if n % b != 0 then 1 else 0;
    assert n == b * (n / b) + n % b;
    assert (n / b) * b == b * (n / b);
    c
  }
}
