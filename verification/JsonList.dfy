/** The child list of an array or object: nodes linked forward to null, linked backward, with the head's
    back link leading to the tail. The editors rewire it in place; each is proved against the sequence
    operation it stands for. */
module JsonList {

  const NUL: char := 0 as char

  /** A C string, without its terminator. */
  type CString = s: seq<char> | NUL !in s

  class Node {
    var next: Node?
    var prev: Node?
    var child: Node?
    var name: CString
    const named: bool

    constructor (name: CString, named: bool)
      ensures next == prev == child == null && this.name == name && this.named == named
    {
      next, prev, child, this.name, this.named := null, null, null, name, named;
    }
  }

  ghost predicate Distinct(s: seq<Node>) { forall i, j :: 0 <= i < j < |s| ==> s[i] != s[j] }

  function NextOf(s: seq<Node>, i: nat): Node?
    requires i < |s|
  {
    if i + 1 < |s| then s[i + 1] else null
  }

  function PrevOf(s: seq<Node>, i: nat): Node
    requires i < |s|
  {
    if i > 0 then s[i - 1] else s[|s| - 1]
  }

  ghost predicate LinkedAt(s: seq<Node>, i: nat)
    requires i < |s|
    reads s[i]
  {
    s[i].next == NextOf(s, i) && s[i].prev == PrevOf(s, i)
  }

  /** The children of `parent` are exactly s, in this order. */
  ghost predicate Children(parent: Node, s: seq<Node>)
    reads parent, s
  {
    && Distinct(s) && parent !in s
    && parent.child == (if s == [] then null else s[0])
    && forall i :: 0 <= i < |s| ==> LinkedAt(s, i)
  }

  /** A node that is in no list, as far as its links tell. */
  ghost predicate Unlinked(n: Node)
    reads n
  {
    n.next == null && n.prev == null
  }

  /** A parent has one child sequence only. */
  lemma {:induction false} OneSequence(parent: Node, s: seq<Node>, t: seq<Node>)
    requires Children(parent, s) && Children(parent, t)
    ensures s == t
  {
    var n := if |s| < |t| then |s| else |t|;
    SamePrefix(parent, s, t, n);
    if n > 0 {
      assert LinkedAt(s, n - 1) && LinkedAt(t, n - 1);
      assert s[n - 1] == s[..n][n - 1] && t[n - 1] == t[..n][n - 1];
    }
    assert s[..|s|] == s && t[..|t|] == t;
  }

  lemma {:induction false} SamePrefix(parent: Node, s: seq<Node>, t: seq<Node>, n: nat)
    requires Children(parent, s) && Children(parent, t) && n <= |s| && n <= |t|
    ensures s[..n] == t[..n]
  {
    if n > 1 {
      SamePrefix(parent, s, t, n - 1);
      assert s[n - 2] == s[..n - 1][n - 2] && t[n - 2] == t[..n - 1][n - 2];
      assert LinkedAt(s, n - 2) && LinkedAt(t, n - 2);
    }
  }

  method GetArraySize(parent: Node, ghost s: seq<Node>) returns (size: nat)
    requires Children(parent, s)
    ensures size == |s|
  {
    var child := parent.child;
    size := 0;
    while child != null
      invariant size <= |s| && child == if size < |s| then s[size] else null
      decreases |s| - size
    {
      assert LinkedAt(s, size);
      size := size + 1;
      child := child.next;
    }
  }

  method GetArrayItem(parent: Node, which: int, ghost s: seq<Node>) returns (item: Node?)
    requires Children(parent, s)
    ensures item == if 0 <= which < |s| then s[which] else null
  {
    if which < 0 { return null; }
    var index := which;
    item := parent.child;
    ghost var i := 0;
    while item != null && index > 0
      invariant 0 <= i <= |s| && item == (if i < |s| then s[i] else null)
      invariant index == which - i && index >= 0
      decreases index
    {
      assert LinkedAt(s, i);
      index := index - 1;
      item := item.next;
      i := i + 1;
    }
  }

  function ToLower(ch: char): char {
    if 'A' <= ch <= 'Z' then (ch as int + 32) as char else ch
  }

  const UPPER := "ABCDEFGHIJKLMNOPQRSTUVWXYZ"
  const LOWER := "abcdefghijklmnopqrstuvwxyz"

  /** Two characters are the same but for case exactly if they are equal or the two forms of one letter. */
  lemma SameLetterIff(a: char, b: char)
    ensures ToLower(a) == ToLower(b) <==>
              a == b || exists k :: 0 <= k < 26 && {a, b} == {UPPER[k], LOWER[k]}
  {
    forall k | 0 <= k < 26 ensures UPPER[k] as int == 'A' as int + k && LOWER[k] as int == 'a' as int + k {
      LetterAt(k);
    }
    if a != b && ToLower(a) == ToLower(b) {
      var k := ToLower(a) as int - 'a' as int;
      assert {a, b} == {UPPER[k], LOWER[k]};
    }
  }

  lemma LetterAt(k: nat)
    requires k < 26
    ensures UPPER[k] as int == 'A' as int + k && LOWER[k] as int == 'a' as int + k
  {
  }

  /** Equal, or equal but for the case of letters. */
  predicate SameName(a: CString, b: CString, caseSensitive: bool) {
    if caseSensitive then a == b else |a| == |b| && forall i :: 0 <= i < |a| ==> ToLower(a[i]) == ToLower(b[i])
  }

  /** `case_insensitive_strcmp`, as far as its callers look at it: runs up to the first difference or to
      the common terminator. */
  method EqualButForCase(a: CString, b: CString) returns (same: bool)
    ensures same == SameName(a, b, false)
  {
    var i := 0;
    while ToLower(if i < |a| then a[i] else NUL) == ToLower(if i < |b| then b[i] else NUL)
      invariant 0 <= i <= |a| && i <= |b| && forall k :: 0 <= k < i ==> ToLower(a[k]) == ToLower(b[k])
      decreases |a| - i
    {
      if i == |a| { return true; }
      i := i + 1;
    }
    same := false;
  }

  /** A search by name stops at the first child that has this name, or at the end; a case-sensitive one
      also at the first child without a name. */
  ghost predicate StopsAt(s: seq<Node>, name: CString, caseSensitive: bool, at: nat)
    reads s
  {
    && at <= |s|
    && (forall i :: 0 <= i < at ==> if s[i].named then !SameName(name, s[i].name, caseSensitive) else !caseSensitive)
    && (at < |s| ==> if s[at].named then SameName(name, s[at].name, caseSensitive) else caseSensitive)
  }

  /** The child a search by name stops at, unless it has no name. */
  method GetObjectItem(parent: Node, name: CString, caseSensitive: bool, ghost s: seq<Node>) returns (item: Node?)
    requires Children(parent, s)
    ensures exists at: nat :: StopsAt(s, name, caseSensitive, at) && item == (if at < |s| && s[at].named then s[at] else null)
  {
    hide SameName;
    item := parent.child;
    ghost var at: nat := 0;
    while item != null
      invariant at <= |s| && item == (if at < |s| then s[at] else null)
      invariant forall i :: 0 <= i < at ==> if s[i].named then !SameName(name, s[i].name, caseSensitive) else !caseSensitive
      decreases |s| - at
    {
      assert LinkedAt(s, at);
      if caseSensitive {
        if !item.named || item.name == name { SameExactly(name, item.name); break; }
        SameExactly(name, item.name);
      } else if item.named {
        var same := EqualButForCase(name, item.name);
        if same { break; }
      }
      item := item.next;
      at := at + 1;
    }
    assert StopsAt(s, name, caseSensitive, at);
    if item != null && !item.named { item := null; }
  }

  lemma SameExactly(a: CString, b: CString)
    ensures SameName(a, b, true) == (a == b)
  {
  }

  /** Appends an unlinked item, found by one step from the head's back link. */
  method AddItemToArray(parent: Node, item: Node?, ghost s: seq<Node>) returns (ok: bool)
    requires Children(parent, s)
    requires item != null && item != parent ==> item !in s && item.next == null
    modifies parent`child, s, item
    ensures ok <==> item != null && item != parent
    ensures Children(parent, if ok then s + [item] else s)
    ensures forall n :: n in s && n != parent ==> n.child == old(n.child)
  {
    if item == null || parent == item { return false; }
    var child := parent.child;
    if child == null {
      parent.child := item;
      item.prev := item;
      item.next := null;
    } else {
      assert LinkedAt(s, 0);
      if |s| > 0 { assert LinkedAt(s, |s| - 1); }
      if child.prev != null {
        child.prev.next := item;
        item.prev := child.prev;
        parent.child.prev := item;
      }
    }
    ok := true;
    forall i | 0 <= i < |s + [item]| ensures LinkedAt(s + [item], i) {
      if i < |s| { assert old(LinkedAt(s, i)); }
    }
  }

  /** Takes a child out by its own links. */
  method DetachItemViaPointer(parent: Node, item: Node?, ghost s: seq<Node>, ghost at: nat) returns (r: Node?)
    requires Children(parent, s)
    requires item == null || (item != parent.child && item.prev == null) || (at < |s| && s[at] == item)
    modifies parent`child, s, item
    ensures r == if item == null || item !in s then null else item
    ensures r == null ==> Children(parent, s)
    ensures r != null ==> at < |s| && Unlinked(r) && Children(parent, s[..at] + s[at + 1..])
    ensures forall n :: n in s && n != parent ==> n.child == old(n.child)
  {
    if item == null || (item != parent.child && item.prev == null) {
      if item != null && item in s { AllLinked(parent, s, item); }
      return null;
    }
    assert LinkedAt(s, at);
    if at > 0 { assert LinkedAt(s, at - 1) && LinkedAt(s, 0); }
    if at + 1 < |s| { assert LinkedAt(s, at + 1); }
    if item != parent.child { item.prev.next := item.next; }
    if item.next != null { item.next.prev := item.prev; }
    if item == parent.child {
      parent.child := item.next;
    } else if item.next == null {
      parent.child.prev := item.prev;
    }
    item.prev := null;
    item.next := null;
    ghost var t := s[..at] + s[at + 1..];
    Without(s, at);
    forall i | 0 <= i < |t| ensures LinkedAt(t, i) {
      assert old(LinkedAt(s, if i < at then i else i + 1));
    }
    r := item;
  }

  lemma AllLinked(parent: Node, s: seq<Node>, n: Node)
    requires Children(parent, s) && n in s
    ensures n.prev != null
  {
    var i :| 0 <= i < |s| && s[i] == n;
    assert LinkedAt(s, i);
  }

  lemma Without(s: seq<Node>, at: nat)
    requires Distinct(s) && at < |s|
    ensures var t := s[..at] + s[at + 1..];
            Distinct(t) && s[at] !in t && forall i :: 0 <= i < |t| ==> t[i] == s[if i < at then i else i + 1]
  {
  }

  method DetachItemFromArray(parent: Node, which: int, ghost s: seq<Node>) returns (r: Node?)
    requires Children(parent, s)
    modifies parent`child, s
    ensures r == if 0 <= which < |s| then s[which] else null
    ensures Children(parent, if 0 <= which < |s| then s[..which] + s[which + 1..] else s)
    ensures r != null ==> Unlinked(r)
    ensures forall n :: n in s && n != parent ==> n.child == old(n.child)
  {
    if which < 0 { return null; }
    var item := GetArrayItem(parent, which, s);
    r := DetachItemViaPointer(parent, item, s, which);
  }

  /** Puts an unlinked item in front of the item at an index, or at the end if there is none. */
  method InsertItemInArray(parent: Node, which: int, newitem: Node?, ghost s: seq<Node>) returns (ok: bool)
    requires Children(parent, s)
    requires newitem != null ==> newitem !in s && newitem != parent && newitem.next == null
    modifies parent`child, s, newitem
    ensures ok <==> which >= 0 && newitem != null
    ensures Children(parent, if !ok then s else if which < |s| then s[..which] + [newitem] + s[which..] else s + [newitem])
    ensures forall n :: n in s && n != parent ==> n.child == old(n.child)
  {
    if which < 0 || newitem == null { return false; }
    var after := GetArrayItem(parent, which, s);
    if after == null {
      ok := AddItemToArray(parent, newitem, s);
      return;
    }
    AllLinked(parent, s, after);
    if after != parent.child && after.prev == null { return false; }
    assert LinkedAt(s, which);
    if which > 0 { assert LinkedAt(s, which - 1); }
    newitem.next := after;
    newitem.prev := after.prev;
    after.prev := newitem;
    if after == parent.child {
      parent.child := newitem;
    } else {
      newitem.prev.next := newitem;
    }
    ghost var t := s[..which] + [newitem] + s[which..];
    With(s, which, newitem);
    forall i | 0 <= i < |t| ensures LinkedAt(t, i) {
      if i != which { assert old(LinkedAt(s, if i < which then i else i - 1)); }
    }
    ok := true;
  }

  lemma With(s: seq<Node>, at: nat, n: Node)
    requires Distinct(s) && at <= |s| && n !in s
    ensures var t := s[..at] + [n] + s[at..];
            Distinct(t) && forall i :: 0 <= i < |t| ==> t[i] == if i < at then s[i] else if i == at then n else s[i - 1]
  {
  }

  /** Puts an unlinked item in the place of a child, which is unlinked. */
  method ReplaceItemViaPointer(parent: Node, item: Node?, replacement: Node?, ghost s: seq<Node>, ghost at: nat) returns (ok: bool)
    requires Children(parent, s)
    requires item != null ==> at < |s| && s[at] == item
    requires replacement != null && replacement != item ==> replacement !in s && replacement != parent
    modifies parent`child, s, replacement
    ensures ok <==> item != null && replacement != null
    ensures Children(parent, if ok then s[at := replacement] else s)
    ensures ok && replacement != item ==> Unlinked(item)
    ensures forall n :: n in s && n != parent ==> n.child == old(n.child)
  {
    if parent.child == null || replacement == null || item == null { return false; }
    if replacement == item {
      assert s[at := replacement] == s;
      return true;
    }
    assert LinkedAt(s, at) && LinkedAt(s, 0) && LinkedAt(s, |s| - 1);
    if at > 0 { assert LinkedAt(s, at - 1); }
    if at + 1 < |s| { assert LinkedAt(s, at + 1); }
    replacement.next := item.next;
    replacement.prev := item.prev;
    if replacement.next != null { replacement.next.prev := replacement; }
    if parent.child == item {
      if parent.child.prev == parent.child { replacement.prev := replacement; }
      parent.child := replacement;
    } else {
      if replacement.prev != null { replacement.prev.next := replacement; }
      if replacement.next == null { parent.child.prev := replacement; }
    }
    item.next := null;
    item.prev := null;
    ghost var t := s[at := replacement];
    forall i | 0 <= i < |t| ensures LinkedAt(t, i) {
      assert old(LinkedAt(s, i));
    }
    ok := true;
  }

  method ReplaceItemInArray(parent: Node, which: int, newitem: Node?, ghost s: seq<Node>) returns (ok: bool)
    requires Children(parent, s)
    requires newitem != null && !(0 <= which < |s| && s[which] == newitem) ==> newitem !in s && newitem != parent
    modifies parent`child, s, newitem
    ensures ok <==> 0 <= which < |s| && newitem != null
    ensures Children(parent, if ok then s[which := newitem] else s)
    ensures forall n :: n in s && n != parent ==> n.child == old(n.child)
  {
    if which < 0 { return false; }
    var item := GetArrayItem(parent, which, s);
    ok := ReplaceItemViaPointer(parent, item, newitem, s, which);
  }
}
