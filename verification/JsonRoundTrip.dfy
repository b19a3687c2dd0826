/** Parsing what was printed gives the tree back: what the printer writes is a text of JSON that means the
    tree. */
module JsonRoundTrip {
  import opened JsonText
  import opened JsonReading
  import opened JsonStrings
  import opened JsonNumbers
  import opened JsonGrammar

  /** Trees whose strings are C strings and whose numbers are integers of 32 bits. */
  ghost predicate Printable(v: Json)
    decreases v
  {
    match v
    case Number(i, d) => INT_MIN <= i <= INT_MAX && d == Finite(i as real)
    case String(s) => NUL !in s
    case Array(es) => forall e :: e in es ==> Printable(e)
    case Object(ms) => forall m :: m in ms ==> NUL !in m.key && Printable(m.value)
    case _ => true
  }

  // ---- strings

  function EscapePieces(s: string): (ps: seq<Piece>)
    ensures |ps| == |s|
  {
    if s == "" then [] else [EscapePiece(s[0])] + EscapePieces(s[1..])
  }

  /** The escaped text of a string means the string. */
  lemma {:induction false} EscapedMeans(s: string)
    ensures AllOk(EscapePieces(s)) && WrittenAll(EscapePieces(s)) == Escape(s) && MeaningAll(EscapePieces(s)) == s
  {
    hide EscapePiece, EscapeChar, PieceOk, Written, Meaning;
    if s != "" {
      var p := EscapeCharIs(s[0]);
      EscapedMeans(s[1..]);
      assert EscapePieces(s)[1..] == EscapePieces(s[1..]);
      assert [s[0]] + s[1..] == s;
    }
  }

  lemma QuotedIs(s: string)
    ensures AllOk(EscapePieces(s)) && StrText(EscapePieces(s)) == Quoted(s) && MeaningAll(EscapePieces(s)) == s
  {
    hide Escape, WrittenAll, MeaningAll, EscapePieces, AllOk;
    EscapedMeans(s);
    assert "\"" + (Escape(s) + "\"") == "\"" + Escape(s) + "\"";
  }

  // ---- trees

  ghost predicate CleanItems(es: seq<Json>) { forall k :: 0 <= k < |es| ==> Printable(es[k]) }

  ghost predicate CleanMembers(ms: seq<Member>) { forall k :: 0 <= k < |ms| ==> NUL !in ms[k].key && Printable(ms[k].value) }

  /** What the printer writes for a tree is a text that means the tree. */
  lemma {:induction false} Printed(v: Json, fmt: Style, depth: nat, strtod: Strtod) returns (x: Syntax)
    requires Printable(v) && ReadsIntegers(strtod)
    ensures SyntaxOk(x, strtod) && TextOf(x) == Print(v, fmt, depth) && Tree(x, strtod) == v
    decreases v, 0
  {
    hide ReadsIntegers, Decimal, Quoted, StrText, AllOk, MeaningAll, NumberOk, Saturate, PrintItems, PrintMembers, ItemsText, EntriesText;
    match v {
      case Number(i, _) =>
        IntegerRead(i, strtod);
        x := Num(Decimal(i), Finite(i as real));
      case String(s) =>
        QuotedIs(s);
        x := Str(EscapePieces(s));
      case Array(es) => x := PrintedArray(es, fmt, depth, strtod);
      case Object(ms) => x := PrintedObject(ms, fmt, depth, strtod);
      case _ => x := Word(v);
    }
  }

  lemma {:induction false} PrintedArray(es: seq<Json>, fmt: Style, depth: nat, strtod: Strtod) returns (x: Syntax)
    requires CleanItems(es) && ReadsIntegers(strtod)
    ensures SyntaxOk(x, strtod) && TextOf(x) == Print(Array(es), fmt, depth) && Tree(x, strtod) == Array(es)
    decreases es, 2
  {
    hide ReadsIntegers, PrintItems, ItemsText, ItemOk;
    if es == [] {
      NoItems(strtod);
      x := Arr("", []);
      assert PrintItems(es, 0, fmt, depth + 1) == "" by { NothingPrinted(fmt, depth + 1); }
    } else {
      var items := PrintedItems(es, 0, fmt, depth + 1, "", strtod);
      x := Arr("", items);
      assert es[0..] == es;
      assert "[" + ("" + (PrintItems(es, 0, fmt, depth + 1) + "]")) == "[" + PrintItems(es, 0, fmt, depth + 1) + "]";
    }
  }

  lemma NothingPrinted(fmt: Style, depth: nat)
    ensures PrintItems([], 0, fmt, depth) == "" && PrintMembers([], 0, fmt, depth) == ""
  {
  }

  function Gap(fmt: Style): string { if fmt.formatted then " " else "" }

  lemma {:induction false} PrintedItems(es: seq<Json>, i: nat, fmt: Style, depth: nat, before: string, strtod: Strtod) returns (items: seq<Item>)
    requires i < |es| && CleanItems(es) && ReadsIntegers(strtod) && Blank(before)
    ensures items != [] && ItemsOk(items, strtod) && ItemsText(items) == before + (PrintItems(es, i, fmt, depth) + "]")
    ensures Trees(items, strtod) == es[i..]
    decreases es, 1, |es| - i
  {
    hide ReadsIntegers, Print, SyntaxOk, TextOf, Tree, Printable;
    var x := Printed(es[i], fmt, depth, strtod);
    var item := Item(before, x, "");
    var t := Print(es[i], fmt, depth);
    if i + 1 < |es| {
      var rest := PrintedItems(es, i + 1, fmt, depth, Gap(fmt), strtod);
      items := [item] + rest;
      assert items[1..] == rest;
      assert es[i..] == [es[i]] + es[i + 1..];
      var more := PrintItems(es, i + 1, fmt, depth);
      assert Comma(fmt) == "," + Gap(fmt);
      assert t + ("" + ("," + (Gap(fmt) + (more + "]")))) == (t + Comma(fmt) + more) + "]";
    } else {
      items := [item];
      assert ItemOk(items[0], strtod);
      LastItem(items, strtod);
      assert es[i..] == [es[i]];
      assert PrintItems(es, i + 1, fmt, depth) == "";
      assert t + ("" + "]") == (t + "" + "") + "]";
    }
  }

  // ---- objects

  /** The members from the i-th on, as they follow the brace or comma before them, and the closing brace. */
  function MembersText(ms: seq<Member>, i: nat, fmt: Style, pd: nat): string
    requires i <= |ms| && pd > 0
  {
    Lead(fmt) + PrintMembers(ms, i, fmt, pd) + Close(fmt, pd)
  }

  /** What follows a member's value. */
  function AfterMember(ms: seq<Member>, i: nat, fmt: Style, pd: nat): string
    requires i < |ms| && pd > 0
  {
    if i + 1 < |ms| then "," + MembersText(ms, i + 1, fmt, pd) else Lead(fmt) + Close(fmt, pd)
  }

  lemma MembersSplit(ms: seq<Member>, i: nat, fmt: Style, pd: nat)
    requires i < |ms| && pd > 0
    ensures MembersText(ms, i, fmt, pd) ==
              (Lead(fmt) + Indent(fmt, pd)) + (Quoted(ms[i].key) + (Colon(fmt) + (Print(ms[i].value, fmt, pd) + AfterMember(ms, i, fmt, pd))))
  {
    hide Print, Quoted, PrintMembers, Colon, Indent, Lead, Close, MemberEnd, AfterMember;
    var a, b, d, e, f := Indent(fmt, pd), Quoted(ms[i].key), Colon(fmt), Print(ms[i].value, fmt, pd), MemberEnd(fmt, i + 1 == |ms|);
    var g, h := PrintMembers(ms, i + 1, fmt, pd), Close(fmt, pd);
    NextMember(ms, i, fmt, pd);
    AfterIs(ms, i, fmt, pd);
    Nested(Lead(fmt), a, b, d, e, f, g, h);
  }

  lemma NextMember(ms: seq<Member>, i: nat, fmt: Style, pd: nat)
    requires i < |ms|
    ensures PrintMembers(ms, i, fmt, pd) ==
              Indent(fmt, pd) + Quoted(ms[i].key) + Colon(fmt) + Print(ms[i].value, fmt, pd)
              + MemberEnd(fmt, i + 1 == |ms|) + PrintMembers(ms, i + 1, fmt, pd)
  {
    hide Print, Quoted, Colon, Indent, MemberEnd;
  }

  lemma AfterIs(ms: seq<Member>, i: nat, fmt: Style, pd: nat)
    requires i < |ms| && pd > 0
    ensures MemberEnd(fmt, i + 1 == |ms|) + PrintMembers(ms, i + 1, fmt, pd) + Close(fmt, pd) == AfterMember(ms, i, fmt, pd)
  {
    hide Print, Quoted, Indent, Colon;
    var f, g, h := MemberEnd(fmt, i + 1 == |ms|), PrintMembers(ms, i + 1, fmt, pd), Close(fmt, pd);
    if i + 1 < |ms| {
      assert f == "," + Lead(fmt);
      assert f + g + h == "," + (Lead(fmt) + g + h);
    } else {
      assert f == Lead(fmt) && g == "";
    }
  }

  lemma Nested(l: string, a: string, b: string, d: string, e: string, f: string, g: string, h: string)
    ensures l + (a + b + d + e + f + g) + h == (l + a) + (b + (d + (e + (f + g + h))))
  {
  }

  lemma ObjectText(ms: seq<Member>, fmt: Style, pd: nat)
    ensures Print(Object(ms), fmt, pd) == "{" + MembersText(ms, 0, fmt, pd + 1)
  {
    hide PrintMembers;
    var body := PrintMembers(ms, 0, fmt, pd + 1);
    assert (if fmt.formatted then "{\n" else "{") == "{" + Lead(fmt);
    assert (if fmt.formatted then Tabs(pd) else "") == Indent(fmt, pd);
    assert ("{" + Lead(fmt)) + body + Indent(fmt, pd) + "}" == "{" + (Lead(fmt) + body + (Indent(fmt, pd) + "}"));
  }

  function ValueGap(fmt: Style): string { if fmt.formatted then "\t" else "" }

  lemma BlankIndent(fmt: Style, depth: nat)
    ensures Blank(Lead(fmt) + Indent(fmt, depth)) && Blank("") && Blank(ValueGap(fmt)) && Blank(Gap(fmt))
    ensures Colon(fmt) == ":" + ValueGap(fmt)
  {
  }

  lemma {:induction false} PrintedMembers(ms: seq<Member>, i: nat, fmt: Style, depth: nat, strtod: Strtod) returns (entries: seq<Entry>)
    requires i < |ms| && depth > 0 && CleanMembers(ms) && ReadsIntegers(strtod)
    ensures entries != [] && EntriesOk(entries, strtod) && EntriesText(entries) == MembersText(ms, i, fmt, depth)
    ensures Members(entries, strtod) == ms[i..]
    decreases ms, 1, |ms| - i
  {
    hide ReadsIntegers, Print, SyntaxOk, TextOf, Tree, Printable, Quoted, StrText, MembersText, EscapePieces, MeaningAll, AllOk, Lead, Indent, ValueGap, Blank, Colon;
    var key := EscapePieces(ms[i].key);
    QuotedIs(ms[i].key);
    BlankIndent(fmt, depth);
    BlankIndent(fmt, depth - 1);
    MembersSplit(ms, i, fmt, depth);
    var x := Printed(ms[i].value, fmt, depth, strtod);
    var more := i + 1 < |ms|;
    var item := Item(ValueGap(fmt), x, if more then "" else Lead(fmt) + Indent(fmt, depth - 1));
    var entry := Entry(Lead(fmt) + Indent(fmt, depth), key, "", item);
    assert ItemOk(item, strtod) && EntryOk(entry, strtod);
    if more {
      var rest := PrintedMembers(ms, i + 1, fmt, depth, strtod);
      entries := [entry] + rest;
      assert entries[1..] == rest;
      assert ms[i..] == [ms[i]] + ms[i + 1..];
      EntriesPrepend(entry, rest, strtod);
    } else {
      entries := [entry];
      assert EntryOk(entries[0], strtod);
      LastEntry(entries, strtod);
      assert ms[i..] == [ms[i]];
    }
    assert item.after + EntriesTail(entries) == AfterMember(ms, i, fmt, depth) by { TailText(ms, i, fmt, depth, entries); }
    EntryText(entry, entries, Colon(fmt), Print(ms[i].value, fmt, depth), AfterMember(ms, i, fmt, depth));
  }

  lemma TailText(ms: seq<Member>, i: nat, fmt: Style, depth: nat, entries: seq<Entry>)
    requires i < |ms| && depth > 0 && entries != []
    requires if i + 1 < |ms| then EntriesTail(entries) == "," + MembersText(ms, i + 1, fmt, depth) else EntriesTail(entries) == "}"
    ensures (if i + 1 < |ms| then "" else Lead(fmt) + Indent(fmt, depth - 1)) + EntriesTail(entries) == AfterMember(ms, i, fmt, depth)
  {
    hide EntriesTail, MembersText, Lead, Indent;
    if i + 1 == |ms| { assert (Lead(fmt) + Indent(fmt, depth - 1)) + "}" == Lead(fmt) + (Indent(fmt, depth - 1) + "}"); }
  }

  lemma EntryText(y: Entry, entries: seq<Entry>, colon: string, t: string, after: string)
    requires entries != [] && entries[0] == y && y.between == "" && colon == ":" + y.item.before && TextOf(y.item.value) == t
    requires y.item.after + EntriesTail(entries) == after
    ensures EntriesText(entries) == y.before + (StrText(y.key) + (colon + (t + after)))
  {
    hide StrText, TextOf, EntriesTail;
    assert "" + (":" + (y.item.before + (t + after))) == colon + (t + after);
  }

  lemma {:induction false} PrintedObject(ms: seq<Member>, fmt: Style, depth: nat, strtod: Strtod) returns (x: Syntax)
    requires CleanMembers(ms) && ReadsIntegers(strtod)
    ensures SyntaxOk(x, strtod) && TextOf(x) == Print(Object(ms), fmt, depth) && Tree(x, strtod) == Object(ms)
    decreases ms, 2
  {
    hide ReadsIntegers, PrintMembers, EntriesText, EntryOk, Print, MembersText, Blank;
    ObjectText(ms, fmt, depth);
    BlankIndent(fmt, depth);
    if ms == [] {
      NoItems(strtod);
      x := Obj(Lead(fmt) + Indent(fmt, depth), []);
      NoMembersText(fmt, depth);
    } else {
      var entries := PrintedMembers(ms, 0, fmt, depth + 1, strtod);
      x := Obj("", entries);
      assert ms[0..] == ms;
    }
  }

  lemma NoMembersText(fmt: Style, depth: nat)
    ensures MembersText([], 0, fmt, depth + 1) == (Lead(fmt) + Indent(fmt, depth)) + "}"
  {
    NothingPrinted(fmt, depth + 1);
    assert Lead(fmt) + "" + (Indent(fmt, depth) + "}") == (Lead(fmt) + Indent(fmt, depth)) + "}";
  }

  // ---- whole texts

  /** Nothing the printer writes starts like a byte order mark. */
  lemma StartsPlain(v: Json, fmt: Style)
    requires Printable(v)
    ensures |Print(v, fmt, 0)| > 0 && Print(v, fmt, 0)[0] as int < 0x80
  {
  }

  /** Parsing the printed text gives the tree back exactly if it nests no deeper than the parser's limit,
      formatted or not, whether or not the parser insists on reaching the end; deeper trees are refused. */
  lemma RoundTripIff(v: Json, fmt: Style, strtod: Strtod, toTheEnd: bool)
    requires Printable(v) && ReadsIntegers(strtod)
    ensures ParseText(Print(v, fmt, 0) + [NUL], strtod, toTheEnd)
              == Back(Nesting(v) <= NESTING_LIMIT, v, |Print(v, fmt, 0)|)
  {
    hide Print, ParseText, Nesting, Printable, ReadsIntegers, SyntaxOk, TextOf, Tree;
    var t := Print(v, fmt, 0);
    var c := t + [NUL];
    var x := Printed(v, fmt, 0, strtod);
    StartsPlain(v, fmt);
    assert c[0] == t[0];
    if |c| > 4 { assert c[..3][0] == c[0]; }
    assert c[0..|t|] == t && c[|t|..] == [NUL] && c[0..0] == "";
    assert IsText(c, x, 0, |t|, strtod);
    TextRead(c, x, 0, |t|, strtod, toTheEnd);
  }
}
