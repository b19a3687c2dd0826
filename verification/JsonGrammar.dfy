/** The texts of JSON, with every spelling and with blanks wherever they are allowed, as syntax trees; and
    the proof that the parser accepts exactly these texts and gives what they mean. */
module JsonGrammar {
  import opened JsonText
  import opened JsonReading
  import opened JsonStrings
  import opened JsonNumbers

  datatype Syntax =
    | Word(word: Json)
    | Num(text: string, value: Double)
    | Str(pieces: seq<Piece>)
    | Arr(blank: string, items: seq<Item>)
    | Obj(blank: string, entries: seq<Entry>)

  /** A value and the blanks around it. */
  datatype Item = Item(before: string, value: Syntax, after: string)

  datatype Entry = Entry(before: string, key: seq<Piece>, between: string, item: Item)

  predicate Blank(t: string) { forall k :: 0 <= k < |t| ==> t[k] <= ' ' }

  ghost predicate SyntaxOk(x: Syntax, strtod: Strtod)
    decreases x
  {
    match x
    case Word(v) => v.Null? || v.False? || v.True?
    case Num(t, d) => NumberOk(t, d, strtod)
    case Str(ps) => AllOk(ps)
    case Arr(b, items) => Blank(b) && forall k :: 0 <= k < |items| ==> ItemOk(items[k], strtod)
    case Obj(b, entries) => Blank(b) && forall k :: 0 <= k < |entries| ==> EntryOk(entries[k], strtod)
  }

  ghost predicate ItemOk(i: Item, strtod: Strtod)
    decreases i
  {
    Blank(i.before) && SyntaxOk(i.value, strtod) && Blank(i.after)
  }

  ghost predicate EntryOk(e: Entry, strtod: Strtod)
    decreases e
  {
    Blank(e.before) && AllOk(e.key) && Blank(e.between) && ItemOk(e.item, strtod)
  }

  ghost predicate ItemsOk(items: seq<Item>, strtod: Strtod) { forall k :: 0 <= k < |items| ==> ItemOk(items[k], strtod) }

  ghost predicate EntriesOk(entries: seq<Entry>, strtod: Strtod) { forall k :: 0 <= k < |entries| ==> EntryOk(entries[k], strtod) }

  // ---- the text

  function StrText(ps: seq<Piece>): string { "\"" + (WrittenAll(ps) + "\"") }

  function WordText(v: Json): string {
    match v case Null => "null" case True => "true" case _ => "false"
  }

  function TextOf(x: Syntax): (t: string)
    decreases x
  {
    match x
    case Word(v) => WordText(v)
    case Num(t, _) => t
    case Str(ps) => StrText(ps)
    case Arr(b, items) => "[" + (if items == [] then b + "]" else ItemsText(items))
    case Obj(b, entries) => "{" + (if entries == [] then b + "}" else EntriesText(entries))
  }

  /** The items with the commas between them and the closing bracket. */
  function ItemsText(items: seq<Item>): string
    requires items != []
    decreases items
  {
    items[0].before + (TextOf(items[0].value) + (items[0].after + ItemsTail(items)))
  }

  function ItemsTail(items: seq<Item>): string
    requires items != []
    decreases items, 0
  {
    if |items| > 1 then "," + ItemsText(items[1..]) else "]"
  }

  function EntriesText(entries: seq<Entry>): string
    requires entries != []
    decreases entries
  {
    var e := entries[0];
    e.before + (StrText(e.key) + (e.between + (":" + (e.item.before + (TextOf(e.item.value) + (e.item.after + EntriesTail(entries)))))))
  }

  function EntriesTail(entries: seq<Entry>): string
    requires entries != []
    decreases entries, 0
  {
    if |entries| > 1 then "," + EntriesText(entries[1..]) else "}"
  }

  // ---- the meaning

  ghost function Tree(x: Syntax, strtod: Strtod): Json
    requires SyntaxOk(x, strtod)
    decreases x
  {
    match x
    case Word(v) => v
    case Num(_, d) => Number(Saturate(d), d)
    case Str(ps) => String(MeaningAll(ps))
    case Arr(_, items) => Array(Trees(items, strtod))
    case Obj(_, entries) => Object(Members(entries, strtod))
  }

  ghost function Trees(items: seq<Item>, strtod: Strtod): (vs: seq<Json>)
    requires ItemsOk(items, strtod)
    ensures |vs| == |items|
    decreases items
  {
    if items == [] then [] else [Tree(items[0].value, strtod)] + Trees(items[1..], strtod)
  }

  ghost function Members(entries: seq<Entry>, strtod: Strtod): (ms: seq<Member>)
    requires EntriesOk(entries, strtod)
    ensures |ms| == |entries|
    decreases entries
  {
    if entries == [] then [] else
    assert EntryOk(entries[0], strtod) && ItemOk(entries[0].item, strtod);
    [Member(MeaningAll(entries[0].key), Tree(entries[0].item.value, strtod))] + Members(entries[1..], strtod)
  }

  function Depth(x: Syntax): nat
    decreases x
  {
    match x
    case Arr(_, items) => 1 + DeepestOf(items)
    case Obj(_, entries) => 1 + DeepestEntry(entries)
    case _ => 0
  }

  function DeepestOf(items: seq<Item>): nat
    decreases items
  {
    if items == [] then 0 else Max(Depth(items[0].value), DeepestOf(items[1..]))
  }

  function DeepestEntry(entries: seq<Entry>): nat
    decreases entries
  {
    if entries == [] then 0 else Max(Depth(entries[0].item.value), DeepestEntry(entries[1..]))
  }

  // ---- blanks

  lemma BlankSkipped(c: string, o: nat, b: string)
    requires Blank(b) && Reads(c, o, b) && o + |b| < |c| && c[o + |b|] > ' '
    ensures SkipWhitespace(c, o) == o + |b|
  {
    hide Reads;
    forall k | o <= k < o + |b| ensures c[k] <= ' ' { ReadsAt(c, o, b, k - o); }
    SkipTo(c, o, o + |b|);
  }

  lemma {:induction false} SkippedBlank(c: string, o: nat)
    requires o <= |c|
    ensures Blank(c[o..SkipWhitespace(c, o)])
    decreases |c| - o
  {
    if o < |c| && c[o] <= ' ' && o + 1 < |c| {
      SkippedBlank(c, o + 1);
      assert c[o..SkipWhitespace(c, o)] == [c[o]] + c[o + 1..SkipWhitespace(c, o + 1)];
    }
  }

  lemma BlankJoin(c: string, s: nat, o: nat, a: nat)
    requires s <= o <= a <= |c| && Blank(c[s..o]) && Blank(c[o..a])
    ensures Blank(c[s..a])
  {
    assert c[s..a] == c[s..o] + c[o..a];
  }

  /** Behind blanks, or none, a mark that is no number character. */
  lemma EndsThere(c: string, e: nat, b: string)
    requires Blank(b) && Reads(c, e, b) && e + |b| < |c| && !NumberChar(c[e + |b|])
    ensures Ends(c, e)
  {
    hide Reads;
    if b != "" { ReadsAt(c, e, b, 0); }
  }

  lemma {:induction false} FirstOf(x: Syntax, strtod: Strtod)
    requires SyntaxOk(x, strtod)
    ensures |TextOf(x)| > 0 && TextOf(x)[0] > ' ' && TextOf(x)[0] != ']' && TextOf(x)[0] != '}'
  {
    hide ItemsText, EntriesText, WrittenAll;
  }

  // ---- what is written is read

  lemma WordRead(v: Json, c: string, o: nat, depth: nat, strtod: Strtod)
    requires v.Null? || v.False? || v.True?
    requires Reads(c, o, WordText(v))
    ensures o < |c| && ParseValue(c, o, depth, strtod) == Ok(v, o + |WordText(v)|)
  {
    ReadsAt(c, o, WordText(v), 0);
    NotLiteral(c, o, if v.Null? then "true" else "null");
    NotLiteral(c, o, if v.False? then "true" else "false");
  }

  lemma StrRead(ps: seq<Piece>, c: string, o: nat, depth: nat, strtod: Strtod)
    requires AllOk(ps) && Reads(c, o, StrText(ps))
    ensures o < |c| && ParseValue(c, o, depth, strtod) == Ok(String(MeaningAll(ps)), o + |StrText(ps)|)
  {
    hide Reads, WrittenAll, MeaningAll, AllOk, ParseString;
    StringUnderstood(ps, c, o);
    ReadsAt(c, o, StrText(ps), 0);
    NoWord(c, o);
  }

  /** The text of a syntax tree is parsed to its meaning if it nests within the limit and refused if not. */
  lemma {:induction false} ValueRead(x: Syntax, c: string, o: nat, depth: nat, strtod: Strtod)
    requires SyntaxOk(x, strtod) && depth <= NESTING_LIMIT && Reads(c, o, TextOf(x)) && Ends(c, o + |TextOf(x)|)
    ensures o < |c| && ParseValue(c, o, depth, strtod)
              == Back(depth + Depth(x) <= NESTING_LIMIT, Tree(x, strtod), o + |TextOf(x)|)
    decreases x, 1
  {
    hide ParseValue, Reads, NumberOk, AllOk, StrText, WordText;
    match x {
      case Word(v) => WordRead(v, c, o, depth, strtod);
      case Num(t, d) =>
        NumberRead(t, d, c, o, depth, strtod);
      case Str(ps) => StrRead(ps, c, o, depth, strtod);
      case Arr(_, _) => ArrayRead(x, c, o, depth, strtod);
      case Obj(_, _) => ObjectRead(x, c, o, depth, strtod);
    }
  }

  /** Where the parts of the first item lie: its value at v, what follows the value at e, the mark behind it at d. */
  lemma ItemLayout(items: seq<Item>, c: string, s: nat, strtod: Strtod) returns (v: nat, e: nat, d: nat)
    requires items != [] && ItemsOk(items, strtod) && Reads(c, s, ItemsText(items))
    ensures v == s + |items[0].before| && e == v + |TextOf(items[0].value)| && d == e + |items[0].after|
    ensures d < |c| && Reads(c, v, TextOf(items[0].value)) && Ends(c, e)
    ensures SkipWhitespace(c, s) == v && SkipWhitespace(c, e) == d && d + |ItemsTail(items)| == s + |ItemsText(items)|
    ensures c[d] == (if |items| > 1 then ',' else ']') && (|items| > 1 ==> Reads(c, d + 1, ItemsText(items[1..])))
  {
    hide Reads, TextOf, SkipWhitespace, SyntaxOk, Blank, Ends;
    var i := items[0];
    assert ItemOk(i, strtod);
    var t := TextOf(i.value);
    var tail := ItemsTail(items);
    v, e, d := s + |i.before|, s + |i.before| + |t|, s + |i.before| + |t| + |i.after|;
    ReadsSplit(c, s, i.before, t + (i.after + tail));
    ReadsSplit(c, v, t, i.after + tail);
    ReadsSplit(c, e, i.after, tail);
    ReadsAt(c, d, tail, 0);
    if |items| > 1 { ReadsSplit(c, d, ",", ItemsText(items[1..])); }
    FirstOf(i.value, strtod);
    ReadsAt(c, v, t, 0);
    BlankSkipped(c, s, i.before);
    BlankSkipped(c, e, i.after);
    EndsThere(c, e, i.after);
  }

  lemma {:induction false} ItemsRead(items: seq<Item>, c: string, s: nat, o: nat, depth: nat, strtod: Strtod)
    requires items != [] && ItemsOk(items, strtod) && depth <= NESTING_LIMIT && Reads(c, s, ItemsText(items))
    requires o <= |c| && s <= |c| && SkipWhitespace(c, o) == SkipWhitespace(c, s)
    ensures ParseItems(c, o, depth, strtod)
              == Back(depth + DeepestOf(items) <= NESTING_LIMIT, Trees(items, strtod), s + |ItemsText(items)|)
    decreases items, 0
  {
    hide Reads, TextOf, SkipWhitespace, SyntaxOk, ParseValue, ParseItems, Blank, Ends, Depth, Tree, ItemsText;
    var v, e, d := ItemLayout(items, c, s, strtod);
    assert ItemOk(items[0], strtod);
    ValueRead(items[0].value, c, v, depth, strtod);
    MarkStays(c, d);
    if |items| > 1 {
      ItemsRead(items[1..], c, d + 1, d + 1, depth, strtod);
      AfterItem(c, o, e, d, depth, strtod);
    } else {
      AfterItem(c, o, e, d, depth, strtod);
      LastItem(items, strtod);
    }
  }

  lemma MarkStays(c: string, d: nat)
    requires d < |c| && c[d] > ' '
    ensures SkipWhitespace(c, d) == d
  {
  }

  /** The parser's own steps after an item. */
  lemma AfterItem(c: string, o: nat, e: nat, d: nat, depth: nat, strtod: Strtod)
    requires o <= |c| && e <= d < |c| && SkipWhitespace(c, e) == d && (c[d] == ',' || c[d] == ']')
    requires var r := ParseValue(c, SkipWhitespace(c, o), depth, strtod); r.Ok? ==> r.next == e
    ensures ParseItems(c, o, depth, strtod) ==
              match ParseValue(c, SkipWhitespace(c, o), depth, strtod)
              case Fail => Fail
              case Ok(v, _) =>
                if c[d] == ']' then Ok([v], d + 1) else
                match ParseItems(c, d + 1, depth, strtod) case Fail => Fail case Ok(vs, z) => Ok([v] + vs, z)
  {
    hide ParseValue, SkipWhitespace;
  }

  lemma {:induction false} ArrayRead(x: Syntax, c: string, o: nat, depth: nat, strtod: Strtod)
    requires x.Arr? && SyntaxOk(x, strtod) && depth <= NESTING_LIMIT && Reads(c, o, TextOf(x))
    ensures o < |c| && ParseValue(c, o, depth, strtod)
              == Back(depth + Depth(x) <= NESTING_LIMIT, Tree(x, strtod), o + |TextOf(x)|)
    decreases x, 0
  {
    hide Reads, SkipWhitespace, ParseItems, Blank, ItemsText, DeepestOf, Literal, Trees, ItemOk;
    var rest := if x.items == [] then x.blank + "]" else ItemsText(x.items);
    ReadsSplit(c, o, "[", rest);
    ReadsAt(c, o, "[", 0);
    NoWord(c, o);
    if x.items == [] {
      ReadsSplit(c, o + 1, x.blank, "]");
      ReadsAt(c, o + 1 + |x.blank|, "]", 0);
      BlankSkipped(c, o + 1, x.blank);
      NoItems(strtod);
    } else {
      var v, _, _ := ItemLayout(x.items, c, o + 1, strtod);
      FirstItem(x.items, c, o + 1, v, strtod);
      if depth < NESTING_LIMIT {
        ItemsRead(x.items, c, o + 1, v, depth + 1, strtod);
      }
    }
  }

  lemma NoItems(strtod: Strtod)
    ensures ItemsOk([], strtod) && Trees([], strtod) == [] && DeepestOf([]) == 0
    ensures EntriesOk([], strtod) && Members([], strtod) == [] && DeepestEntry([]) == 0
  {
  }

  lemma LastItem(items: seq<Item>, strtod: Strtod)
    requires |items| == 1 && ItemsOk(items, strtod)
    ensures ItemOk(items[0], strtod) && Trees(items, strtod) == [Tree(items[0].value, strtod)]
    ensures DeepestOf(items) == Depth(items[0].value) && ItemsTail(items) == "]"
  {
    hide Tree, Depth, SyntaxOk;
    assert items[1..] == [];
    NoItems(strtod);
  }

  lemma LastEntry(entries: seq<Entry>, strtod: Strtod)
    requires |entries| == 1 && EntriesOk(entries, strtod)
    ensures EntryOk(entries[0], strtod) && ItemOk(entries[0].item, strtod)
    ensures Members(entries, strtod) == [Member(MeaningAll(entries[0].key), Tree(entries[0].item.value, strtod))]
    ensures DeepestEntry(entries) == Depth(entries[0].item.value) && EntriesTail(entries) == "}"
  {
    hide Tree, Depth, SyntaxOk, MeaningAll, AllOk;
    assert EntryOk(entries[0], strtod);
    assert entries[1..] == [];
    NoItems(strtod);
  }

  lemma FirstItem(items: seq<Item>, c: string, s: nat, v: nat, strtod: Strtod)
    requires items != [] && ItemsOk(items, strtod) && Reads(c, v, TextOf(items[0].value))
    ensures v < |c| && c[v] > ' ' && c[v] != ']' && SkipWhitespace(c, v) == v
  {
    hide Reads, TextOf, SyntaxOk, Blank;
    assert ItemOk(items[0], strtod);
    FirstOf(items[0].value, strtod);
    ReadsAt(c, v, TextOf(items[0].value), 0);
  }

  /** Where the parts of the first member lie: its key at q, what follows the key at b, the colon at k, its
      value at v, what follows the value at e, the mark behind it at d. */
  lemma EntryLayout(entries: seq<Entry>, c: string, s: nat, strtod: Strtod) returns (q: nat, b: nat, k: nat, v: nat, e: nat, d: nat)
    requires entries != [] && EntriesOk(entries, strtod) && Reads(c, s, EntriesText(entries))
    ensures s <= q < b <= k < v < e <= d < |c| && SkipWhitespace(c, s) == q
    ensures Reads(c, q, StrText(entries[0].key)) && b == q + |StrText(entries[0].key)| && SkipWhitespace(c, b) == k && c[k] == ':'
    ensures SkipWhitespace(c, k + 1) == v && Reads(c, v, TextOf(entries[0].item.value)) && Ends(c, e)
    ensures e == v + |TextOf(entries[0].item.value)|
    ensures SkipWhitespace(c, e) == d && d + |EntriesTail(entries)| == s + |EntriesText(entries)|
    ensures c[d] == (if |entries| > 1 then ',' else '}') && (|entries| > 1 ==> Reads(c, d + 1, EntriesText(entries[1..])))
    ensures c[q] == '\"'
  {
    hide Reads, TextOf, SkipWhitespace, SyntaxOk, Blank, Ends, StrText, WrittenAll, AllOk;
    var y := entries[0];
    assert EntryOk(y, strtod);
    var key, t, tail := StrText(y.key), TextOf(y.item.value), EntriesTail(entries);
    var t3 := y.item.after + tail;
    var t2 := y.item.before + (t + t3);
    var t1 := y.between + (":" + t2);
    q, b, k := s + |y.before|, s + |y.before| + |key|, s + |y.before| + |key| + |y.between|;
    v := k + 1 + |y.item.before|;
    e := v + |t|;
    d := e + |y.item.after|;
    ReadsSplit(c, s, y.before, key + t1);
    ReadsSplit(c, q, key, t1);
    ReadsSplit(c, b, y.between, ":" + t2);
    ReadsSplit(c, k, ":", t2);
    ReadsSplit(c, k + 1, y.item.before, t + t3);
    ReadsSplit(c, v, t, t3);
    ReadsSplit(c, e, y.item.after, tail);
    ReadsAt(c, d, tail, 0);
    if |entries| > 1 { ReadsSplit(c, d, ",", EntriesText(entries[1..])); }
    QuoteFirst(y.key);
    ReadsAt(c, q, key, 0);
    ReadsAt(c, k, ":", 0);
    FirstOf(y.item.value, strtod);
    ReadsAt(c, v, t, 0);
    BlankSkipped(c, s, y.before);
    BlankSkipped(c, b, y.between);
    BlankSkipped(c, k + 1, y.item.before);
    BlankSkipped(c, e, y.item.after);
    EndsThere(c, e, y.item.after);
  }

  lemma QuoteFirst(ps: seq<Piece>)
    ensures |StrText(ps)| >= 2 && StrText(ps)[0] == '\"'
  {
    hide WrittenAll;
  }

  lemma {:induction false} EntriesRead(entries: seq<Entry>, c: string, s: nat, o: nat, depth: nat, strtod: Strtod)
    requires entries != [] && EntriesOk(entries, strtod) && depth <= NESTING_LIMIT && Reads(c, s, EntriesText(entries))
    requires o <= |c| && s <= |c| && SkipWhitespace(c, o) == SkipWhitespace(c, s)
    ensures ParseMembers(c, o, depth, strtod)
              == Back(depth + DeepestEntry(entries) <= NESTING_LIMIT, Members(entries, strtod), s + |EntriesText(entries)|)
    decreases entries, 0
  {
    hide Reads, TextOf, SkipWhitespace, SyntaxOk, ParseValue, ParseString, ParseMember, ParseMembers, Blank, Ends, Depth, Tree, EntriesText, AllOk, MeaningAll, StrText;
    var q, b, k, v, e, d := EntryLayout(entries, c, s, strtod);
    assert EntryOk(entries[0], strtod) && ItemOk(entries[0].item, strtod);
    StrTextIs(entries[0].key);
    StringUnderstood(entries[0].key, c, q);
    ValueRead(entries[0].item.value, c, v, depth, strtod);
    MemberRead(c, o, q, b, k, v, depth, strtod);
    if |entries| > 1 {
      EntriesRead(entries[1..], c, d + 1, d + 1, depth, strtod);
    } else {
      LastEntry(entries, strtod);
    }
    AfterEntry(c, o, e, d, depth, strtod);
  }

  lemma StrTextIs(ps: seq<Piece>)
    ensures StrText(ps) == "\"" + (WrittenAll(ps) + "\"") && |StrText(ps)| == |WrittenAll(ps)| + 2
  {
  }

  /** The parser's own steps through a member. */
  lemma MemberRead(c: string, o: nat, q: nat, b: nat, k: nat, v: nat, depth: nat, strtod: Strtod)
    requires o < |c| && q < |c| && b <= k < |c| && v <= |c| && SkipWhitespace(c, o) == q && SkipWhitespace(c, b) == k
    requires c[k] == ':' && SkipWhitespace(c, k + 1) == v && ParseString(c, q).Ok? && ParseString(c, q).next == b
    ensures ParseMember(c, o, depth, strtod) ==
              match ParseValue(c, v, depth, strtod) case Fail => Fail case Ok(w, e) => Ok(Member(ParseString(c, q).value, w), e)
  {
    hide ParseString, ParseValue, SkipWhitespace;
  }

  lemma AfterEntry(c: string, o: nat, e: nat, d: nat, depth: nat, strtod: Strtod)
    requires o <= |c| && e <= d < |c| && SkipWhitespace(c, e) == d && (c[d] == ',' || c[d] == '}')
    requires var r := ParseMember(c, o, depth, strtod); r.Ok? ==> r.next == e
    ensures ParseMembers(c, o, depth, strtod) ==
              match ParseMember(c, o, depth, strtod)
              case Fail => Fail
              case Ok(m, _) =>
                if c[d] == '}' then Ok([m], d + 1) else
                match ParseMembers(c, d + 1, depth, strtod) case Fail => Fail case Ok(ms, z) => Ok([m] + ms, z)
  {
    hide ParseMember, SkipWhitespace;
  }

  lemma {:induction false} ObjectRead(x: Syntax, c: string, o: nat, depth: nat, strtod: Strtod)
    requires x.Obj? && SyntaxOk(x, strtod) && depth <= NESTING_LIMIT && Reads(c, o, TextOf(x))
    ensures o < |c| && ParseValue(c, o, depth, strtod)
              == Back(depth + Depth(x) <= NESTING_LIMIT, Tree(x, strtod), o + |TextOf(x)|)
    decreases x, 0
  {
    hide Reads, SkipWhitespace, ParseMembers, Blank, EntriesText, DeepestEntry, Literal, Members, EntryOk;
    var rest := if x.entries == [] then x.blank + "}" else EntriesText(x.entries);
    ReadsSplit(c, o, "{", rest);
    ReadsAt(c, o, "{", 0);
    NoWord(c, o);
    if x.entries == [] {
      ReadsSplit(c, o + 1, x.blank, "}");
      ReadsAt(c, o + 1 + |x.blank|, "}", 0);
      BlankSkipped(c, o + 1, x.blank);
      NoItems(strtod);
    } else {
      var q, _, _, _, _, _ := EntryLayout(x.entries, c, o + 1, strtod);
      MarkStays(c, q);
      if depth < NESTING_LIMIT {
        EntriesRead(x.entries, c, o + 1, q, depth + 1, strtod);
      }
    }
  }

  // ---- what is read was written so

  /** Every \\u in the text has four hexadecimal digits. */
  ghost predicate AllSpelt(c: string) {
    forall q :: 0 <= q < |c| - 1 && c[q] == '\\' && c[q + 1] == 'u' ==> HasDigits(c, q + 2)
  }

  lemma {:induction false} SpeltAnywhere(c: string, p: nat, e: nat)
    requires AllSpelt(c) && e < |c|
    ensures WellSpelt(c, p, e)
    decreases |c| - p
  {
    hide HasDigits, ParseHex4;
    if p < e {
      if c[p] != '\\' { SpeltAnywhere(c, p + 1, e); }
      else if c[p + 1] != 'u' { SpeltAnywhere(c, p + 2, e); }
      else if e - p >= 6 {
        SpeltAnywhere(c, p + 6, e);
        if e - p >= 12 { SpeltAnywhere(c, p + 12, e); }
      }
    }
  }

  lemma StrWritten(c: string, o: nat) returns (ps: seq<Piece>)
    requires o < |c| && AllSpelt(c) && ParseString(c, o).Ok?
    ensures var r := ParseString(c, o);
            AllOk(ps) && r.value == MeaningAll(ps) && c[o..r.next] == StrText(ps) && |StrText(ps)| == r.next - o
  {
    hide WrittenAll, MeaningAll, AllOk, AllSpelt, WellSpelt, ParseString;
    var r := ParseString(c, o);
    if ClosingQuote(c, o + 1).Ok? { SpeltAnywhere(c, o + 1, ClosingQuote(c, o + 1).next); }
    StringIff(c, o, r.value, r.next);
    ps :| AllOk(ps) && Reads(c, o, "\"" + (WrittenAll(ps) + "\"")) && r.value == MeaningAll(ps) && r.next == o + |WrittenAll(ps)| + 2;
  }

  /** c[s..n] is the text of x. */
  ghost predicate Spans(c: string, s: nat, n: nat, t: string) { s <= n <= |c| && c[s..n] == t }

  lemma SpansJoin(c: string, s: nat, m: nat, n: nat, t: string, u: string)
    requires Spans(c, s, m, t) && Spans(c, m, n, u)
    ensures Spans(c, s, n, t + u)
  {
    assert c[s..n] == c[s..m] + c[m..n];
  }

  lemma OneMark(c: string, d: nat, mark: char)
    requires d < |c| && c[d] == mark
    ensures Spans(c, d, d + 1, [mark])
  {
  }

  /** A value is followed by a mark, perhaps behind blanks. */
  lemma MarkEnds(c: string, e: nat, d: nat)
    requires e <= |c| && SkipWhitespace(c, e) == d && d < |c| && !NumberChar(c[d])
    ensures Ends(c, e) && Spans(c, e, d, c[e..d]) && Blank(c[e..d])
  {
    SkippedBlank(c, e);
    if e < d { assert c[e..d][0] == c[e]; }
  }

  lemma {:induction false} ValueWritten(c: string, o: nat, depth: nat, strtod: Strtod) returns (x: Syntax)
    requires o <= |c| && AllSpelt(c) && depth <= NESTING_LIMIT && ParseValue(c, o, depth, strtod).Ok?
    requires Ends(c, ParseValue(c, o, depth, strtod).next)
    ensures var r := ParseValue(c, o, depth, strtod);
            && SyntaxOk(x, strtod) && Spans(c, o, r.next, TextOf(x)) && r.value == Tree(x, strtod)
            && depth + Depth(x) <= NESTING_LIMIT
    decreases |c| - o, 1
  {
    hide AllSpelt, NumberOk, AllOk, ParseString, ParseNumber, ParseArray, ParseObject, StrText, Ends, MeaningAll;
    var r := ParseValue(c, o, depth, strtod);
    if r.value.Null? || r.value.True? || r.value.False? {
      x := Word(r.value);
      WordWritten(c, o, depth, strtod);
    } else if c[o] == '\"' {
      NoWord(c, o);
      var ps := StrWritten(c, o);
      x := Str(ps);
    } else if c[o] == '-' || '0' <= c[o] <= '9' {
      NoWord(c, o);
      NumberWritten(c, o, strtod);
      x := Num(c[o..r.next], r.value.valuedouble);
    } else if c[o] == '[' {
      NoWord(c, o);
      x := ArrayWritten(c, o, depth, strtod);
    } else {
      NoWord(c, o);
      x := ObjectWritten(c, o, depth, strtod);
    }
  }

  /** The parser's cases. */
  lemma WordWritten(c: string, o: nat, depth: nat, strtod: Strtod)
    requires o <= |c| && ParseValue(c, o, depth, strtod).Ok?
    requires var v := ParseValue(c, o, depth, strtod).value; v.Null? || v.True? || v.False?
    ensures var r := ParseValue(c, o, depth, strtod); Spans(c, o, r.next, WordText(r.value))
  {
    hide ParseString;
  }

  lemma {:induction false} ArrayWritten(c: string, o: nat, depth: nat, strtod: Strtod) returns (x: Syntax)
    requires o < |c| && AllSpelt(c) && c[o] == '[' && ParseArray(c, o, depth, strtod).Ok?
    ensures var r := ParseArray(c, o, depth, strtod);
            && SyntaxOk(x, strtod) && Spans(c, o, r.next, TextOf(x)) && r.value == Tree(x, strtod)
            && depth + Depth(x) <= NESTING_LIMIT
    decreases |c| - o, 0
  {
    hide AllSpelt, ParseItems, Spans, Blank, DeepestOf, ItemsText, ItemOk;
    var r := ParseArray(c, o, depth, strtod);
    var a := SkipWhitespace(c, o + 1);
    OneMark(c, o, '[');
    SkippedBlank(c, o + 1);
    if c[a] == ']' {
      x := Arr(c[o + 1..a], []);
      NoItems(strtod);
      Itself(c, o + 1, a);
      OneMark(c, a, ']');
      SpansJoin(c, o + 1, a, a + 1, x.blank, "]");
      SpansJoin(c, o, o + 1, a + 1, "[", x.blank + "]");
    } else {
      var items := ItemsWritten(c, o + 1, a, depth + 1, strtod);
      x := Arr("", items);
      NothingIsBlank();
      SpansJoin(c, o, o + 1, r.next, "[", ItemsText(items));
    }
  }

  lemma Itself(c: string, s: nat, n: nat)
    requires s <= n <= |c|
    ensures Spans(c, s, n, c[s..n])
  {
  }

  lemma NothingIsBlank()
    ensures Blank("")
  {
  }

  lemma {:induction false} ItemsWritten(c: string, s: nat, o: nat, depth: nat, strtod: Strtod) returns (items: seq<Item>)
    requires s <= o <= |c| && Blank(c[s..o]) && AllSpelt(c) && depth <= NESTING_LIMIT && ParseItems(c, o, depth, strtod).Ok?
    ensures var r := ParseItems(c, o, depth, strtod);
            && items != [] && ItemsOk(items, strtod) && Spans(c, s, r.next, ItemsText(items))
            && r.value == Trees(items, strtod) && depth + DeepestOf(items) <= NESTING_LIMIT
    decreases |c| - o, 2
  {
    hide AllSpelt, ParseItems, ParseValue, Spans, Blank, DeepestOf, ItemsText, ItemsTail, SyntaxOk, SkipWhitespace, Ends, Tree, Depth, TextOf, NumberChar;
    var a := SkipWhitespace(c, o);
    SkippedBlank(c, o);
    BlankJoin(c, s, o, a);
    ItemSteps(c, o, depth, strtod);
    var b := ParseValue(c, a, depth, strtod).next;
    var d := SkipWhitespace(c, b);
    MarkEnds(c, b, d);
    var x := ValueWritten(c, a, depth, strtod);
    var item := Item(c[s..a], x, c[b..d]);
    Itself(c, s, a);
    Itself(c, b, d);
    OneMark(c, d, c[d]);
    if c[d] == ',' {
      NothingIsBlank();
      assert c[d + 1..d + 1] == "";
      var rest := ItemsWritten(c, d + 1, d + 1, depth, strtod);
      items := [item] + rest;
      assert items[1..] == rest;
      SpansJoin(c, d, d + 1, ParseItems(c, d + 1, depth, strtod).next, ",", ItemsText(rest));
      ItemsPrepend(item, rest, strtod);
    } else {
      items := [item];
      LastItem(items, strtod);
    }
    ItemSpans(c, s, a, b, d, ParseItems(c, o, depth, strtod).next, items);
  }

  /** What an accepted list of items tells of its first. */
  lemma ItemSteps(c: string, o: nat, depth: nat, strtod: Strtod)
    requires o <= |c| && ParseItems(c, o, depth, strtod).Ok?
    ensures var r := ParseItems(c, o, depth, strtod);
            var v := ParseValue(c, SkipWhitespace(c, o), depth, strtod);
            v.Ok? && o <= SkipWhitespace(c, o) < v.next &&
            var d := SkipWhitespace(c, v.next);
            d < |c| && !NumberChar(c[d]) &&
            if c[d] == ',' then ParseItems(c, d + 1, depth, strtod).Ok? && r == Ok([v.value] + ParseItems(c, d + 1, depth, strtod).value, ParseItems(c, d + 1, depth, strtod).next)
            else c[d] == ']' && r == Ok([v.value], d + 1)
  {
    hide ParseValue, SkipWhitespace;
  }

  lemma ItemsPrepend(item: Item, rest: seq<Item>, strtod: Strtod)
    requires ItemOk(item, strtod) && ItemsOk(rest, strtod) && rest != []
    ensures var items := [item] + rest;
            && ItemsOk(items, strtod) && Trees(items, strtod) == [Tree(item.value, strtod)] + Trees(rest, strtod)
            && DeepestOf(items) == Max(Depth(item.value), DeepestOf(rest)) && ItemsTail(items) == "," + ItemsText(rest)
  {
    hide Tree, Depth, SyntaxOk, ItemsText;
    assert ([item] + rest)[1..] == rest;
  }

  lemma ItemSpans(c: string, s: nat, a: nat, b: nat, d: nat, n: nat, items: seq<Item>)
    requires items != [] && Spans(c, s, a, items[0].before) && Spans(c, a, b, TextOf(items[0].value))
    requires Spans(c, b, d, items[0].after) && Spans(c, d, n, ItemsTail(items))
    ensures Spans(c, s, n, ItemsText(items))
  {
    hide Spans, TextOf, ItemsTail;
    var i := items[0];
    SpansJoin(c, b, d, n, i.after, ItemsTail(items));
    SpansJoin(c, a, b, n, TextOf(i.value), i.after + ItemsTail(items));
    SpansJoin(c, s, a, n, i.before, TextOf(i.value) + (i.after + ItemsTail(items)));
  }

  lemma {:induction false} ObjectWritten(c: string, o: nat, depth: nat, strtod: Strtod) returns (x: Syntax)
    requires o < |c| && AllSpelt(c) && c[o] == '{' && ParseObject(c, o, depth, strtod).Ok?
    ensures var r := ParseObject(c, o, depth, strtod);
            && SyntaxOk(x, strtod) && Spans(c, o, r.next, TextOf(x)) && r.value == Tree(x, strtod)
            && depth + Depth(x) <= NESTING_LIMIT
    decreases |c| - o, 0
  {
    hide AllSpelt, ParseMembers, Spans, Blank, DeepestEntry, EntriesText, EntryOk;
    var r := ParseObject(c, o, depth, strtod);
    var a := SkipWhitespace(c, o + 1);
    OneMark(c, o, '{');
    SkippedBlank(c, o + 1);
    if c[a] == '}' {
      x := Obj(c[o + 1..a], []);
      NoItems(strtod);
      Itself(c, o + 1, a);
      OneMark(c, a, '}');
      SpansJoin(c, o + 1, a, a + 1, x.blank, "}");
      SpansJoin(c, o, o + 1, a + 1, "{", x.blank + "}");
    } else {
      var entries := EntriesWritten(c, o + 1, a, depth + 1, strtod);
      x := Obj("", entries);
      NothingIsBlank();
      SpansJoin(c, o, o + 1, r.next, "{", EntriesText(entries));
    }
  }

  lemma {:induction false} EntriesWritten(c: string, s: nat, o: nat, depth: nat, strtod: Strtod) returns (entries: seq<Entry>)
    requires s <= o <= |c| && Blank(c[s..o]) && AllSpelt(c) && depth <= NESTING_LIMIT && ParseMembers(c, o, depth, strtod).Ok?
    ensures var r := ParseMembers(c, o, depth, strtod);
            && entries != [] && EntriesOk(entries, strtod) && Spans(c, s, r.next, EntriesText(entries))
            && r.value == Members(entries, strtod) && depth + DeepestEntry(entries) <= NESTING_LIMIT
    decreases |c| - o, 3
  {
    hide AllSpelt, ParseMembers, ParseMember, ParseString, ParseValue, Spans, Blank, DeepestEntry, EntriesText, EntriesTail, SyntaxOk, SkipWhitespace, Ends, Tree, Depth, TextOf, NumberChar, MeaningAll, AllOk, StrText;
    MemberSteps(c, o, depth, strtod);
    var q := SkipWhitespace(c, o);
    var b := ParseString(c, q).next;
    var k := SkipWhitespace(c, b);
    var v := SkipWhitespace(c, k + 1);
    var e := ParseValue(c, v, depth, strtod).next;
    var d := SkipWhitespace(c, e);
    SkippedBlank(c, o);
    BlankJoin(c, s, o, q);
    SkippedBlank(c, b);
    SkippedBlank(c, k + 1);
    MarkEnds(c, e, d);
    var ps := StrWritten(c, q);
    var x := ValueWritten(c, v, depth, strtod);
    var entry := Entry(c[s..q], ps, c[b..k], Item(c[k + 1..v], x, c[e..d]));
    assert ItemOk(entry.item, strtod) && EntryOk(entry, strtod);
    OneMark(c, d, c[d]);
    if c[d] == ',' {
      NothingIsBlank();
      assert c[d + 1..d + 1] == "";
      var rest := EntriesWritten(c, d + 1, d + 1, depth, strtod);
      entries := [entry] + rest;
      assert entries[1..] == rest;
      SpansJoin(c, d, d + 1, ParseMembers(c, d + 1, depth, strtod).next, ",", EntriesText(rest));
      EntriesPrepend(entry, rest, strtod);
    } else {
      entries := [entry];
      assert EntryOk(entries[0], strtod);
      LastEntry(entries, strtod);
    }
    StringSpan(c, q, ps);
    EntrySpans(c, s, q, b, k, v, e, d, ParseMembers(c, o, depth, strtod).next, entries);
  }

  lemma StringSpan(c: string, q: nat, ps: seq<Piece>)
    requires q < |c| && ParseString(c, q).Ok? && c[q..ParseString(c, q).next] == StrText(ps)
    ensures Spans(c, q, ParseString(c, q).next, StrText(ps))
  {
    hide ParseString;
  }

  /** What an accepted list of members tells of its first. */
  lemma MemberSteps(c: string, o: nat, depth: nat, strtod: Strtod)
    requires o <= |c| && ParseMembers(c, o, depth, strtod).Ok?
    ensures o < |c| && SkipWhitespace(c, o) < |c| &&
            var q := ParseString(c, SkipWhitespace(c, o));
            q.Ok? &&
            var k := SkipWhitespace(c, q.next);
            k < |c| && c[k] == ':' &&
            var v := ParseValue(c, SkipWhitespace(c, k + 1), depth, strtod);
            v.Ok? &&
            var d := SkipWhitespace(c, v.next);
            d < |c| && !NumberChar(c[d]) &&
            var r := ParseMembers(c, o, depth, strtod);
            if c[d] == ',' then
              ParseMembers(c, d + 1, depth, strtod).Ok? &&
              r == Ok([Member(q.value, v.value)] + ParseMembers(c, d + 1, depth, strtod).value, ParseMembers(c, d + 1, depth, strtod).next)
            else c[d] == '}' && r == Ok([Member(q.value, v.value)], d + 1)
  {
    hide ParseString, ParseValue, SkipWhitespace;
  }

  lemma EntriesPrepend(entry: Entry, rest: seq<Entry>, strtod: Strtod)
    requires EntryOk(entry, strtod) && ItemOk(entry.item, strtod) && EntriesOk(rest, strtod) && rest != []
    ensures var entries := [entry] + rest;
            && EntriesOk(entries, strtod)
            && Members(entries, strtod) == [Member(MeaningAll(entry.key), Tree(entry.item.value, strtod))] + Members(rest, strtod)
            && DeepestEntry(entries) == Max(Depth(entry.item.value), DeepestEntry(rest)) && EntriesTail(entries) == "," + EntriesText(rest)
  {
    hide Tree, Depth, SyntaxOk, EntriesText, MeaningAll, AllOk;
    assert ([entry] + rest)[1..] == rest;
  }

  lemma EntrySpans(c: string, s: nat, q: nat, b: nat, k: nat, v: nat, e: nat, d: nat, n: nat, entries: seq<Entry>)
    requires entries != [] && s <= q <= |c| && b <= k < |c| && k < v <= |c| && e <= d <= |c| && c[k] == ':'
    requires c[s..q] == entries[0].before && Spans(c, q, b, StrText(entries[0].key)) && c[b..k] == entries[0].between
    requires c[k + 1..v] == entries[0].item.before && Spans(c, v, e, TextOf(entries[0].item.value)) && c[e..d] == entries[0].item.after
    requires Spans(c, d, n, EntriesTail(entries))
    ensures Spans(c, s, n, EntriesText(entries))
  {
    hide Spans, TextOf, EntriesTail, StrText;
    var y, tail := entries[0], EntriesTail(entries);
    Itself(c, s, q);
    Itself(c, b, k);
    OneMark(c, k, ':');
    Itself(c, k + 1, v);
    Itself(c, e, d);
    var t3 := y.item.after + tail;
    var t2 := y.item.before + (TextOf(y.item.value) + t3);
    var t1 := y.between + (":" + t2);
    SpansJoin(c, e, d, n, y.item.after, tail);
    SpansJoin(c, v, e, n, TextOf(y.item.value), t3);
    SpansJoin(c, k + 1, v, n, y.item.before, TextOf(y.item.value) + t3);
    SpansJoin(c, k, k + 1, n, ":", t2);
    SpansJoin(c, b, k, n, y.between, ":" + t2);
    SpansJoin(c, q, b, n, StrText(y.key), t1);
    SpansJoin(c, s, q, n, y.before, StrText(y.key) + t1);
  }

  // ---- whole texts

  lemma {:induction false} DepthIs(x: Syntax, strtod: Strtod)
    requires SyntaxOk(x, strtod)
    ensures Depth(x) == Nesting(Tree(x, strtod))
    decreases x
  {
    match x {
      case Arr(_, items) => DeepestIs(items, strtod);
      case Obj(_, entries) => DeepestEntryIs(entries, strtod);
      case _ =>
    }
  }

  lemma {:induction false} DeepestIs(items: seq<Item>, strtod: Strtod)
    requires ItemsOk(items, strtod)
    ensures DeepestOf(items) == DeepestItem(Trees(items, strtod), 0)
    decreases items
  {
    if items != [] {
      DepthIs(items[0].value, strtod);
      DeepestIs(items[1..], strtod);
      DeepestShift([Tree(items[0].value, strtod)], Trees(items[1..], strtod), 0);
    }
  }

  lemma {:induction false} DeepestShift(a: seq<Json>, es: seq<Json>, i: nat)
    requires |a| == 1 && i <= |es|
    ensures DeepestItem(a + es, i + 1) == DeepestItem(es, i)
    decreases |es| - i
  {
    if i < |es| { DeepestShift(a, es, i + 1); }
  }

  lemma {:induction false} DeepestEntryIs(entries: seq<Entry>, strtod: Strtod)
    requires EntriesOk(entries, strtod)
    ensures DeepestEntry(entries) == DeepestMember(Members(entries, strtod), 0)
    decreases entries
  {
    hide MeaningAll;
    if entries != [] {
      assert EntryOk(entries[0], strtod) && ItemOk(entries[0].item, strtod);
      DepthIs(entries[0].item.value, strtod);
      DeepestEntryIs(entries[1..], strtod);
      DeepestMemberShift([Member(MeaningAll(entries[0].key), Tree(entries[0].item.value, strtod))], Members(entries[1..], strtod), 0);
    }
  }

  lemma {:induction false} DeepestMemberShift(a: seq<Member>, ms: seq<Member>, i: nat)
    requires |a| == 1 && i <= |ms|
    ensures DeepestMember(a + ms, i + 1) == DeepestMember(ms, i)
    decreases |ms| - i
  {
    if i < |ms| { DeepestMemberShift(a, ms, i + 1); }
  }

  /** The byte order mark of UTF-8. */
  const BOM: string := [0xEF as char, 0xBB as char, 0xBF as char]

  function AfterBom(c: string): nat { if BOM <= c then |BOM| else 0 }

  /** A byte order mark or none, blanks, a value, and blanks with a terminator at the end. */
  ghost predicate IsText(c: string, x: Syntax, from: nat, to: nat, strtod: Strtod) {
    && SyntaxOk(x, strtod) && AfterBom(c) <= from && Spans(c, from, to, TextOf(x)) && to < |c|
    && Blank(c[AfterBom(c)..from]) && Blank(c[to..]) && c[|c| - 1] == NUL
  }

  lemma BomSkipped(c: string)
    ensures |c| > 4 ==> SkipBom(c) == AfterBom(c)
  {
    if |c| > 4 { assert BOM <= c <==> c[..3] == BOM; }
  }

  /** A text that starts with the mark and has room for nothing else is not accepted. */
  lemma BomAlone(c: string, depth: nat, strtod: Strtod)
    requires BOM <= c
    ensures SkipWhitespace(c, 0) == 0 && ParseValue(c, 0, depth, strtod).Fail?
  {
    assert c[0] == BOM[0];
    NoWord(c, 0);
  }

  /** A JSON text, however spelt and spaced, is parsed to its meaning if it nests no deeper than the limit,
      and refused if it does. */
  lemma TextRead(c: string, x: Syntax, from: nat, to: nat, strtod: Strtod, toTheEnd: bool)
    requires IsText(c, x, from, to, strtod)
    ensures var r := ParseText(c, strtod, toTheEnd);
            && (r.Ok? <==> Nesting(Tree(x, strtod)) <= NESTING_LIMIT)
            && (r.Ok? ==> r.value == Tree(x, strtod) && r.next == if toTheEnd then |c| - 1 else to)
  {
    hide ParseValue, TextOf, SyntaxOk, Tree, Nesting, Depth, SkipBom, AfterBom;
    FirstOf(x, strtod);
    assert c[from] == TextOf(x)[0];
    var b := AfterBom(c);
    StartOf(c, from);
    BlankSkipped(c, b, c[b..from]);
    assert c[to] == c[to..][0];
    DepthIs(x, strtod);
    ValueRead(x, c, from, 0, strtod);
    SkipToEnd(c, to);
  }

  lemma StartOf(c: string, from: nat)
    requires AfterBom(c) <= from < |c| - 1
    ensures SkipBom(c) == AfterBom(c)
  {
    if |c| > 4 { BomSkipped(c); }
  }

  lemma {:induction false} SkipToEnd(c: string, o: nat)
    requires o < |c| && Blank(c[o..])
    ensures SkipWhitespace(c, o) == |c| - 1
    decreases |c| - o
  {
    assert c[o] == c[o..][0];
    if o + 1 < |c| {
      assert c[o + 1..] == c[o..][1..];
      SkipToEnd(c, o + 1);
    }
  }

  lemma {:induction false} BlankToEnd(c: string, o: nat)
    requires o < |c| && c[SkipWhitespace(c, o)] <= ' '
    ensures Blank(c[o..]) && SkipWhitespace(c, o) == |c| - 1
    decreases |c| - o
  {
    if o + 1 < |c| && c[o] <= ' ' {
      BlankToEnd(c, o + 1);
      assert c[o..] == [c[o]] + c[o + 1..];
    }
  }

  /** The parser, told to read to the end, accepts exactly the texts of JSON that nest no deeper than the
      limit, and gives what they mean. (A \\u without its digits is the one exception, see MisspeltIsNul.) */
  lemma AcceptsIff(c: string, v: Json, strtod: Strtod)
    requires |c| > 0 && AllSpelt(c)
    ensures ParseText(c, strtod, true) == Ok(v, |c| - 1) <==>
              exists x, from: nat, to: nat :: IsText(c, x, from, to, strtod) && Tree(x, strtod) == v && Nesting(v) <= NESTING_LIMIT
    ensures ParseText(c, strtod, true).Ok? ==> ParseText(c, strtod, true).next == |c| - 1
  {
    hide ParseValue, TextOf, SyntaxOk, Tree, Nesting, Depth, SkipBom, AfterBom, AllSpelt, SkipWhitespace, Spans, Blank;
    if ParseText(c, strtod, true).Ok? {
      Beginning(c, strtod);
      var b := SkipBom(c);
      var from := SkipWhitespace(c, b);
      var r := ParseValue(c, from, 0, strtod);
      AtTheEnd(c, r.next);
      SkippedBlank(c, b);
      var x := ValueWritten(c, from, 0, strtod);
      DepthIs(x, strtod);
      assert IsText(c, x, from, r.next, strtod);
    }
    if exists x, from: nat, to: nat :: IsText(c, x, from, to, strtod) && Tree(x, strtod) == v && Nesting(v) <= NESTING_LIMIT {
      var x, from: nat, to: nat :| IsText(c, x, from, to, strtod) && Tree(x, strtod) == v && Nesting(v) <= NESTING_LIMIT;
      TextRead(c, x, from, to, strtod, true);
    }
  }

  lemma Beginning(c: string, strtod: Strtod)
    requires |c| > 0 && ParseText(c, strtod, true).Ok?
    ensures SkipBom(c) == AfterBom(c)
  {
    hide ParseValue;
    BomSkipped(c);
    if BOM <= c { BomAlone(c, 0, strtod); }
  }

  lemma AtTheEnd(c: string, e: nat)
    requires e <= |c| && SkipWhitespace(c, e) < |c| && c[SkipWhitespace(c, e)] == NUL
    ensures e < |c| && Blank(c[e..]) && SkipWhitespace(c, e) == |c| - 1 && c[|c| - 1] == NUL && Ends(c, e)
  {
    BlankToEnd(c, e);
    assert c[e] == c[e..][0];
  }
}
