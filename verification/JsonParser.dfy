/** The parser: a cursor that moves over the text, refining the functions of JsonText. */
module JsonParser {
  import opened JsonText
  import RoundTrip = JsonRoundTrip
  import opened JsonNumbers

  class ParseBuffer {
    const content: string
    const strtod: Strtod
    var offset: nat
    var depth: nat

    ghost predicate Valid()
      reads `offset
    {
      offset <= |content|
    }

    constructor (content: string, strtod: Strtod)
      ensures Valid() && this.content == content && this.strtod == strtod && offset == 0 && depth == 0
    {
      this.content, this.strtod, offset, depth := content, strtod, 0, 0;
    }

    predicate CanAccess(index: nat)
      reads `offset
    {
      offset + index < |content|
    }

    method SkipSpace()
      requires Valid()
      modifies `offset
      ensures Valid() && offset == SkipWhitespace(content, old(offset))
    {
      if !CanAccess(0) { return; }
      while CanAccess(0) && content[offset] <= ' '
        invariant old(offset) <= offset <= |content|
        invariant offset < |content| ==> SkipWhitespace(content, offset) == SkipWhitespace(content, old(offset))
        invariant offset == |content| ==> SkipWhitespace(content, old(offset)) == |content| - 1
        decreases |content| - offset
      {
        offset := offset + 1;
      }
      if offset == |content| { offset := offset - 1; }
    }

    method TakeWord(word: string) returns (ok: bool)
      requires Valid()
      modifies `offset
      ensures Valid() && ok == Literal(content, old(offset), word)
      ensures offset == old(offset) + if ok then |word| else 0
    {
      ok := offset + |word| <= |content| && content[offset..offset + |word|] == word;
      if ok { offset := offset + |word|; }
    }

    /** Scans for the closing quote, then replaces the escapes before it. */
    method TakeString() returns (ok: bool, s: string)
      requires Valid() && CanAccess(0)
      modifies `offset
      ensures Valid()
      ensures ok <==> ParseString(content, old(offset)).Ok?
      ensures ok ==> ParseString(content, old(offset)) == Ok(s, offset)
    {
      hide ClosingQuote, Unescape;
      s := "";
      if content[offset] != '\"' { return false, ""; }
      var found, e := FindQuote(offset + 1);
      if !found { return false, ""; }
      ok, s := Decode(offset + 1, e);
      if ok { offset := e + 1; }
    }

    method FindQuote(start: nat) returns (found: bool, e: nat)
      ensures found <==> ClosingQuote(content, start).Ok?
      ensures found ==> ClosingQuote(content, start) == Ok(e, e) && e < |content|
    {
      e := start;
      while e < |content| && content[e] != '\"'
        invariant ClosingQuote(content, e) == ClosingQuote(content, start)
        decreases |content| - e
      {
        if content[e] == '\\' {
          if e + 1 >= |content| { return false, e; }
          e := e + 1;
        }
        e := e + 1;
      }
      found := e < |content|;
    }

    method Decode(start: nat, e: nat) returns (ok: bool, out: string)
      requires e < |content|
      ensures ok <==> Unescape(content, start, e).Ok?
      ensures ok ==> Unescape(content, start, e) == Ok(out, e)
    {
      hide Utf16Literal;
      out := "";
      var p := start;
      NothingYet(Unescape(content, start, e));
      while p < e
        invariant Unescape(content, start, e) == Prepend(out, Unescape(content, p, e))
        decreases |content| - p
      {
        var step, piece := DecodeAt(p, e);
        if step == 0 { return false, out; }
        PrependTwice(out, piece, Unescape(content, p + step, e));
        out := out + piece;
        p := p + step;
      }
      ok := true;
      assert out + "" == out;
    }

    /** One byte or one escape sequence: how much of the text it takes (0 if it is not right) and what it
        stands for. */
    method DecodeAt(p: nat, e: nat) returns (step: nat, piece: string)
      requires p < e < |content|
      ensures step == 0 <==> Unescape1(content, p, e).0 == 0
      ensures (step, piece) == Unescape1(content, p, e)
    {
      hide Utf16Literal;
      if content[p] != '\\' { return 1, [content[p]]; }
      step := 2;
      match content[p + 1] {
        case 'b' => piece := [BACKSPACE];
        case 'f' => piece := [FORMFEED];
        case 'n' => piece := "\n";
        case 'r' => piece := "\r";
        case 't' => piece := "\t";
        case '\"' => piece := [content[p + 1]];
        case '\\' => piece := [content[p + 1]];
        case '/' => piece := [content[p + 1]];
        case 'u' => step, piece := TakeUtf16(p, e);
        case _ => return 0, "";
      }
    }

    /** Four hexadecimal digits, from the left. */
    method Hex4At(o: nat) returns (h: nat)
      requires o + 4 <= |content|
      ensures h == ParseHex4(content, o)
    {
      h := 0;
      for i := 0 to 4
        invariant h == HexPrefix(content, o, i)
        invariant i > 0 ==> HexValue(content[o]) >= 0
        invariant i > 1 ==> HexValue(content[o + 1]) >= 0
        invariant i > 2 ==> HexValue(content[o + 2]) >= 0
        invariant i > 3 ==> HexValue(content[o + 3]) >= 0
      {
        var d := HexValue(content[o + i]);
        if d < 0 {
          BadHex(content, o, i);
          return 0;
        }
        h := h * 16 + d;
      }
      GoodHex(content, o);
    }

    method TakeUtf16(p: nat, e: nat) returns (step: nat, piece: string)
      requires p < e < |content|
      ensures (step, piece) == Utf16Literal(content, p, e)
    {
      hide ParseHex4, Utf8;
      if e - p < 6 { return 0, ""; }
      var first := Hex4At(p + 2);
      if 0xDC00 <= first <= 0xDFFF { return 0, ""; }
      var codepoint;
      if 0xD800 <= first <= 0xDBFF {
        if e - p < 12 { return 0, ""; }
        if content[p + 6] != '\\' || content[p + 7] != 'u' { return 0, ""; }
        var second := Hex4At(p + 8);
        if second < 0xDC00 || second > 0xDFFF { return 0, ""; }
        codepoint := 0x1_0000 + first % 0x400 * 0x400 + second % 0x400;
        step := 12;
      } else {
        step, codepoint := 6, first;
      }
      piece := EncodeUtf8(codepoint);
    }

    method TakeNumber() returns (ok: bool, v: Json)
      requires Valid() && CanAccess(0)
      modifies `offset
      ensures Valid()
      ensures ok <==> ParseNumber(content, old(offset), strtod).Ok?
      ensures ok ==> ParseNumber(content, old(offset), strtod) == Ok(v, offset)
    {
      var i := 0;
      while CanAccess(i) && NumberChar(content[offset + i])
        invariant offset + i <= |content| && NumberEnd(content, offset) == NumberEnd(content, offset + i)
        decreases |content| - i
      {
        i := i + 1;
      }
      var (n, number) := strtod(content[offset..offset + i]);
      v := Null;
      if n == 0 || n > i { return false, v; }
      offset := offset + n;
      return true, Number(Saturate(number), number);
    }

    method TakeValue() returns (ok: bool, v: Json)
      requires Valid()
      modifies this
      ensures Valid()
      ensures ok <==> ParseValue(content, old(offset), old(depth), strtod).Ok?
      ensures ok ==> ParseValue(content, old(offset), old(depth), strtod) == Ok(v, offset) && depth == old(depth)
      decreases |content| - offset, 4
    {
      hide ParseString, ParseNumber, ParseItems, ParseMembers, SkipWhitespace, Literal;
      v := Null;
      ok := TakeWord("null");
      if ok { return true, Null; }
      ok := TakeWord("false");
      if ok { return true, False; }
      ok := TakeWord("true");
      if ok { return true, True; }
      if CanAccess(0) && content[offset] == '\"' {
        var s;
        ok, s := TakeString();
        v := String(s);
      } else if CanAccess(0) && (content[offset] == '-' || '0' <= content[offset] <= '9') {
        ok, v := TakeNumber();
      } else if CanAccess(0) && content[offset] == '[' {
        ok, v := TakeArray();
      } else if CanAccess(0) && content[offset] == '{' {
        ok, v := TakeObject();
      }
    }

    method TakeArray() returns (ok: bool, v: Json)
      requires Valid() && CanAccess(0) && content[offset] == '['
      modifies this
      ensures Valid()
      ensures ok <==> ParseArray(content, old(offset), old(depth), strtod).Ok?
      ensures ok ==> ParseArray(content, old(offset), old(depth), strtod) == Ok(v, offset) && depth == old(depth)
      decreases |content| - offset, 3
    {
      hide ParseItems, SkipWhitespace;
      v := Null;
      if depth >= NESTING_LIMIT { return false, v; }
      depth := depth + 1;
      offset := offset + 1;
      SkipSpace();
      if CanAccess(0) && content[offset] == ']' {
        depth, offset := depth - 1, offset + 1;
        return true, Array([]);
      }
      if !CanAccess(0) {
        offset := offset - 1;
        return false, v;
      }
      offset := offset - 1;
      var items;
      ok, items := TakeItems();
      if !ok { return; }
      depth, offset := depth - 1, offset + 1;
      v := Array(items);
    }

    /** The items of an array, from in front of the first one to the closing bracket. */
    method TakeItems() returns (ok: bool, items: seq<Json>)
      requires Valid() && CanAccess(0)
      modifies this
      ensures Valid()
      ensures ok <==> ParseItems(content, old(offset) + 1, old(depth), strtod).Ok?
      ensures ok ==> CanAccess(0) && ParseItems(content, old(offset) + 1, old(depth), strtod) == Ok(items, offset + 1) && depth == old(depth)
      decreases |content| - offset, 2
    {
      hide ParseValue, ParseItems, SkipWhitespace;
      items := [];
      ghost var whole := ParseItems(content, offset + 1, depth, strtod);
      NoneBefore(whole);
      var more := true;
      while more
        invariant Valid() && old(offset) <= offset && depth == old(depth)
        invariant more ==> CanAccess(0) && whole == Behind(items, ParseItems(content, offset + 1, depth, strtod))
        invariant !more ==> offset > old(offset) && (if CanAccess(0) && content[offset] == ']' then whole == Ok(items, offset + 1) else whole.Fail?)
        decreases more, |content| - offset
      {
        ghost var o, d := offset + 1, depth;
        offset := offset + 1;
        SkipSpace();
        var v;
        ok, v := TakeValue();
        if !ok {
          ItemFails(content, o, d, strtod);
          return;
        }
        ghost var b := offset;
        SkipSpace();
        ItemsStep(content, o, depth, strtod, v, b, items);
        items := items + [v];
        more := CanAccess(0) && content[offset] == ',';
      }
      ok := CanAccess(0) && content[offset] == ']';
    }

    method TakeObject() returns (ok: bool, v: Json)
      requires Valid() && CanAccess(0) && content[offset] == '{'
      modifies this
      ensures Valid()
      ensures ok <==> ParseObject(content, old(offset), old(depth), strtod).Ok?
      ensures ok ==> ParseObject(content, old(offset), old(depth), strtod) == Ok(v, offset) && depth == old(depth)
      decreases |content| - offset, 3
    {
      hide ParseMembers, SkipWhitespace;
      v := Null;
      if depth >= NESTING_LIMIT { return false, v; }
      depth := depth + 1;
      offset := offset + 1;
      SkipSpace();
      if CanAccess(0) && content[offset] == '}' {
        depth, offset := depth - 1, offset + 1;
        return true, Object([]);
      }
      if !CanAccess(0) {
        offset := offset - 1;
        return false, v;
      }
      offset := offset - 1;
      var members;
      ok, members := TakeMembers();
      if !ok { return; }
      depth, offset := depth - 1, offset + 1;
      v := Object(members);
    }

    method TakeMembers() returns (ok: bool, members: seq<Member>)
      requires Valid() && CanAccess(0)
      modifies this
      ensures Valid()
      ensures ok <==> ParseMembers(content, old(offset) + 1, old(depth), strtod).Ok?
      ensures ok ==> CanAccess(0) && ParseMembers(content, old(offset) + 1, old(depth), strtod) == Ok(members, offset + 1) && depth == old(depth)
      decreases |content| - offset, 2
    {
      hide ParseMember, ParseMembers, SkipWhitespace;
      members := [];
      ghost var whole := ParseMembers(content, offset + 1, depth, strtod);
      NoneBefore(whole);
      var more := true;
      while more
        invariant Valid() && old(offset) <= offset && depth == old(depth)
        invariant more ==> CanAccess(0) && whole == Behind(members, ParseMembers(content, offset + 1, depth, strtod))
        invariant !more ==> offset > old(offset) && (if CanAccess(0) && content[offset] == '}' then whole == Ok(members, offset + 1) else whole.Fail?)
        decreases more, |content| - offset
      {
        ghost var o, d := offset + 1, depth;
        var m;
        ok, m := TakeMember();
        if !ok {
          MemberFails(content, o, d, strtod);
          return;
        }
        ghost var b := offset;
        SkipSpace();
        MembersStep(content, o, depth, strtod, m, b, members);
        members := members + [m];
        more := CanAccess(0) && content[offset] == ',';
      }
      ok := CanAccess(0) && content[offset] == '}';
    }

    /** Name, colon and value, from in front of them. */
    method TakeMember() returns (ok: bool, m: Member)
      requires Valid() && CanAccess(0)
      modifies this
      ensures Valid()
      ensures ok <==> ParseMember(content, old(offset) + 1, old(depth), strtod).Ok?
      ensures ok ==> ParseMember(content, old(offset) + 1, old(depth), strtod) == Ok(m, offset) && depth == old(depth)
      decreases |content| - offset, 1
    {
      hide ParseString, ParseValue, SkipWhitespace;
      m := Member("", Null);
      if !CanAccess(1) { return false, m; }
      offset := offset + 1;
      SkipSpace();
      var key, value;
      ok, key := TakeString();
      if !ok { return; }
      SkipSpace();
      if !CanAccess(0) || content[offset] != ':' { return false, m; }
      offset := offset + 1;
      SkipSpace();
      ok, value := TakeValue();
      m := Member(key, value);
    }

    method SkipMark()
      requires offset == 0
      modifies `offset
      ensures Valid() && offset == SkipBom(content)
    {
      if CanAccess(4) && content[..3] == [0xEF as char, 0xBB as char, 0xBF as char] { offset := offset + 3; }
    }
  }

  // ---- arrays and objects

  function Behind<T>(items: seq<T>, r: Parsed<seq<T>>): Parsed<seq<T>> {
    match r case Fail => Fail case Ok(more, n) => Ok(items + more, n)
  }

  lemma NoneBefore<T>(r: Parsed<seq<T>>)
    ensures Behind([], r) == r
  {
    if r.Ok? { assert [] + r.value == r.value; }
  }

  lemma ItemFails(c: string, o: nat, depth: nat, strtod: Strtod)
    requires o <= |c| && ParseValue(c, SkipWhitespace(c, o), depth, strtod).Fail?
    ensures ParseItems(c, o, depth, strtod).Fail?
  {
    hide ParseValue, SkipWhitespace;
  }

  /** After an item: a comma leads to the rest, a bracket ends the list, anything else fails it. */
  lemma ItemsStep(c: string, o: nat, depth: nat, strtod: Strtod, v: Json, b: nat, items: seq<Json>)
    requires o <= |c| && ParseValue(c, SkipWhitespace(c, o), depth, strtod) == Ok(v, b)
    ensures b <= |c|
    ensures var d := SkipWhitespace(c, b);
            var whole := Behind(items, ParseItems(c, o, depth, strtod));
            if d < |c| && c[d] == ',' then whole == Behind(items + [v], ParseItems(c, d + 1, depth, strtod))
            else if d < |c| && c[d] == ']' then whole == Ok(items + [v], d + 1)
            else whole.Fail?
  {
    hide ParseValue, SkipWhitespace;
    var d := SkipWhitespace(c, b);
    if d < |c| && c[d] == ',' {
      var rest := ParseItems(c, d + 1, depth, strtod);
      if rest.Ok? { assert items + ([v] + rest.value) == (items + [v]) + rest.value; }
    }
  }

  lemma MemberFails(c: string, o: nat, depth: nat, strtod: Strtod)
    requires o <= |c| && ParseMember(c, o, depth, strtod).Fail?
    ensures ParseMembers(c, o, depth, strtod).Fail?
  {
    hide ParseMember;
  }

  lemma MembersStep(c: string, o: nat, depth: nat, strtod: Strtod, m: Member, b: nat, members: seq<Member>)
    requires o <= |c| && ParseMember(c, o, depth, strtod) == Ok(m, b)
    ensures b <= |c|
    ensures var d := SkipWhitespace(c, b);
            var whole := Behind(members, ParseMembers(c, o, depth, strtod));
            if d < |c| && c[d] == ',' then whole == Behind(members + [m], ParseMembers(c, d + 1, depth, strtod))
            else if d < |c| && c[d] == '}' then whole == Ok(members + [m], d + 1)
            else whole.Fail?
  {
    hide ParseMember, SkipWhitespace;
    var d := SkipWhitespace(c, b);
    if d < |c| && c[d] == ',' {
      var rest := ParseMembers(c, d + 1, depth, strtod);
      if rest.Ok? { assert members + ([m] + rest.value) == (members + [m]) + rest.value; }
    }
  }

  // ---- whole texts

  /** Parses a C string, given with its terminator. */
  method Parse(content: string, strtod: Strtod, toTheEnd: bool) returns (ok: bool, v: Json, end: nat)
    requires |content| > 0
    ensures ok <==> ParseText(content, strtod, toTheEnd).Ok?
    ensures ok ==> ParseText(content, strtod, toTheEnd) == Ok(v, end)
  {
    hide ParseValue, SkipWhitespace;
    var p := new ParseBuffer(content, strtod);
    end := 0;
    p.SkipMark();
    p.SkipSpace();
    ok, v := p.TakeValue();
    if !ok { return; }
    if toTheEnd {
      p.SkipSpace();
      if !p.CanAccess(0) || content[p.offset] != NUL { return false, v, 0; }
    }
    end := p.offset;
  }

  /** What is parsed from the printed form of a tree is that tree, exactly if it nests no deeper than the
      limit. */
  method Reparse(v: Json, format: Style, strtod: Strtod) returns (ok: bool, w: Json)
    requires RoundTrip.Printable(v) && ReadsIntegers(strtod)
    ensures ok <==> Nesting(v) <= NESTING_LIMIT
    ensures ok ==> w == v
  {
    hide Print, ParseText, Nesting, RoundTrip.Printable, ReadsIntegers;
    RoundTrip.RoundTripIff(v, format, strtod, true);
    var end;
    ok, w, end := Parse(Print(v, format, 0) + [NUL], strtod, true);
  }

  // ---- one escape sequence at a time

  /** The first step of unescaping at p: length (0 for a bad sequence) and bytes. */
  function Unescape1(c: string, p: nat, e: nat): (r: (nat, string))
    requires p < e < |c|
  {
    if c[p] != '\\' then (1, [c[p]]) else
    match c[p + 1]
    case 'b' => (2, [BACKSPACE])
    case 'f' => (2, [FORMFEED])
    case 'n' => (2, "\n")
    case 'r' => (2, "\r")
    case 't' => (2, "\t")
    case '\"' => (2, "\"")
    case '\\' => (2, "\\")
    case '/' => (2, "/")
    case 'u' => Utf16Literal(c, p, e)
    case _ => (0, "")
  }

  lemma NothingYet(r: Parsed<string>)
    ensures Prepend("", r) == r
  {
    if r.Ok? { assert "" + r.value == r.value; }
  }

  lemma PrependTwice(a: string, b: string, r: Parsed<string>)
    ensures Prepend(a, Prepend(b, r)) == Prepend(a + b, r)
  {
    if r.Ok? { assert a + (b + r.value) == a + b + r.value; }
  }

  // ---- hexadecimal digits and UTF-8

  function HexPrefix(c: string, o: nat, i: nat): (h: nat)
    requires o + 4 <= |c| && i <= 4
  {
    if i == 0 then 0 else
    HexPrefix(c, o, i - 1) * 16 + if HexValue(c[o + i - 1]) < 0 then 0 else HexValue(c[o + i - 1])
  }

  lemma BadHex(c: string, o: nat, i: nat)
    requires o + 4 <= |c| && i < 4 && HexValue(c[o + i]) < 0
    ensures ParseHex4(c, o) == 0
  {
    hide HexValue;
    assert i == 0 || i == 1 || i == 2 || i == 3;
  }

  lemma GoodHex(c: string, o: nat)
    requires o + 4 <= |c| && HexValue(c[o]) >= 0 && HexValue(c[o + 1]) >= 0 && HexValue(c[o + 2]) >= 0 && HexValue(c[o + 3]) >= 0
    ensures HexPrefix(c, o, 4) == ParseHex4(c, o)
  {
    hide HexValue;
    assert HexPrefix(c, o, 1) == HexValue(c[o]);
    assert HexPrefix(c, o, 2) == HexValue(c[o]) * 16 + HexValue(c[o + 1]);
  }

  /** The encoder of the source: continuation bytes from the last to the second, then the first byte. */
  method EncodeUtf8(cp: nat) returns (s: string)
    requires cp < 0x11_0000
    ensures s == Utf8(cp)
  {
    hide Tail, Top, Utf8;
    var length, mark := 1, 0;
    if cp < 0x80 {
    } else if cp < 0x800 {
      length, mark := 2, 0xC0;
    } else if cp < 0x1_0000 {
      length, mark := 3, 0xE0;
    } else {
      length, mark := 4, 0xF0;
    }
    var rest, position := cp, length - 1;
    s := "";
    assert Tail(cp, position) + "" == Tail(cp, position);
    while position > 0
      invariant 0 <= position < length
      invariant Tail(rest, position) + s == Tail(cp, length - 1) && Top(rest, position) == Top(cp, length - 1)
    {
      TailNext(rest, position - 1);
      ghost var byte, before := [(0x80 + rest % 0x40) as char], s;
      s := [(0x80 + rest % 0x40) as char] + s;
      assert (Tail(rest / 0x40, position - 1) + byte) + before == Tail(rest / 0x40, position - 1) + s;
      rest := rest / 0x40;
      position := position - 1;
    }
    TailNext(rest, 0);
    assert "" + s == s;
    Utf8Is(cp, length, mark);
    s := [(mark + rest) as char] + s;
  }

  /** The UTF-8 form is its mark with the leading bits, and the continuation bytes. */
  lemma Utf8Is(cp: nat, length: nat, mark: nat)
    requires cp < 0x11_0000
    requires (length, mark) == if cp < 0x80 then (1, 0) else if cp < 0x800 then (2, 0xC0) else if cp < 0x1_0000 then (3, 0xE0) else (4, 0xF0)
    ensures mark + Top(cp, length - 1) < 0x100 && Utf8(cp) == [(mark + Top(cp, length - 1)) as char] + Tail(cp, length - 1)
  {
    hide Tail, Top;
    BytesOf(cp);
  }

  /** The last n groups of six bits, as continuation bytes. */
  function Tail(cp: nat, n: nat): string {
    if n == 0 then "" else Tail(cp / 0x40, n - 1) + [(0x80 + cp % 0x40) as char]
  }

  /** What is left when n groups of six bits are shifted out. */
  function Top(cp: nat, n: nat): nat {
    if n == 0 then cp else Top(cp / 0x40, n - 1)
  }

  lemma TailNext(cp: nat, n: nat)
    ensures Tail(cp, 0) == "" && Tail(cp, n + 1) == Tail(cp / 0x40, n) + [(0x80 + cp % 0x40) as char]
    ensures Top(cp, 0) == cp && Top(cp, n + 1) == Top(cp / 0x40, n)
  {
  }

  lemma BytesOf(cp: nat)
    ensures Tail(cp, 0) == "" && Top(cp, 0) == cp
    ensures Tail(cp, 1) == [(0x80 + cp % 0x40) as char] && Top(cp, 1) == cp / 0x40
    ensures Tail(cp, 2) == [(0x80 + cp / 0x40 % 0x40) as char, (0x80 + cp % 0x40) as char] && Top(cp, 2) == cp / 0x1000
    ensures Tail(cp, 3) == [(0x80 + cp / 0x1000 % 0x40) as char, (0x80 + cp / 0x40 % 0x40) as char, (0x80 + cp % 0x40) as char]
    ensures Top(cp, 3) == cp / 0x4_0000
  {
    hide Tail, Top;
    var a, b := cp / 0x40, cp / 0x1000;
    Sixes(cp);
    TwoBytes(a, b);
    TailNext(cp, 0);
    TailNext(cp, 1);
    TailNext(cp, 2);
    TailNext(b, 0);
    assert Tail(a, 2) == [(0x80 + b % 0x40) as char] + [(0x80 + a % 0x40) as char];
  }

  lemma Sixes(cp: nat)
    ensures cp / 0x40 / 0x40 == cp / 0x1000 && cp / 0x1000 / 0x40 == cp / 0x4_0000
  {
  }

  lemma TwoBytes(a: nat, b: nat)
    requires b == a / 0x40
    ensures Tail(a, 1) == [(0x80 + a % 0x40) as char] && Top(a, 1) == b
    ensures Tail(a, 2) == [(0x80 + b % 0x40) as char] + [(0x80 + a % 0x40) as char] && Top(a, 2) == b / 0x40
  {
    hide Tail, Top;
    TailNext(b / 0x40, 0);
    TailNext(b, 0);
    TailNext(a, 0);
    TailNext(a, 1);
    assert "" + [(0x80 + b % 0x40) as char] == [(0x80 + b % 0x40) as char];
  }
}
