/** The printer: text written into a buffer that grows, or into one of fixed size, and exactly when it
    fits. */
module JsonPrinter {
  import opened JsonText

  /** Trees whose strings are C strings. */
  ghost predicate Terminated(v: Json)
    decreases v
  {
    match v
    case String(s) => NUL !in s
    case Array(es) => forall e :: e in es ==> Terminated(e)
    case Object(ms) => forall m :: m in ms ==> NUL !in m.key && Terminated(m.value)
    case _ => true
  }

  ghost predicate TerminatedItems(es: seq<Json>) { forall e :: e in es ==> Terminated(e) }

  ghost predicate TerminatedMembers(ms: seq<Member>) { forall m :: m in ms ==> NUL !in m.key && Terminated(m.value) }

  lemma ItemsFit(es: seq<Json>, lib: CLib)
    ensures NumbersFit(Array(es), lib) <==> forall k :: 0 <= k < |es| ==> NumbersFit(es[k], lib)
  {
  }

  lemma MembersFit(ms: seq<Member>, lib: CLib)
    ensures NumbersFit(Object(ms), lib) <==> forall k :: 0 <= k < |ms| ==> NumbersFit(ms[k].value, lib)
  {
  }

  // ---- the text has no terminator inside

  lemma {:induction false} EscapeClean(s: string)
    ensures NUL !in Escape(s) && NUL !in Quoted(s)
  {
    hide EscapeChar;
    if s != "" {
      CharClean(s[0]);
      EscapeClean(s[1..]);
    }
  }

  lemma CharClean(ch: char)
    ensures NUL !in EscapeChar(ch)
  {
    if ch < ' ' {
      DigitClean(ch as int / 16);
      DigitClean(ch as int % 16);
    }
  }

  lemma DigitClean(n: nat)
    requires n < 16
    ensures HexDigit(n) != NUL
  {
  }

  lemma {:induction false} PrintClean(v: Json, fmt: Style, depth: nat)
    ensures NUL !in Print(v, fmt, depth)
    decreases v, 0, 0
  {
    hide Quoted, NumberText, Tabs;
    match v {
      case String(s) => EscapeClean(s);
      case Array(es) => ItemsClean(es, 0, fmt, depth + 1);
      case Object(ms) => MembersClean(ms, 0, fmt, depth + 1);
      case _ =>
    }
  }

  lemma {:induction false} ItemsClean(es: seq<Json>, i: nat, fmt: Style, depth: nat)
    requires i <= |es|
    ensures NUL !in PrintItems(es, i, fmt, depth)
    decreases es, 1, |es| - i
  {
    hide Print;
    if i < |es| {
      PrintClean(es[i], fmt, depth);
      ItemsClean(es, i + 1, fmt, depth);
    }
  }

  lemma {:induction false} MembersClean(ms: seq<Member>, i: nat, fmt: Style, depth: nat)
    requires i <= |ms|
    ensures NUL !in PrintMembers(ms, i, fmt, depth)
    decreases ms, 1, |ms| - i
  {
    hide Print, Quoted;
    if i < |ms| {
      EscapeClean(ms[i].key);
      PrintClean(ms[i].value, fmt, depth);
      MembersClean(ms, i + 1, fmt, depth);
    }
  }

  // ---- escapes by length

  /** How many bytes more than the byte itself its escape takes. */
  function ExtraFor(ch: char): (k: nat)
    ensures |EscapeChar(ch)| == 1 + k && (k == 0 ==> EscapeChar(ch) == [ch])
  {
    if ch == '\"' || ch == '\\' || ch == BACKSPACE || ch == FORMFEED || ch == '\n' || ch == '\r' || ch == '\t' then 1
    else if ch < ' ' then 5
    else 0
  }

  function Extra(s: string): (k: nat)
  {
    if s == "" then 0 else ExtraFor(s[0]) + Extra(s[1..])
  }

  lemma {:induction false} ExtraOk(s: string)
    ensures |Escape(s)| == |s| + Extra(s)
    ensures Extra(s) == 0 ==> Escape(s) == s
  {
    hide EscapeChar, ExtraFor;
    if s != "" {
      ExtraOk(s[1..]);
      assert [s[0]] + s[1..] == s;
    }
  }

  lemma {:induction false} ExtraSnoc(s: string, ch: char)
    ensures Extra(s + [ch]) == Extra(s) + ExtraFor(ch) && Escape(s + [ch]) == Escape(s) + EscapeChar(ch)
  {
    hide EscapeChar, ExtraFor;
    if s == "" {
      assert s + [ch] == [ch];
    } else {
      ExtraSnoc(s[1..], ch);
      assert (s + [ch])[1..] == s[1..] + [ch];
    }
  }

  // ---- the buffer

  class PrintBuffer {
    var buffer: array<char>
    var offset: nat
    var depth: nat
    const noalloc: bool
    const format: Style

    /** How many bytes the buffer can come to have. */
    ghost function Limit(): nat
      reads `buffer
    {
      if noalloc then buffer.Length else INT_MAX
    }

    ghost predicate Valid()
      reads `buffer, `offset
    {
      buffer.Length <= INT_MAX && (buffer.Length > 0 ==> offset < buffer.Length) && (buffer.Length == 0 ==> offset == 0)
    }

    /** Exactly t has been written and the offset is behind it. */
    ghost predicate At(t: string)
      reads `buffer, `offset, buffer
    {
      Valid() && offset == |t| && buffer[..offset] == t
    }

    /** t has been written and terminated; the offset may not have moved over its last part yet. */
    ghost predicate Has(t: string)
      reads `buffer, `offset, buffer
    {
      && Valid() && offset <= |t| < buffer.Length && buffer[..|t|] == t && buffer[|t|] == NUL
      && forall k :: offset <= k < |t| ==> t[k] != NUL
    }

    constructor (start: array<char>, format: Style, noalloc: bool)
      requires start.Length <= INT_MAX
      ensures At("") && buffer == start && depth == 0 && this.format == format && this.noalloc == noalloc
    {
      buffer, offset, depth := start, 0, 0;
      this.format, this.noalloc := format, noalloc;
    }

    /** Room for `needed` bytes and a terminator behind the offset. */
    method Ensure(needed: nat) returns (ok: bool)
      requires Valid()
      modifies `buffer
      ensures Valid() && Limit() == old(Limit()) && (buffer == old(buffer) || (!noalloc && fresh(buffer)))
      ensures ok <==> offset + needed + 1 <= Limit()
      ensures ok ==> offset + needed + 1 <= buffer.Length
      ensures offset <= buffer.Length && buffer[..offset] == old(buffer[..offset])
      ensures !ok ==> buffer == old(buffer)
    {
      if buffer.Length > 0 && offset >= buffer.Length { return false; }
      if needed > INT_MAX { return false; }
      var total := needed + offset + 1;
      if total <= buffer.Length { return true; }
      if noalloc { return false; }
      var newsize;
      if total > INT_MAX / 2 {
        if total > INT_MAX { return false; }
        newsize := INT_MAX;
      } else {
        newsize := total * 2;
      }
      var old_buffer := buffer;
      var fresh_buffer := new char[newsize](i => NUL);
      for i := 0 to old_buffer.Length
        invariant forall k :: 0 <= k < i ==> fresh_buffer[k] == old_buffer[k]
      {
        fresh_buffer[i] := old_buffer[i];
      }
      buffer := fresh_buffer;
      return true;
    }

    /** Writes s at the given place. */
    method Write(at: nat, s: string)
      requires at + |s| <= buffer.Length
      modifies buffer
      ensures buffer[..] == old(buffer[..at]) + s + old(buffer[at + |s|..])
    {
      for i := 0 to |s|
        invariant forall k :: 0 <= k < buffer.Length ==> buffer[k] == if at <= k < at + i then s[k - at] else old(buffer[k])
      {
        buffer[at + i] := s[i];
      }
    }

    /** Moves the offset over what was written behind it. */
    method UpdateOffset(ghost t: string)
      requires Has(t)
      modifies `offset
      ensures At(t)
    {
      var n := 0;
      while buffer[offset + n] != NUL
        invariant offset + n <= |t|
        decreases |t| - n
      {
        n := n + 1;
      }
      offset := offset + n;
    }

    /** Writes s behind the offset with its terminator and leaves the offset where it is. */
    method Place(s: string, ghost t: string)
      requires At(t) && offset + |s| < buffer.Length && NUL !in s
      modifies buffer
      ensures Has(t + s)
    {
      Write(offset, s + [NUL]);
      assert buffer[..|t + s|] == t + s;
    }

    /** Writes s behind the offset and moves the offset over it. */
    method Append(s: string, ghost t: string)
      requires At(t) && offset + |s| < buffer.Length
      modifies `offset, buffer
      ensures At(t + s)
    {
      Write(offset, s);
      offset := offset + |s|;
      assert buffer[..offset] == t + s;
    }

    /** One byte of a string, escaped if it has to be; returns where the next one goes. */
    method PutChar(out: nat, ch: char) returns (next: nat)
      requires ch != NUL && out + |EscapeChar(ch)| < buffer.Length
      modifies buffer
      ensures next == out + |EscapeChar(ch)| && buffer[..next] == old(buffer[..out]) + EscapeChar(ch)
    {
      ghost var before := buffer[..out];
      if ch > 31 as char && ch != '\"' && ch != '\\' {
        buffer[out] := ch;
        next := out + 1;
      } else {
        buffer[out] := '\\';
        next := out + 1;
        match ch {
          case '\\' => buffer[next] := '\\';
          case '\"' => buffer[next] := '\"';
          case '\n' => buffer[next] := 'n';
          case '\r' => buffer[next] := 'r';
          case '\t' => buffer[next] := 't';
          case _ =>
            if ch == BACKSPACE {
              buffer[next] := 'b';
            } else if ch == FORMFEED {
              buffer[next] := 'f';
            } else {
              Write(next, ['u', '0', '0', HexDigit(ch as int / 16), HexDigit(ch as int % 16), NUL]);
              next := next + 4;
            }
        }
        next := next + 1;
      }
      assert buffer[..out] == before;
      assert buffer[out..next] == EscapeChar(ch);
      assert buffer[..next] == buffer[..out] + buffer[out..next];
    }

    /** A string with its quotes. Fails exactly when the text and two more bytes do not fit. */
    method PrintString(s: string, ghost t: string) returns (ok: bool)
      requires At(t) && NUL !in s
      modifies `buffer, buffer
      ensures Limit() == old(Limit()) && (buffer == old(buffer) || (!noalloc && fresh(buffer)))
      ensures ok <==> |t + Quoted(s)| + 2 <= Limit()
      ensures ok ==> Has(t + Quoted(s))
    {
      hide Escape, EscapeChar, Extra, ExtraFor;
      var extra := CountEscapes(s);
      ExtraOk(s);
      ok := Ensure(|s| + extra + 3);
      if ok { WriteQuoted(s, extra, t); }
    }

    method WriteQuoted(s: string, extra: nat, ghost t: string)
      requires At(t) && NUL !in s && extra == Extra(s) && offset + |s| + extra + 3 < buffer.Length
      modifies buffer
      ensures Has(t + Quoted(s))
    {
      hide Escape, EscapeChar, Extra, ExtraFor;
      ghost var end := offset + 1 + |Escape(s)|;
      ExtraOk(s);
      buffer[offset] := '\"';
      if extra == 0 {
        Write(offset + 1, s);
        assert buffer[..end] == t + "\"" + s;
      } else {
        PutChars(s, t);
      }
      assert buffer[..end] == t + "\"" + Escape(s);
      buffer[offset + |s| + extra + 1] := '\"';
      buffer[offset + |s| + extra + 2] := NUL;
      assert buffer[..end] == t + "\"" + Escape(s);
      EscapeClean(s);
      QuotedEnd(buffer[..], t, s);
    }

    method PutChars(s: string, ghost t: string)
      requires NUL !in s && offset == |t| && offset + |Escape(s)| + 2 < buffer.Length && buffer[..offset] == t
      requires buffer[offset] == '\"'
      modifies buffer
      ensures buffer[..offset + 1 + |Escape(s)|] == t + "\"" + Escape(s)
    {
      hide Escape, EscapeChar;
      var out := offset + 1;
      NoEscape();
      assert buffer[..out] == t + "\"" + "";
      for i := 0 to |s|
        invariant out == offset + 1 + |Escape(s[..i])| && out <= offset + 1 + |Escape(s)|
        invariant buffer[..out] == t + "\"" + Escape(s[..i])
      {
        assert s[..i + 1] == s[..i] + [s[i]];
        ExtraSnoc(s[..i], s[i]);
        EscapePrefix(s, i + 1);
        out := PutChar(out, s[i]);
      }
      assert s[..|s|] == s;
    }

    // ---- values

    /** Writes a value. Fails exactly when the text and two more bytes do not fit. */
    method PrintValue(v: Json, ghost t: string) returns (ok: bool)
      requires At(t) && Terminated(v)
      modifies this, buffer
      ensures Limit() == old(Limit()) && (buffer == old(buffer) || (!noalloc && fresh(buffer)))
      ensures ok ==> depth == old(depth)
      ensures ok <==> NumbersFit(v, format.lib) && |t + Print(v, format, old(depth))| + 2 <= Limit()
      ensures ok ==> Has(t + Print(v, format, depth))
      decreases v, 0, 0
    {
      match v {
        case Null => ok := PrintWord("null", t);
        case False => ok := PrintWord("false", t);
        case True => ok := PrintWord("true", t);
        case Number(i, d) => ok := PrintNumber(i, d, t);
        case String(s) => ok := PrintString(s, t);
        case Array(es) => ok := PrintArray(es, t);
        case Object(ms) => ok := PrintObject(ms, t);
      }
    }

    /** A number, formatted into a buffer of its own first; a longer text than that holds fails. The
        locale's decimal point becomes a full stop on the way. */
    method PrintNumber(i: int, d: Double, ghost t: string) returns (ok: bool)
      requires At(t)
      modifies `buffer, `offset, buffer
      ensures Limit() == old(Limit()) && (buffer == old(buffer) || (!noalloc && fresh(buffer)))
      ensures ok <==> |NumberText(i, d, format.lib)| <= NUMBER_MAX && |t + NumberText(i, d, format.lib)| + 2 <= Limit()
      ensures ok ==> Has(t + NumberText(i, d, format.lib))
    {
      hide NearlyEqual, Decimal;
      var text := FormatNumber(i, d);
      if |text| > NUMBER_MAX { return false; }
      ok := Ensure(|text| + 1);
      if ok { CopyNumber(text, i, d, t); }
    }

    method CopyNumber(text: CString, i: int, d: Double, ghost t: string)
      requires At(t) && offset + |text| + 1 < buffer.Length && |text| == |NumberText(i, d, format.lib)|
      requires forall k :: 0 <= k < |text| ==> Stop(text[k], format.lib.point) == NumberText(i, d, format.lib)[k]
      modifies `offset, buffer
      ensures Has(t + NumberText(i, d, format.lib))
    {
      hide NumberText, Stop;
      for k := 0 to |text|
        invariant offset == old(offset) && forall j :: 0 <= j < buffer.Length ==>
                    buffer[j] == if offset <= j < offset + k then Stop(text[j - offset], format.lib.point) else old(buffer[j])
      {
        buffer[offset + k] := Stop(text[k], format.lib.point);
      }
      buffer[offset + |text|] := NUL;
      ghost var n := NumberText(i, d, format.lib);
      offset := offset + |text|;
      assert buffer[..|t + n|] == t + n;
    }

    /** The text in the C library's spelling. */
    method FormatNumber(i: int, d: Double) returns (text: CString)
      ensures |text| == |NumberText(i, d, format.lib)|
      ensures forall k :: 0 <= k < |text| ==> Stop(text[k], format.lib.point) == NumberText(i, d, format.lib)[k]
    {
      text := "null";
      if d.Finite? {
        if d.value == i as real {
          DecimalClean(i);
          text := Decimal(i);
        } else {
          text := format.lib.format(d.value, 15);
          var (read, test) := format.lib.scan(text);
          if !read || !NearlyEqual(test, d.value) { text := format.lib.format(d.value, 17); }
        }
      }
    }

    method PrintWord(w: string, ghost t: string) returns (ok: bool)
      requires At(t) && NUL !in w
      modifies `buffer, buffer
      ensures Limit() == old(Limit()) && (buffer == old(buffer) || (!noalloc && fresh(buffer)))
      ensures ok <==> |t + w| + 2 <= Limit()
      ensures ok ==> Has(t + w)
    {
      ok := Ensure(|w| + 1);
      if ok { Place(w, t); }
    }

    /** A piece of punctuation the offset moves over at once. */
    method PrintMark(w: string, spare: nat, ghost t: string) returns (ok: bool)
      requires At(t) && NUL !in w && spare <= 1
      modifies `buffer, buffer, `offset
      ensures Limit() == old(Limit()) && (buffer == old(buffer) || (!noalloc && fresh(buffer)))
      ensures ok <==> |t + w| + spare + 1 <= Limit()
      ensures ok ==> At(t + w)
    {
      ok := Ensure(|w| + spare);
      if ok { Append(w, t); }
    }

    method PrintArray(es: seq<Json>, ghost t: string) returns (ok: bool)
      requires At(t) && TerminatedItems(es)
      modifies this, buffer
      ensures Limit() == old(Limit()) && (buffer == old(buffer) || (!noalloc && fresh(buffer)))
      ensures ok ==> depth == old(depth)
      ensures ok <==> NumbersFit(Array(es), format.lib) && |t + Print(Array(es), format, old(depth))| + 2 <= Limit()
      ensures ok ==> Has(t + Print(Array(es), format, depth))
      decreases es, 2, 0
    {
      hide Terminated, NumbersFit, Print, PrintItems, At, Has;
      ghost var d, whole := depth + 1, t + Print(Array(es), format, depth);
      ghost var cur := t + "[";
      ArrayOpens(es, format, depth, t);
      ItemsFit(es, format.lib);
      ok := PrintMark("[", 0, t);
      if !ok { return; }
      depth := depth + 1;
      for i := 0 to |es|
        invariant depth == d && At(cur) && Limit() == old(Limit()) && (buffer == old(buffer) || (!noalloc && fresh(buffer)))
        invariant cur + PrintItems(es, i, format, d) + "]" == whole
        invariant forall k :: 0 <= k < i ==> NumbersFit(es[k], format.lib)
      {
        ghost var next := cur + ItemText(es, i, format, d);
        ItemNext(es, i, format, d, cur);
        ok := PrintItem(es, i, cur);
        if !ok { return; }
        cur := next;
      }
      ArrayCloses(es, format, d, cur);
      depth := depth - 1;
      ok := PrintWord("]", cur);
    }

    /** An item and the comma behind it. */
    method PrintItem(es: seq<Json>, i: nat, ghost t: string) returns (ok: bool)
      requires At(t) && TerminatedItems(es) && i < |es|
      modifies this, buffer
      ensures Limit() == old(Limit()) && (buffer == old(buffer) || (!noalloc && fresh(buffer)))
      ensures ok ==> depth == old(depth)
      ensures if ok then NumbersFit(es[i], format.lib) else !NumbersFit(es[i], format.lib) || |t + ItemText(es, i, format, old(depth))| + 2 > Limit()
      ensures ok ==> At(t + ItemText(es, i, format, depth))
      decreases es, 1
    {
      hide Terminated, NumbersFit, Print, At, Has;
      ghost var cur := t + Print(es[i], format, depth);
      ok := PrintValue(es[i], t);
      if !ok { return; }
      UpdateOffset(cur);
      if i + 1 < |es| {
        assert t + ItemText(es, i, format, depth) == cur + Comma(format);
        ok := PrintMark(Comma(format), 1, cur);
      } else {
        assert t + ItemText(es, i, format, depth) == cur;
      }
    }

    method PrintObject(ms: seq<Member>, ghost t: string) returns (ok: bool)
      requires At(t) && TerminatedMembers(ms)
      modifies this, buffer
      ensures Limit() == old(Limit()) && (buffer == old(buffer) || (!noalloc && fresh(buffer)))
      ensures ok ==> depth == old(depth)
      ensures ok <==> NumbersFit(Object(ms), format.lib) && |t + Print(Object(ms), format, old(depth))| + 2 <= Limit()
      ensures ok ==> Has(t + Print(Object(ms), format, depth))
      decreases ms, 2, 0
    {
      hide Terminated, NumbersFit, Print, PrintMembers, At, Has, Quoted, Tabs;
      ghost var d, whole := depth + 1, t + Print(Object(ms), format, depth);
      var opening := if format.formatted then "{\n" else "{";
      ghost var cur := t + opening;
      ObjectOpens(ms, format, depth, t);
      MembersFit(ms, format.lib);
      ok := PrintMark(opening, 1, t);
      if !ok { return; }
      depth := depth + 1;
      for i := 0 to |ms|
        invariant depth == d && At(cur) && Limit() == old(Limit()) && (buffer == old(buffer) || (!noalloc && fresh(buffer)))
        invariant cur + PrintMembers(ms, i, format, d) + Close(format, d) == whole
        invariant forall k :: 0 <= k < i ==> NumbersFit(ms[k].value, format.lib)
      {
        ghost var next := cur + MemberText(ms, i, format, d);
        MemberNext(ms, i, format, d, cur);
        ok := PrintMember(ms, i, cur);
        if !ok { return; }
        cur := next;
      }
      ObjectCloses(ms, format, d, cur);
      CloseClean(format, d);
      ok := PrintWord(Close(format, depth), cur);
      depth := depth - 1;
    }

    /** Indentation, key, colon, value and what ends the member. */
    method PrintMember(ms: seq<Member>, i: nat, ghost t: string) returns (ok: bool)
      requires At(t) && TerminatedMembers(ms) && i < |ms|
      modifies this, buffer
      ensures Limit() == old(Limit()) && (buffer == old(buffer) || (!noalloc && fresh(buffer)))
      ensures ok ==> depth == old(depth)
      ensures if ok then NumbersFit(ms[i].value, format.lib) else !NumbersFit(ms[i].value, format.lib) || |t + MemberText(ms, i, format, old(depth))| + 2 > Limit()
      ensures ok ==> At(t + MemberText(ms, i, format, depth))
      decreases ms, 1, 0
    {
      hide Terminated, NumbersFit, Print, PrintMembers, At, Has, Quoted, Tabs;
      var m := ms[i];
      ghost var d := depth;
      MemberParts(ms, i, format, d, t);
      ghost var cur := t + Indent(format, d);
      if format.formatted {
        TabsClean(depth);
        ok := PrintMark(Tabs(depth), 0, t);
        if !ok { return; }
      } else {
        assert t + "" == t;
      }
      ok := PrintString(m.key, cur);
      if !ok { return; }
      cur := cur + Quoted(m.key);
      UpdateOffset(cur);
      ok := PrintMark(Colon(format), 0, cur);
      if !ok { return; }
      cur := cur + Colon(format);
      ok := PrintValue(m.value, cur);
      if !ok { return; }
      cur := cur + Print(m.value, format, d);
      UpdateOffset(cur);
      ok := PrintMark(MemberEnd(format, i + 1 == |ms|), 1, cur);
    }
  }

  function MemberText(ms: seq<Member>, i: nat, fmt: Style, depth: nat): string
    requires i < |ms|
  {
    Indent(fmt, depth) + Quoted(ms[i].key) + Colon(fmt) + Print(ms[i].value, fmt, depth) + MemberEnd(fmt, i + 1 == |ms|)
  }

  lemma MemberParts(ms: seq<Member>, i: nat, fmt: Style, depth: nat, t: string)
    requires i < |ms|
    ensures t + MemberText(ms, i, fmt, depth) ==
              t + Indent(fmt, depth) + Quoted(ms[i].key) + Colon(fmt) + Print(ms[i].value, fmt, depth) + MemberEnd(fmt, i + 1 == |ms|)
    ensures NUL !in MemberEnd(fmt, i + 1 == |ms|)
  {
    hide Print, Quoted, Indent;
  }

  lemma TabsClean(n: nat)
    ensures NUL !in Tabs(n)
  {
  }

  lemma CloseClean(fmt: Style, pd: nat)
    requires pd > 0
    ensures NUL !in Close(fmt, pd)
  {
  }

  lemma ObjectOpens(ms: seq<Member>, fmt: Style, depth: nat, t: string)
    ensures t + (if fmt.formatted then "{\n" else "{") + PrintMembers(ms, 0, fmt, depth + 1) + Close(fmt, depth + 1)
         == t + Print(Object(ms), fmt, depth)
  {
    hide PrintMembers;
  }

  lemma MemberNext(ms: seq<Member>, i: nat, fmt: Style, depth: nat, cur: string)
    requires i < |ms| && depth > 0
    ensures cur + PrintMembers(ms, i, fmt, depth) + Close(fmt, depth)
         == cur + MemberText(ms, i, fmt, depth) + PrintMembers(ms, i + 1, fmt, depth) + Close(fmt, depth)
  {
    hide Print, Quoted, Indent, Close;
  }

  lemma ObjectCloses(ms: seq<Member>, fmt: Style, depth: nat, cur: string)
    requires depth > 0
    ensures cur + PrintMembers(ms, |ms|, fmt, depth) + Close(fmt, depth) == cur + Close(fmt, depth)
    ensures |Close(fmt, depth)| > 0
  {
    assert cur + "" == cur;
  }

  lemma ArrayOpens(es: seq<Json>, fmt: Style, depth: nat, t: string)
    ensures t + "[" + PrintItems(es, 0, fmt, depth + 1) + "]" == t + Print(Array(es), fmt, depth)
  {
    hide PrintItems;
  }

  function ItemText(es: seq<Json>, i: nat, fmt: Style, depth: nat): string
    requires i < |es|
  {
    Print(es[i], fmt, depth) + (if i + 1 < |es| then Comma(fmt) else "")
  }

  lemma ItemNext(es: seq<Json>, i: nat, fmt: Style, depth: nat, cur: string)
    requires i < |es|
    ensures cur + PrintItems(es, i, fmt, depth) + "]" == cur + ItemText(es, i, fmt, depth) + PrintItems(es, i + 1, fmt, depth) + "]"
  {
    hide Print;
  }

  lemma ArrayCloses(es: seq<Json>, fmt: Style, depth: nat, cur: string)
    ensures cur + PrintItems(es, |es|, fmt, depth) + "]" == cur + "]"
  {
    assert cur + "" == cur;
  }

  lemma QuotedEnd(b: string, t: string, s: string)
    requires var end := |t| + 1 + |Escape(s)|; end + 1 < |b| && b[..end] == t + "\"" + Escape(s) && b[end] == '\"'
    ensures |t + Quoted(s)| == |t| + 2 + |Escape(s)| && b[..|t + Quoted(s)|] == t + Quoted(s)
  {
    hide Escape;
    var end := |t| + 1 + |Escape(s)|;
    assert b[..end + 1] == b[..end] + ['\"'];
  }

  lemma NoEscape()
    ensures Escape("") == ""
  {
  }

  lemma {:induction false} EscapePrefix(s: string, i: nat)
    requires i <= |s|
    ensures |Escape(s[..i])| <= |Escape(s)|
  {
    hide EscapeChar;
    if i > 0 {
      EscapePrefix(s[1..], i - 1);
      assert s[..i][1..] == s[1..][..i - 1];
    }
  }

  method CountEscapes(s: string) returns (extra: nat)
    ensures extra == Extra(s)
  {
    hide EscapeChar, Escape;
    extra := 0;
    for i := 0 to |s|
      invariant extra == Extra(s[..i])
    {
      assert s[..i + 1] == s[..i] + [s[i]];
      ExtraSnoc(s[..i], s[i]);
      if s[i] == '\"' || s[i] == '\\' || s[i] == BACKSPACE || s[i] == FORMFEED || s[i] == '\n' || s[i] == '\r' || s[i] == '\t' {
        extra := extra + 1;
      } else if s[i] < ' ' {
        extra := extra + 5;
      }
    }
    assert s[..|s|] == s;
  }

  /** Printing into a buffer that grows: it succeeds exactly if the text and two bytes stay within the
      largest size, and the result, up to its terminator, is the text. */
  method PrintTree(v: Json, format: Style) returns (printed: array<char>, ok: bool)
    requires Terminated(v)
    ensures ok <==> NumbersFit(v, format.lib) && |Print(v, format, 0)| + 2 <= INT_MAX
    ensures ok ==> printed[..] == Print(v, format, 0) + [NUL]
  {
    hide Print, Terminated, NumbersFit;
    printed := new char[256];
    var p := new PrintBuffer(printed, format, false);
    ghost var t := Print(v, format, 0);
    assert "" + t == t;
    ok := p.PrintValue(v, "");
    if !ok { return; }
    p.UpdateOffset(t);
    var offset, whole := p.offset, p.buffer;
    EndsInPlace(p, t);
    printed := new char[offset + 1](i requires 0 <= i < offset + 1 reads whole => if i < offset && i < whole.Length then whole[i] else NUL);
    assert printed[..] == whole[..offset] + [NUL];
  }

  lemma EndsInPlace(p: PrintBuffer, t: string)
    requires p.At(t)
    ensures p.offset == |t| <= p.buffer.Length && p.buffer[..p.offset] == t
  {
  }

  /** Printing into the caller's buffer: it succeeds exactly if the buffer is two bytes longer than the
      text, one more than the text and its terminator take. */
  method PrintPreallocated(v: Json, buffer: array<char>, format: Style) returns (ok: bool)
    requires Terminated(v) && buffer.Length <= INT_MAX
    modifies buffer
    ensures ok <==> NumbersFit(v, format.lib) && |Print(v, format, 0)| + 2 <= buffer.Length
    ensures ok ==> buffer[..|Print(v, format, 0)| + 1] == Print(v, format, 0) + [NUL]
  {
    hide Print, Terminated, NumbersFit;
    var p := new PrintBuffer(buffer, format, true);
    ghost var t := Print(v, format, 0);
    assert "" + t == t;
    ok := p.PrintValue(v, "");
    if ok { InPlace(p, t); }
  }

  lemma InPlace(p: PrintBuffer, t: string)
    requires p.Has(t)
    ensures |t| + 1 <= p.buffer.Length && p.buffer[..|t| + 1] == t + [NUL]
  {
  }
}
