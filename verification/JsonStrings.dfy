/** The strings of JSON as section 7 of RFC 8259 tells them: the ways to write a character and what each
    means, stated without the parser; and the proof that the parser accepts these and no others, with
    one exception, which is exactly stated. */
module JsonStrings {
  import opened JsonText
  import opened JsonReading

  // ---- the bytes of a code point (RFC 3629)

  /** The code point a UTF-8 sequence stands for. */
  function DecodeUtf8(s: string): int {
    if |s| == 1 && s[0] as int < 0x80 then s[0] as int
    else if |s| == 2 then (s[0] as int - 0xC0) * 0x40 + Low(s[1])
    else if |s| == 3 then ((s[0] as int - 0xE0) * 0x40 + Low(s[1])) * 0x40 + Low(s[2])
    else if |s| == 4 then (((s[0] as int - 0xF0) * 0x40 + Low(s[1])) * 0x40 + Low(s[2])) * 0x40 + Low(s[3])
    else -1
  }

  function Low(ch: char): int { ch as int - 0x80 }

  /** A leading byte that tells the length, and continuation bytes behind it. */
  predicate Utf8Form(s: string) {
    && (match |s|
        case 1 => s[0] as int < 0x80
        case 2 => 0xC0 <= s[0] as int < 0xE0
        case 3 => 0xE0 <= s[0] as int < 0xF0
        case 4 => 0xF0 <= s[0] as int < 0xF8
        case _ => false)
    && forall k :: 1 <= k < |s| ==> 0x80 <= s[k] as int < 0xC0
  }

  /** The UTF-8 form of a code point decodes to it and is the shortest there is. */
  lemma Utf8Back(cp: nat)
    requires cp < 0x11_0000
    ensures DecodeUtf8(Utf8(cp)) == cp && Utf8Form(Utf8(cp))
    ensures |Utf8(cp)| == if cp < 0x80 then 1 else if cp < 0x800 then 2 else if cp < 0x1_0000 then 3 else 4
  {
    assert cp / 0x40 / 0x40 == cp / 0x1000 && cp / 0x1000 / 0x40 == cp / 0x4_0000;
  }

  // ---- hexadecimal digits

  const UPPER := "0123456789ABCDEF"
  const LOWER := "0123456789abcdef"

  predicate IsDigit(ch: char, v: nat) { v < 16 && (ch == UPPER[v] || ch == LOWER[v]) }

  /** The four characters are the digits of n, each in upper or lower case. */
  predicate Spells(d: string, n: nat) {
    && |d| == 4 && n < 0x1_0000
    && IsDigit(d[0], n / 0x1000) && IsDigit(d[1], n / 0x100 % 16) && IsDigit(d[2], n / 16 % 16) && IsDigit(d[3], n % 16)
  }

  lemma DigitTable(v: nat)
    requires v < 16
    ensures UPPER[v] as int == (if v < 10 then '0' as int + v else 'A' as int + v - 10)
    ensures LOWER[v] as int == (if v < 10 then '0' as int + v else 'a' as int + v - 10)
  {
    assert UPPER == ['0', '1', '2', '3', '4', '5', '6', '7', '8', '9', 'A', 'B', 'C', 'D', 'E', 'F'];
    assert LOWER == ['0', '1', '2', '3', '4', '5', '6', '7', '8', '9', 'a', 'b', 'c', 'd', 'e', 'f'];
  }

  lemma HexValueIff(ch: char, v: nat)
    requires v < 16
    ensures HexValue(ch) == v <==> IsDigit(ch, v)
  {
    DigitTable(v);
  }

  /** Four digits, in either case, are read as the number they spell; four characters that are not all
      digits are read as zero. */
  lemma ParseHex4Iff(c: string, o: nat, n: nat)
    requires o + 4 <= |c|
    ensures Spells(c[o..o + 4], n) ==> ParseHex4(c, o) == n
    ensures (forall m {:trigger Spells(c[o..o + 4], m)} :: !Spells(c[o..o + 4], m)) ==> ParseHex4(c, o) == 0
  {
    hide HexValue, IsDigit;
    var d := c[o..o + 4];
    if Spells(d, n) {
      HexValueIff(d[0], n / 0x1000);
      HexValueIff(d[1], n / 0x100 % 16);
      HexValueIff(d[2], n / 16 % 16);
      HexValueIff(d[3], n % 16);
      FourDigits(n / 0x1000, n / 0x100 % 16, n / 16 % 16, n % 16, n);
    }
    if ParseHex4(c, o) != 0 {
      var m := ParseHex4(c, o);
      var h, i, j, k := HexValue(d[0]), HexValue(d[1]), HexValue(d[2]), HexValue(d[3]);
      FourDigits(h, i, j, k, m);
      HexValueIff(d[0], h);
      HexValueIff(d[1], i);
      HexValueIff(d[2], j);
      HexValueIff(d[3], k);
      assert Spells(d, m);
    }
  }

  lemma FourDigits(h: nat, i: nat, j: nat, k: nat, n: nat)
    requires h < 16 && i < 16 && j < 16 && k < 16 && n < 0x1_0000
    ensures n == ((h * 16 + i) * 16 + j) * 16 + k <==> h == n / 0x1000 && i == n / 0x100 % 16 && j == n / 16 % 16 && k == n % 16
  {
    assert n / 16 / 16 == n / 0x100 && n / 0x100 / 16 == n / 0x1000;
  }

  // ---- the ways to write a character

  datatype Piece =
    | Plain(ch: char)
    | Short(mark: char)
    | Code(digits: string, code: nat)
    | Pair(first: string, high: nat, second: string, low: nat)

  /** The two-character escapes and the code points the RFC gives them. */
  const SHORT: map<char, nat> :=
    map['\"' := 0x22, '\\' := 0x5C, '/' := 0x2F, 'b' := 0x08, 'f' := 0x0C, 'n' := 0x0A, 'r' := 0x0D, 't' := 0x09]

  predicate PieceOk(p: Piece) {
    match p
    case Plain(ch) => ch != '\"' && ch != '\\'
    case Short(mark) => mark in SHORT
    case Code(d, n) => Spells(d, n) && !(0xD800 <= n <= 0xDFFF)
    case Pair(d, hi, e, lo) => Spells(d, hi) && Spells(e, lo) && 0xD800 <= hi <= 0xDBFF && 0xDC00 <= lo <= 0xDFFF
  }

  function Written(p: Piece): (t: string) {
    match p
    case Plain(ch) => [ch]
    case Short(mark) => ['\\', mark]
    case Code(d, _) => "\\u" + d
    case Pair(d, _, e, _) => "\\u" + d + ("\\u" + e)
  }

  function Meaning(p: Piece): string
    requires PieceOk(p)
  {
    match p
    case Plain(ch) => [ch]
    case Short(mark) => [SHORT[mark] as char]
    case Code(_, n) => Utf8(n)
    case Pair(_, hi, _, lo) => Utf8(0x1_0000 + (hi - 0xD800) * 0x400 + (lo - 0xDC00))
  }

  ghost predicate AllOk(ps: seq<Piece>) { forall k :: 0 <= k < |ps| ==> PieceOk(ps[k]) }

  function WrittenAll(ps: seq<Piece>): string {
    if ps == [] then "" else Written(ps[0]) + WrittenAll(ps[1..])
  }

  function MeaningAll(ps: seq<Piece>): string
    requires AllOk(ps)
  {
    if ps == [] then "" else Meaning(ps[0]) + MeaningAll(ps[1..])
  }

  // ---- what is written is understood

  lemma PlainStep(p: Piece, c: string, q: nat, e: nat)
    requires p.Plain? && PieceOk(p) && Reads(c, q, Written(p)) && q + 1 <= e < |c|
    ensures ClosingQuote(c, q) == ClosingQuote(c, q + 1)
    ensures Unescape(c, q, e) == Prepend(Meaning(p), Unescape(c, q + 1, e))
  {
    ReadsAt(c, q, Written(p), 0);
  }

  lemma ShortStep(p: Piece, c: string, q: nat, e: nat)
    requires p.Short? && PieceOk(p) && Reads(c, q, Written(p)) && q + 2 <= e < |c|
    ensures ClosingQuote(c, q) == ClosingQuote(c, q + 2)
    ensures Unescape(c, q, e) == Prepend(Meaning(p), Unescape(c, q + 2, e))
  {
    hide Prepend;
    ReadsAt(c, q, Written(p), 0);
    ReadsAt(c, q, Written(p), 1);
  }

  /** A \\u sequence at q with these digits. */
  ghost predicate Sequence(c: string, q: nat, d: string) {
    q + 6 <= |c| && c[q] == '\\' && c[q + 1] == 'u' && c[q + 2..q + 6] == d
  }

  lemma SequenceRead(c: string, q: nat, d: string)
    requires |d| == 4 && Reads(c, q, "\\u" + d)
    ensures Sequence(c, q, d)
  {
    ReadsSplit(c, q, "\\u", d);
    ReadsAt(c, q, "\\u", 0);
    ReadsAt(c, q, "\\u", 1);
  }

  lemma DigitsArePlain(d: string, n: nat)
    requires Spells(d, n)
    ensures forall k :: 0 <= k < 4 ==> d[k] != '\"' && d[k] != '\\'
  {
    DigitTable(n / 0x1000);
    DigitTable(n / 0x100 % 16);
    DigitTable(n / 16 % 16);
    DigitTable(n % 16);
  }

  lemma SequencePassed(c: string, q: nat, d: string, n: nat)
    requires Sequence(c, q, d) && Spells(d, n)
    ensures ClosingQuote(c, q) == ClosingQuote(c, q + 6) && ParseHex4(c, q + 2) == n
  {
    hide ParseHex4, Spells;
    ParseHex4Iff(c, q + 2, n);
    SpellsFour(d, n);
    DigitsArePlain(d, n);
    forall k | q + 2 <= k < q + 6 ensures c[k] != '\"' && c[k] != '\\' { assert c[k] == d[k - q - 2]; }
    PassOver(c, q + 2, 4);
    assert ClosingQuote(c, q) == ClosingQuote(c, q + 2);
  }

  lemma SpellsFour(d: string, n: nat)
    requires Spells(d, n)
    ensures |d| == 4 && n < 0x1_0000
  {
  }

  lemma CodeStep(p: Piece, c: string, q: nat, e: nat)
    requires p.Code? && PieceOk(p) && Sequence(c, q, p.digits) && q + 6 <= e < |c|
    ensures ClosingQuote(c, q) == ClosingQuote(c, q + 6)
    ensures Unescape(c, q, e) == Prepend(Meaning(p), Unescape(c, q + 6, e))
  {
    hide Prepend, Spells, ParseHex4, ClosingQuote, Utf8;
    SequencePassed(c, q, p.digits, p.code);
  }

  lemma PairCode(hi: nat, lo: nat)
    requires 0xD800 <= hi <= 0xDBFF && 0xDC00 <= lo <= 0xDFFF
    ensures 0x1_0000 + hi % 0x400 * 0x400 + lo % 0x400 == 0x1_0000 + (hi - 0xD800) * 0x400 + (lo - 0xDC00)
  {
    assert hi % 0x400 == hi - 0xD800 && lo % 0x400 == lo - 0xDC00;
  }

  lemma PairStep(p: Piece, c: string, q: nat, e: nat)
    requires p.Pair? && PieceOk(p) && Sequence(c, q, p.first) && Sequence(c, q + 6, p.second) && q + 12 <= e < |c|
    ensures ClosingQuote(c, q) == ClosingQuote(c, q + 12)
    ensures Unescape(c, q, e) == Prepend(Meaning(p), Unescape(c, q + 12, e))
  {
    hide Prepend, Spells, ParseHex4, ClosingQuote, Utf8;
    SequencePassed(c, q, p.first, p.high);
    SequencePassed(c, q + 6, p.second, p.low);
    PairCode(p.high, p.low);
  }

  lemma PieceStep(p: Piece, c: string, q: nat, e: nat)
    requires PieceOk(p) && Reads(c, q, Written(p)) && q + |Written(p)| <= e < |c|
    ensures ClosingQuote(c, q) == ClosingQuote(c, q + |Written(p)|)
    ensures Unescape(c, q, e) == Prepend(Meaning(p), Unescape(c, q + |Written(p)|, e))
  {
    hide Prepend, Spells, Reads, ClosingQuote, Unescape, Meaning;
    match p {
      case Plain(_) => PlainStep(p, c, q, e);
      case Short(_) => ShortStep(p, c, q, e);
      case Code(d, n) =>
        SpellsFour(d, n);
        SequenceRead(c, q, d);
        CodeStep(p, c, q, e);
      case Pair(d, hi, f, lo) =>
        SpellsFour(d, hi);
        SpellsFour(f, lo);
        ReadsSplit(c, q, "\\u" + d, "\\u" + f);
        SequenceRead(c, q, d);
        SequenceRead(c, q + 6, f);
        PairStep(p, c, q, e);
    }
  }

  lemma {:induction false} TextUnderstood(ps: seq<Piece>, c: string, q: nat)
    requires AllOk(ps) && Reads(c, q, WrittenAll(ps) + "\"")
    ensures var e := q + |WrittenAll(ps)|;
            e < |c| && ClosingQuote(c, q) == Ok(e, e) && Unescape(c, q, e) == Ok(MeaningAll(ps), e)
  {
    hide Reads, ClosingQuote, Unescape, Written, Meaning, PieceOk;
    var e := q + |WrittenAll(ps)|;
    ReadsSplit(c, q, WrittenAll(ps), "\"");
    ReadsAt(c, e, "\"", 0);
    if ps == [] {
      NothingLeft(c, e);
    } else {
      var a, rest := Written(ps[0]), WrittenAll(ps[1..]);
      assert WrittenAll(ps) + "\"" == a + (rest + "\"");
      ReadsSplit(c, q, a, rest + "\"");
      PieceStep(ps[0], c, q, e);
      TextUnderstood(ps[1..], c, q + |a|);
    }
  }

  // ---- what is accepted was written so

  /** Every \\u that unescaping comes to between p and e has four hexadecimal digits. */
  ghost predicate WellSpelt(c: string, p: nat, e: nat)
    requires e < |c|
    decreases |c| - p
  {
    if p >= e then true
    else if c[p] != '\\' then WellSpelt(c, p + 1, e)
    else if c[p + 1] != 'u' then WellSpelt(c, p + 2, e)
    else e - p >= 6 ==>
      && HasDigits(c, p + 2)
      && (ParseHex4(c, p + 2) < 0xD800 || ParseHex4(c, p + 2) > 0xDFFF ==> WellSpelt(c, p + 6, e))
      && (e - p >= 12 && c[p + 6] == '\\' && c[p + 7] == 'u' && 0xD800 <= ParseHex4(c, p + 2) <= 0xDBFF ==>
            HasDigits(c, p + 8) && WellSpelt(c, p + 12, e))
  }

  ghost predicate HasDigits(c: string, o: nat) { o + 4 <= |c| && exists n {:trigger Spells(c[o..o + 4], n)} :: Spells(c[o..o + 4], n) }

  lemma DigitsAt(c: string, q: nat)
    requires q + 6 <= |c| && c[q] == '\\' && c[q + 1] == 'u' && HasDigits(c, q + 2)
    ensures var d, n := c[q + 2..q + 6], ParseHex4(c, q + 2);
            Spells(d, n) && Sequence(c, q, d) && ClosingQuote(c, q) == ClosingQuote(c, q + 6)
  {
    hide Spells, ParseHex4, ClosingQuote;
    var n :| Spells(c[q + 2..q + 6], n);
    ParseHex4Iff(c, q + 2, n);
    SequencePassed(c, q, c[q + 2..q + 6], n);
  }

  /** The text from q to the closing quote at e starts with p, which the scan for the quote passes over. */
  ghost predicate FirstIs(p: Piece, c: string, q: nat, e: nat) {
    && q + |Written(p)| <= e < |c| && c[q..q + |Written(p)|] == Written(p) && |Written(p)| > 0
    && ClosingQuote(c, q + |Written(p)|) == Ok(e, e)
  }

  ghost predicate Accepted(c: string, q: nat, e: nat) {
    q < e < |c| && ClosingQuote(c, q) == Ok(e, e) && WellSpelt(c, q, e) && Unescape(c, q, e).Ok?
  }

  lemma FirstPlain(c: string, q: nat, e: nat) returns (p: Piece)
    requires Accepted(c, q, e) && c[q] != '\\'
    ensures PieceOk(p) && FirstIs(p, c, q, e) && WellSpelt(c, q + |Written(p)|, e)
    ensures Unescape(c, q, e) == Prepend(Meaning(p), Unescape(c, q + |Written(p)|, e))
  {
    p := Plain(c[q]);
    assert c[q..q + 1] == [c[q]];
  }

  lemma FirstShort(c: string, q: nat, e: nat) returns (p: Piece)
    requires Accepted(c, q, e) && c[q] == '\\' && c[q + 1] != 'u'
    ensures PieceOk(p) && FirstIs(p, c, q, e) && WellSpelt(c, q + |Written(p)|, e)
    ensures Unescape(c, q, e) == Prepend(Meaning(p), Unescape(c, q + |Written(p)|, e))
  {
    hide Prepend;
    p := Short(c[q + 1]);
    assert ClosingQuote(c, q) == ClosingQuote(c, q + 2);
    assert c[q..q + 2] == ['\\', c[q + 1]];
    MarkKnown(c, q, e);
  }

  lemma MarkKnown(c: string, q: nat, e: nat)
    requires q < e < |c| && c[q] == '\\' && c[q + 1] != 'u' && Unescape(c, q, e).Ok?
    ensures c[q + 1] in SHORT && Unescape(c, q, e) == Prepend([SHORT[c[q + 1]] as char], Unescape(c, q + 2, e))
  {
    hide Prepend;
  }

  lemma FirstSequence(c: string, q: nat, e: nat) returns (p: Piece)
    requires Accepted(c, q, e) && c[q] == '\\' && c[q + 1] == 'u'
    ensures PieceOk(p) && FirstIs(p, c, q, e) && WellSpelt(c, q + |Written(p)|, e)
    ensures Unescape(c, q, e) == Prepend(Meaning(p), Unescape(c, q + |Written(p)|, e))
  {
    hide Spells, ParseHex4, ClosingQuote, Utf8, HasDigits, Prepend;
    var n := ParseHex4(c, q + 2);
    DigitsAt(c, q);
    var d := c[q + 2..q + 6];
    assert c[q..q + 6] == "\\u" + d;
    if 0xD800 <= n <= 0xDBFF {
      DigitsAt(c, q + 6);
      var f := c[q + 8..q + 12];
      assert c[q..q + 12] == c[q..q + 6] + ("\\u" + f);
      p := Pair(d, n, f, ParseHex4(c, q + 8));
      PairStep(p, c, q, e);
    } else {
      p := Code(d, n);
      CodeStep(p, c, q, e);
    }
  }

  /** The first piece of an accepted text. */
  lemma FirstPiece(c: string, q: nat, e: nat) returns (p: Piece)
    requires Accepted(c, q, e)
    ensures PieceOk(p) && FirstIs(p, c, q, e) && WellSpelt(c, q + |Written(p)|, e)
    ensures Unescape(c, q, e) == Prepend(Meaning(p), Unescape(c, q + |Written(p)|, e))
    ensures Unescape(c, q + |Written(p)|, e).Ok?
  {
    hide PieceOk, FirstIs, WellSpelt, Unescape, Meaning, Written, ClosingQuote;
    if c[q] != '\\' {
      p := FirstPlain(c, q, e);
    } else if c[q + 1] != 'u' {
      p := FirstShort(c, q, e);
    } else {
      p := FirstSequence(c, q, e);
    }
  }

  lemma {:induction false} TextWritten(c: string, q: nat, e: nat) returns (ps: seq<Piece>)
    requires q <= e < |c| && ClosingQuote(c, q) == Ok(e, e) && WellSpelt(c, q, e) && Unescape(c, q, e).Ok?
    ensures AllOk(ps) && c[q..e] == WrittenAll(ps) && Unescape(c, q, e) == Ok(MeaningAll(ps), e)
    decreases e - q
  {
    hide ClosingQuote, Unescape, Written, Meaning, PieceOk, WellSpelt;
    if q == e {
      ps := [];
      NothingLeft(c, e);
    } else {
      var p := FirstPiece(c, q, e);
      var rest := TextWritten(c, q + |Written(p)|, e);
      ps := [p] + rest;
      assert ps[1..] == rest;
      assert c[q..e] == c[q..q + |Written(p)|] + c[q + |Written(p)|..e];
    }
  }

  /** s is what some pieces mean that stand between quotes from o to n. */
  ghost predicate StringAt(c: string, o: nat, s: string, n: nat) {
    exists ps :: AllOk(ps) && Reads(c, o, "\"" + (WrittenAll(ps) + "\"")) && s == MeaningAll(ps) && n == o + |WrittenAll(ps)| + 2
  }

  /** A well-formed string is parsed to what it means, in every spelling the RFC allows. */
  lemma StringUnderstood(ps: seq<Piece>, c: string, o: nat)
    requires AllOk(ps) && Reads(c, o, "\"" + (WrittenAll(ps) + "\""))
    ensures o < |c| && ParseString(c, o) == Ok(MeaningAll(ps), o + |WrittenAll(ps)| + 2)
  {
    hide Unescape, ClosingQuote, WrittenAll, MeaningAll, AllOk;
    ReadsSplit(c, o, "\"", WrittenAll(ps) + "\"");
    ReadsAt(c, o, "\"", 0);
    TextUnderstood(ps, c, o + 1);
  }

  /** Unless some \\u lacks its digits, the parser accepts exactly the well-formed strings: unknown
      escapes and surrogates without their partners are refused. */
  lemma StringIff(c: string, o: nat, s: string, n: nat)
    requires o < |c| && (ClosingQuote(c, o + 1).Ok? ==> WellSpelt(c, o + 1, ClosingQuote(c, o + 1).next))
    ensures ParseString(c, o) == Ok(s, n) <==> StringAt(c, o, s, n)
  {
    hide Unescape, ClosingQuote, WrittenAll, MeaningAll, AllOk, WellSpelt;
    if ParseString(c, o) == Ok(s, n) {
      var e := ClosingQuote(c, o + 1).next;
      var ps := TextWritten(c, o + 1, e);
      assert c[o..e + 1] == "\"" + (WrittenAll(ps) + "\"");
      assert Reads(c, o, "\"" + (WrittenAll(ps) + "\""));
    }
    if StringAt(c, o, s, n) {
      var ps :| AllOk(ps) && Reads(c, o, "\"" + (WrittenAll(ps) + "\"")) && s == MeaningAll(ps) && n == o + |WrittenAll(ps)| + 2;
      StringUnderstood(ps, c, o);
    }
  }

  /** The exception: \\u with four characters that are not all digits is not refused but stands for a NUL. */
  lemma MisspeltIsNul(c: string, p: nat, e: nat)
    requires p + 6 <= e < |c| && c[p] == '\\' && c[p + 1] == 'u' && !HasDigits(c, p + 2)
    ensures Unescape(c, p, e) == Prepend([NUL], Unescape(c, p + 6, e))
  {
    hide Spells, ParseHex4, Prepend;
    ParseHex4Iff(c, p + 2, 0);
  }

  // ---- what the printer writes

  /** The printer uses the short escape wherever the RFC has one, except for the slash, \\u00 and two digits
      for the other control characters, and the byte itself for everything else. */
  lemma EscapeCharIs(ch: char) returns (p: Piece)
    ensures p == EscapePiece(ch) && PieceOk(p) && Written(p) == EscapeChar(ch) && Meaning(p) == [ch]
    ensures p.Short? <==> exists mark :: mark in SHORT && mark != '/' && SHORT[mark] == ch as int
    ensures p.Short? ==> p.mark != '/'
    ensures p.Code? <==> !p.Short? && ch as int < 0x20
    ensures p.Code? && ch as int < 0x20 ==> p.digits == ['0', '0', LOWER[ch as int / 16], LOWER[ch as int % 16]]
    ensures !p.Pair?
  {
    hide EscapePiece, PieceOk, Written, Meaning, SHORT, EscapeChar, LOWER;
    p := EscapePiece(ch);
    EscapedOk(ch);
    EscapedKind(ch);
  }

  lemma EscapedOk(ch: char)
    ensures var p := EscapePiece(ch);
            PieceOk(p) && Written(p) == EscapeChar(ch) && Meaning(p) == [ch]
  {
    hide HexDigit, Spells, Utf8, LOWER;
    if EscapePiece(ch).Code? { ControlPiece(ch); }
  }

  lemma EscapedKind(ch: char)
    ensures var p := EscapePiece(ch);
            && (p.Short? <==> exists mark :: mark in SHORT && mark != '/' && SHORT[mark] == ch as int)
            && (p.Short? ==> p.mark != '/') && (p.Code? <==> !p.Short? && ch as int < 0x20) && !p.Pair?
            && (p.Code? && ch as int < 0x20 ==> p.digits == ['0', '0', LOWER[ch as int / 16], LOWER[ch as int % 16]])
  {
    hide HexDigit, Spells, Utf8, LOWER;
    var p := EscapePiece(ch);
    if p.Code? { ControlPiece(ch); }
    if p.Short? { assert p.mark in SHORT && SHORT[p.mark] == ch as int; }
  }

  function EscapePiece(ch: char): Piece {
    if ch == '\"' then Short('\"')
    else if ch == '\\' then Short('\\')
    else if ch as int == 8 then Short('b')
    else if ch as int == 12 then Short('f')
    else if ch as int == 10 then Short('n')
    else if ch as int == 13 then Short('r')
    else if ch as int == 9 then Short('t')
    else if ch as int < 0x20 then Code(['0', '0', HexDigit(ch as int / 16), HexDigit(ch as int % 16)], ch as int)
    else Plain(ch)
  }

  lemma LowerDigit(v: nat)
    requires v < 16
    ensures IsDigit(HexDigit(v), v) && HexDigit(v) == LOWER[v] && (v == 0 ==> HexDigit(v) == '0')
  {
  }

  lemma ControlPiece(ch: char)
    requires ch as int < 0x20
    ensures var d := ['0', '0', HexDigit(ch as int / 16), HexDigit(ch as int % 16)];
            Spells(d, ch as int) && Utf8(ch as int) == [ch] && d == ['0', '0', LOWER[ch as int / 16], LOWER[ch as int % 16]]
  {
    hide HexDigit;
    var n := ch as int;
    assert n / 0x1000 == 0 && n / 0x100 % 16 == 0 && n / 16 % 16 == n / 16;
    LowerDigit(0);
    LowerDigit(n / 16);
    LowerDigit(n % 16);
  }

  lemma PlainQuoted(ch: char)
    requires 'a' <= ch <= 'z'
    ensures Quoted([ch]) == "\"" + [ch] + "\""
  {
    assert Escape([ch]) == EscapeChar(ch) + Escape([ch][1..]);
    assert EscapeChar(ch) == [ch];
  }

  lemma OneMember(m: Member, fmt: Style, depth: nat)
    ensures PrintMembers([m], 0, fmt, depth) ==
              Indent(fmt, depth) + Quoted(m.key) + Colon(fmt) + Print(m.value, fmt, depth) + MemberEnd(fmt, true)
  {
    hide Quoted;
    assert PrintMembers([m], 1, fmt, depth) == "";
  }

  lemma TwoMembers(m: Member, n: Member, fmt: Style, depth: nat)
    ensures PrintMembers([m, n], 0, fmt, depth) ==
              Indent(fmt, depth) + Quoted(m.key) + Colon(fmt) + Print(m.value, fmt, depth) + MemberEnd(fmt, false)
              + (Indent(fmt, depth) + Quoted(n.key) + Colon(fmt) + Print(n.value, fmt, depth) + MemberEnd(fmt, true))
  {
    hide Quoted;
    assert PrintMembers([m, n], 2, fmt, depth) == "";
  }

  lemma TwoItems(v: Json, w: Json, fmt: Style, depth: nat)
    ensures PrintItems([v, w], 0, fmt, depth) == Print(v, fmt, depth) + Comma(fmt) + Print(w, fmt, depth)
  {
    assert PrintItems([v, w], 2, fmt, depth) == "";
  }

  lemma FewTabs()
    ensures Tabs(0) == "" && Tabs(1) == "\t" && Tabs(2) == "\t\t" && Tabs(3) == "\t\t\t"
  {
  }

  const INNER := Object([Member("b", Null)])
  const LIST := Array([True, INNER])
  const TREE := Object([Member("a", LIST), Member("c", False)])

  lemma LayoutInner(f: Style)
    ensures Print(INNER, f, 2) ==
              (if f.formatted then "{\n" else "{") + (Indent(f, 3) + "\"b\"" + Colon(f) + "null" + MemberEnd(f, true))
              + (if f.formatted then Tabs(2) else "") + "}"
  {
    hide PrintMembers, Quoted, Tabs, Indent, Colon, MemberEnd;
    PlainQuoted('b');
    OneMember(Member("b", Null), f, 3);
  }

  lemma LayoutList(f: Style)
    ensures Print(LIST, f, 1) == "[" + ("true" + Comma(f) + Print(INNER, f, 2)) + "]"
  {
    hide PrintItems, INNER, Comma;
    TwoItems(True, INNER, f, 2);
  }

  lemma LayoutTree(f: Style)
    ensures Print(TREE, f, 0) ==
              (if f.formatted then "{\n" else "{")
              + (Indent(f, 1) + "\"a\"" + Colon(f) + Print(LIST, f, 1) + MemberEnd(f, false)
                 + (Indent(f, 1) + "\"c\"" + Colon(f) + "false" + MemberEnd(f, true)))
              + (if f.formatted then Tabs(0) else "") + "}"
  {
    hide PrintMembers, Quoted, Tabs, Indent, Colon, MemberEnd, LIST;
    PlainQuoted('a');
    PlainQuoted('c');
    TwoMembers(Member("a", LIST), Member("c", False), f, 1);
  }

  /** A printed tree without formatting. */
  lemma LayoutPlain(lib: CLib)
    ensures var inner := "{" + ("" + "\"b\"" + ":" + "null" + "") + "" + "}";
            var list := "[" + ("true" + "," + inner) + "]";
            Print(TREE, Style(false, lib), 0) ==
              "{" + ("" + "\"a\"" + ":" + list + "," + ("" + "\"c\"" + ":" + "false" + "")) + "" + "}"
  {
    hide Print, TREE, LIST, INNER;
    var f := Style(false, lib);
    LayoutInner(f);
    LayoutList(f);
    LayoutTree(f);
  }

  /** The same tree with formatting: each member on a line of its own behind as many tabs as it is deep, items
      on one line. */
  lemma LayoutFormatted(lib: CLib)
    ensures var inner := "{\n" + ("\t\t\t" + "\"b\"" + ":\t" + "null" + "\n") + "\t\t" + "}";
            var list := "[" + ("true" + ", " + inner) + "]";
            Print(TREE, Style(true, lib), 0) ==
              "{\n" + ("\t" + "\"a\"" + ":\t" + list + ",\n" + ("\t" + "\"c\"" + ":\t" + "false" + "\n")) + "" + "}"
  {
    hide Print, TREE, LIST, INNER, Tabs, Colon, Comma, MemberEnd;
    FewTabs();
    var f := Style(true, lib);
    FormattedMarks(f);
    LayoutInner(f);
    LayoutList(f);
    LayoutTree(f);
  }

  lemma FormattedMarks(f: Style)
    requires f.formatted
    ensures MemberEnd(f, true) == "\n" && MemberEnd(f, false) == ",\n" && Colon(f) == ":\t" && Comma(f) == ", "
  {
  }
}
