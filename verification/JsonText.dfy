/** JSON trees, the text the printer gives them and the tree the parser gives a text. Characters stand for
    bytes. */
module JsonText {

  const NESTING_LIMIT := 1000
  const INT_MAX := 2147483647
  const INT_MIN := -2147483648

  const NUL: char := 0 as char

  /** A C string, without its terminator. */
  type CString = s: string | NUL !in s

  datatype Double = Finite(value: real) | Infinite(positive: bool) | NotANumber

  /** A number has the integer and the double the source keeps side by side. */
  datatype Json =
    | Null
    | False
    | True
    | Number(valueint: int, valuedouble: Double)
    | String(text: string)
    | Array(items: seq<Json>)
    | Object(members: seq<Member>)

  datatype Member = Member(key: string, value: Json)

  datatype Parsed<T> = Ok(value: T, next: nat) | Fail

  // ---- what the printer writes

  const BACKSPACE: char := 8 as char
  const FORMFEED: char := 12 as char

  type Point = c: char | c != '-' && !('0' <= c <= '9') witness '.'

  /** What the printer asks of the C library: a number with so many significant digits, a number read
      back from a text, and the decimal point of the locale. */
  datatype CLib = CLib(format: (real, nat) -> CString, scan: string -> (bool, real), point: Point)

  datatype Style = Style(formatted: bool, lib: CLib)

  /** The longest number the printer has room for. */
  const NUMBER_MAX := 25
  const DBL_EPSILON: real := 1.0 / 4503599627370496.0

  function Abs(x: real): real { if x < 0.0 then -x else x }

  /** `compare_double`, on the numbers the doubles stand for. */
  predicate NearlyEqual(a: real, b: real) {
    Abs(a - b) <= (if Abs(a) > Abs(b) then Abs(a) else Abs(b)) * DBL_EPSILON
  }

  predicate ReadsBack(d: real, lib: CLib) {
    var (ok, test) := lib.scan(lib.format(d, 15));
    ok && NearlyEqual(test, d)
  }

  /** The locale's decimal point becomes a full stop. */
  function Stop(ch: char, point: Point): char { if ch == point then '.' else ch }

  function Pointed(s: CString, point: Point): (t: CString)
    ensures |t| == |s|
  {
    seq(|s|, i requires 0 <= i < |s| => Stop(s[i], point))
  }

  /** The text of a number: an integer in full; anything else with 15 digits, or with 17 if 15 do not
      give it back. */
  function NumberText(i: int, d: Double, lib: CLib): (t: CString) {
    match d
    case Finite(r) =>
      if r == i as real then DecimalClean(i); Decimal(i)
      else Pointed(lib.format(r, if ReadsBack(r, lib) then 15 else 17), lib.point)
    case _ => Pointed("null", lib.point)
  }

  lemma DecimalClean(i: int)
    ensures NUL !in Decimal(i)
    ensures forall k :: 0 <= k < |Decimal(i)| ==> Decimal(i)[k] == '-' || '0' <= Decimal(i)[k] <= '9'
  {
    hide Digits;
  }

  /** No number in the tree has a longer text than the printer has room for. */
  ghost predicate NumbersFit(v: Json, lib: CLib)
    decreases v
  {
    match v
    case Number(i, d) => |NumberText(i, d, lib)| <= NUMBER_MAX
    case Array(es) => forall e :: e in es ==> NumbersFit(e, lib)
    case Object(ms) => forall m :: m in ms ==> NumbersFit(m.value, lib)
    case _ => true
  }

  function HexDigit(n: nat): (d: char)
    requires n < 16
  {
    "0123456789abcdef"[n]
  }

  function EscapeChar(ch: char): (e: string)
    ensures |e| > 0 && |e| <= 6
  {
    if ch == '\"' then "\\\""
    else if ch == '\\' then "\\\\"
    else if ch == BACKSPACE then "\\b"
    else if ch == FORMFEED then "\\f"
    else if ch == '\n' then "\\n"
    else if ch == '\r' then "\\r"
    else if ch == '\t' then "\\t"
    else if ch < ' ' then ['\\', 'u', '0', '0', HexDigit(ch as int / 16), HexDigit(ch as int % 16)]
    else [ch]
  }

  function Escape(s: string): (e: string) {
    if s == "" then "" else EscapeChar(s[0]) + Escape(s[1..])
  }

  function Quoted(s: string): string { "\"" + Escape(s) + "\"" }

  function Digits(n: nat): (d: string)
    ensures |d| > 0 && forall k :: 0 <= k < |d| ==> '0' <= d[k] <= '9'
  {
    if n < 10 then [HexDigit(n)] else Digits(n / 10) + [HexDigit(n % 10)]
  }

  function Decimal(i: int): (d: string)
    ensures |d| > 0 && (d[0] == '-' || '0' <= d[0] <= '9')
  {
    if i < 0 then "-" + Digits(-i) else Digits(i)
  }

  function Tabs(n: nat): (t: string)
    ensures |t| == n && forall k :: 0 <= k < n ==> t[k] == '\t'
  {
    seq(n, _ => '\t')
  }

  /** The text of a tree, `depth` levels inside arrays and objects. */
  function Print(v: Json, fmt: Style, depth: nat): (t: string)
    decreases v, 0, 0
  {
    match v
    case Null => "null"
    case False => "false"
    case True => "true"
    case Number(i, d) => NumberText(i, d, fmt.lib)
    case String(s) => Quoted(s)
    case Array(es) => "[" + PrintItems(es, 0, fmt, depth + 1) + "]"
    case Object(ms) => (if fmt.formatted then "{\n" else "{") + PrintMembers(ms, 0, fmt, depth + 1) + (if fmt.formatted then Tabs(depth) else "") + "}"
  }

  /** The items from the i-th on, with the separators between them. */
  function PrintItems(es: seq<Json>, i: nat, fmt: Style, depth: nat): string
    requires i <= |es|
    decreases es, 1, |es| - i
  {
    if i == |es| then "" else
    Print(es[i], fmt, depth) + (if i + 1 < |es| then Comma(fmt) else "") + PrintItems(es, i + 1, fmt, depth)
  }

  function Comma(fmt: Style): string { if fmt.formatted then ", " else "," }

  function Colon(fmt: Style): string { if fmt.formatted then ":\t" else ":" }

  function Indent(fmt: Style, depth: nat): string { if fmt.formatted then Tabs(depth) else "" }

  function Lead(fmt: Style): string { if fmt.formatted then "\n" else "" }

  function Close(fmt: Style, depth: nat): string
    requires depth > 0
  {
    Indent(fmt, depth - 1) + "}"
  }

  function MemberEnd(fmt: Style, last: bool): string {
    (if last then "" else ",") + (if fmt.formatted then "\n" else "")
  }

  /** The members from the i-th on. */
  function PrintMembers(ms: seq<Member>, i: nat, fmt: Style, depth: nat): string
    requires i <= |ms|
    decreases ms, 1, |ms| - i
  {
    if i == |ms| then "" else
    Indent(fmt, depth) + Quoted(ms[i].key) + Colon(fmt) + Print(ms[i].value, fmt, depth)
      + MemberEnd(fmt, i + 1 == |ms|) + PrintMembers(ms, i + 1, fmt, depth)
  }

  /** How deep arrays and objects nest. */
  function Nesting(v: Json): (d: nat) {
    match v
    case Array(es) => 1 + DeepestItem(es, 0)
    case Object(ms) => 1 + DeepestMember(ms, 0)
    case _ => 0
  }

  function Max(a: nat, b: nat): nat { if a < b then b else a }

  function DeepestItem(es: seq<Json>, i: nat): nat
    requires i <= |es|
    decreases es, |es| - i
  {
    if i == |es| then 0 else Max(Nesting(es[i]), DeepestItem(es, i + 1))
  }

  function DeepestMember(ms: seq<Member>, i: nat): nat
    requires i <= |ms|
    decreases ms, |ms| - i
  {
    if i == |ms| then 0 else Max(Nesting(ms[i].value), DeepestMember(ms, i + 1))
  }

  // ---- what the parser makes of a text

  /** Skips bytes up to the blank; never leaves the text, whose last byte is the terminator. */
  function SkipWhitespace(c: string, o: nat): (r: nat)
    requires o <= |c|
    ensures o <= r <= |c| && (o < |c| ==> r < |c|)
    decreases |c| - o
  {
    if o == |c| then o
    else if c[o] > ' ' then o
    else if o + 1 == |c| then o
    else SkipWhitespace(c, o + 1)
  }

  function HexValue(ch: char): (v: int)
    ensures -1 <= v < 16
  {
    if '0' <= ch <= '9' then ch as int - '0' as int
    else if 'A' <= ch <= 'F' then 10 + ch as int - 'A' as int
    else if 'a' <= ch <= 'f' then 10 + ch as int - 'a' as int
    else -1
  }

  /** Four hexadecimal digits; zero if one of them is not. */
  function ParseHex4(c: string, o: nat): (h: nat)
    requires o + 4 <= |c|
    ensures h < 0x1_0000
  {
    var a, b, d, e := HexValue(c[o]), HexValue(c[o + 1]), HexValue(c[o + 2]), HexValue(c[o + 3]);
    if a < 0 || b < 0 || d < 0 || e < 0 then 0 else ((a * 16 + b) * 16 + d) * 16 + e
  }

  /** A code point in one to four bytes. */
  function Utf8(cp: nat): (s: string)
    requires cp < 0x11_0000
    ensures 1 <= |s| <= 4
  {
    if cp < 0x80 then [cp as char]
    else if cp < 0x800 then [(0xC0 + cp / 0x40) as char, (0x80 + cp % 0x40) as char]
    else if cp < 0x1_0000 then [(0xE0 + cp / 0x1000) as char, (0x80 + cp / 0x40 % 0x40) as char, (0x80 + cp % 0x40) as char]
    else [(0xF0 + cp / 0x4_0000) as char, (0x80 + cp / 0x1000 % 0x40) as char, (0x80 + cp / 0x40 % 0x40) as char, (0x80 + cp % 0x40) as char]
  }

  /** One or two \\u sequences at p, before the closing quote at e: their length (0 if they are not right)
      and the bytes they stand for. */
  function Utf16Literal(c: string, p: nat, e: nat): (r: (nat, string))
    requires p <= e < |c|
    ensures r.0 == 0 || r.0 == 6 || r.0 == 12
    ensures p + r.0 <= e
  {
    if e - p < 6 then (0, "") else
    var first := ParseHex4(c, p + 2);
    if 0xDC00 <= first <= 0xDFFF then (0, "")
    else if 0xD800 <= first <= 0xDBFF then
      if e - p < 12 || c[p + 6] != '\\' || c[p + 7] != 'u' then (0, "") else
      var second := ParseHex4(c, p + 8);
      if second < 0xDC00 || second > 0xDFFF then (0, "") else
      (12, Utf8(0x1_0000 + first % 0x400 * 0x400 + second % 0x400))
    else (6, Utf8(first))
  }

  /** The first unescaped quote at or after i. */
  function ClosingQuote(c: string, i: nat): (r: Parsed<nat>)
    ensures r.Ok? ==> i <= r.next < |c| && c[r.next] == '\"' && r.value == r.next
    decreases |c| - i
  {
    if i >= |c| then Fail
    else if c[i] == '\"' then Ok(i, i)
    else if c[i] == '\\' then if i + 1 >= |c| then Fail else ClosingQuote(c, i + 2)
    else ClosingQuote(c, i + 1)
  }

  /** The bytes between p and the closing quote, escapes replaced. */
  function Unescape(c: string, p: nat, e: nat): (r: Parsed<string>)
    requires e < |c|
    decreases |c| - p
  {
    if p >= e then Ok("", e) else
    if c[p] != '\\' then Prepend([c[p]], Unescape(c, p + 1, e)) else
    match c[p + 1]
    case 'b' => Prepend([BACKSPACE], Unescape(c, p + 2, e))
    case 'f' => Prepend([FORMFEED], Unescape(c, p + 2, e))
    case 'n' => Prepend("\n", Unescape(c, p + 2, e))
    case 'r' => Prepend("\r", Unescape(c, p + 2, e))
    case 't' => Prepend("\t", Unescape(c, p + 2, e))
    case '\"' => Prepend("\"", Unescape(c, p + 2, e))
    case '\\' => Prepend("\\", Unescape(c, p + 2, e))
    case '/' => Prepend("/", Unescape(c, p + 2, e))
    case 'u' =>
      var (len, out) := Utf16Literal(c, p, e);
      if len == 0 then Fail else Prepend(out, Unescape(c, p + len, e))
    case _ => Fail
  }

  function Prepend(s: string, r: Parsed<string>): Parsed<string> {
    match r case Fail => Fail case Ok(t, n) => Ok(s + t, n)
  }

  function ParseString(c: string, o: nat): (r: Parsed<string>)
    requires o < |c|
    ensures r.Ok? ==> o < r.next <= |c|
  {
    if c[o] != '\"' then Fail else
    match ClosingQuote(c, o + 1)
    case Fail => Fail
    case Ok(e, _) => match Unescape(c, o + 1, e) case Fail => Fail case Ok(s, _) => Ok(s, e + 1)
  }

  predicate NumberChar(ch: char) { '0' <= ch <= '9' || ch == '+' || ch == '-' || ch == 'e' || ch == 'E' || ch == '.' }

  /** Where the run of number characters at o ends. */
  function NumberEnd(c: string, o: nat): (r: nat)
    requires o <= |c|
    ensures o <= r <= |c| && (forall k :: o <= k < r ==> NumberChar(c[k])) && (r < |c| ==> !NumberChar(c[r]))
    decreases |c| - o
  {
    if o < |c| && NumberChar(c[o]) then NumberEnd(c, o + 1) else o
  }

  /** The C library's conversion: how many characters it takes, and the value. */
  type Strtod = string -> (nat, Double)

  /** The integer beside a double. No number characters spell a NaN, whose conversion C leaves open. */
  function Saturate(d: Double): int {
    match d
    case Infinite(positive) => if positive then INT_MAX else INT_MIN
    case NotANumber => INT_MIN
    case Finite(r) =>
      if r >= INT_MAX as real then INT_MAX
      else if r <= INT_MIN as real then INT_MIN
      else if r >= 0.0 then r.Floor else -((-r).Floor)
  }

  function ParseNumber(c: string, o: nat, strtod: Strtod): (r: Parsed<Json>)
    requires o < |c|
    ensures r.Ok? ==> o < r.next <= |c|
  {
    var e := NumberEnd(c, o);
    var (n, value) := strtod(c[o..e]);
    if n == 0 || n > e - o then Fail else Ok(Number(Saturate(value), value), o + n)
  }

  predicate Literal(c: string, o: nat, word: string) { o + |word| <= |c| && c[o..o + |word|] == word }

  function ParseValue(c: string, o: nat, depth: nat, strtod: Strtod): (r: Parsed<Json>)
    requires o <= |c|
    ensures r.Ok? ==> o < r.next <= |c|
    decreases |c| - o, 1
  {
    if Literal(c, o, "null") then Ok(Null, o + 4)
    else if Literal(c, o, "false") then Ok(False, o + 5)
    else if Literal(c, o, "true") then Ok(True, o + 4)
    else if o == |c| then Fail
    else if c[o] == '\"' then
      match ParseString(c, o) case Fail => Fail case Ok(s, e) => Ok(String(s), e)
    else if c[o] == '-' || '0' <= c[o] <= '9' then ParseNumber(c, o, strtod)
    else if c[o] == '[' then ParseArray(c, o, depth, strtod)
    else if c[o] == '{' then ParseObject(c, o, depth, strtod)
    else Fail
  }

  function ParseArray(c: string, o: nat, depth: nat, strtod: Strtod): (r: Parsed<Json>)
    requires o < |c|
    ensures r.Ok? ==> o < r.next <= |c|
    decreases |c| - o, 0
  {
    if depth >= NESTING_LIMIT then Fail else
    var a := SkipWhitespace(c, o + 1);
    if a == |c| then Fail
    else if c[a] == ']' then Ok(Array([]), a + 1)
    else match ParseItems(c, a, depth + 1, strtod) case Fail => Fail case Ok(es, e) => Ok(Array(es), e)
  }

  function ParseObject(c: string, o: nat, depth: nat, strtod: Strtod): (r: Parsed<Json>)
    requires o < |c|
    ensures r.Ok? ==> o < r.next <= |c|
    decreases |c| - o, 0
  {
    if depth >= NESTING_LIMIT then Fail else
    var a := SkipWhitespace(c, o + 1);
    if a == |c| then Fail
    else if c[a] == '}' then Ok(Object([]), a + 1)
    else match ParseMembers(c, a, depth + 1, strtod) case Fail => Fail case Ok(ms, e) => Ok(Object(ms), e)
  }

  /** Items separated by commas, from behind the bracket or comma at o - 1 to behind the closing bracket. */
  function ParseItems(c: string, o: nat, depth: nat, strtod: Strtod): (r: Parsed<seq<Json>>)
    requires o <= |c|
    ensures r.Ok? ==> o < r.next <= |c|
    decreases |c| - o, 2
  {
    match ParseValue(c, SkipWhitespace(c, o), depth, strtod)
    case Fail => Fail
    case Ok(v, b) =>
      var d := SkipWhitespace(c, b);
      if d < |c| && c[d] == ',' then
        match ParseItems(c, d + 1, depth, strtod) case Fail => Fail case Ok(vs, e) => Ok([v] + vs, e)
      else if d < |c| && c[d] == ']' then Ok([v], d + 1)
      else Fail
  }

  function ParseMember(c: string, o: nat, depth: nat, strtod: Strtod): (r: Parsed<Member>)
    requires o <= |c|
    ensures r.Ok? ==> o < r.next <= |c|
    decreases |c| - o, 2
  {
    if o == |c| then Fail else
    match ParseString(c, SkipWhitespace(c, o))
    case Fail => Fail
    case Ok(k, b) =>
      var d := SkipWhitespace(c, b);
      if d == |c| || c[d] != ':' then Fail else
      match ParseValue(c, SkipWhitespace(c, d + 1), depth, strtod)
      case Fail => Fail
      case Ok(v, e) => Ok(Member(k, v), e)
  }

  function ParseMembers(c: string, o: nat, depth: nat, strtod: Strtod): (r: Parsed<seq<Member>>)
    requires o <= |c|
    ensures r.Ok? ==> o < r.next <= |c|
    decreases |c| - o, 3
  {
    match ParseMember(c, o, depth, strtod)
    case Fail => Fail
    case Ok(m, b) =>
      var d := SkipWhitespace(c, b);
      if d < |c| && c[d] == ',' then
        match ParseMembers(c, d + 1, depth, strtod) case Fail => Fail case Ok(ms, e) => Ok([m] + ms, e)
      else if d < |c| && c[d] == '}' then Ok([m], d + 1)
      else Fail
  }

  function SkipBom(c: string): (o: nat)
    ensures o <= |c|
  {
    if |c| > 4 && c[..3] == [0xEF as char, 0xBB as char, 0xBF as char] then 3 else 0
  }

  /** Parsing a C string, given with its terminator. */
  function ParseText(c: string, strtod: Strtod, toTheEnd: bool): Parsed<Json>
    requires |c| > 0
  {
    match ParseValue(c, SkipWhitespace(c, SkipBom(c)), 0, strtod)
    case Fail => Fail
    case Ok(v, e) =>
      if !toTheEnd then Ok(v, e) else
      var z := SkipWhitespace(c, e);
      if z >= |c| || c[z] != NUL then Fail else Ok(v, z)
  }
}
