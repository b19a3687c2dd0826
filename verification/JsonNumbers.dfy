/** The numbers of section 6 of RFC 8259, what decimal digits spell, and what becomes of a number on its way
    to the C library and back. */
module JsonNumbers {
  import opened JsonText
  import opened JsonReading

  predicate AllDigits(d: string) { forall k :: 0 <= k < |d| ==> '0' <= d[k] <= '9' }

  /** Digits without a leading zero. */
  predicate Whole(d: string) { d != "" && AllDigits(d) && (d[0] == '0' ==> |d| == 1) }

  function DigitOf(ch: char): nat
    requires '0' <= ch <= '9'
  {
    ch as int - '0' as int
  }

  /** The number that decimal digits spell. */
  function DigitsValue(d: string): (n: nat)
    requires AllDigits(d)
  {
    if d == "" then 0 else 10 * DigitsValue(d[..|d| - 1]) + DigitOf(d[|d| - 1])
  }

  predicate IntegerText(t: string) { Whole(t) || (|t| > 0 && t[0] == '-' && Whole(t[1..])) }

  function IntegerValue(t: string): int
    requires IntegerText(t)
  {
    if t[0] == '-' then 0 - DigitsValue(t[1..]) as int else DigitsValue(t)
  }

  /** The conversion reads a decimal integer of 32 bits whole and gives its value, which a double holds. */
  ghost predicate ReadsIntegers(strtod: Strtod) {
    forall t :: IntegerText(t) && INT_MIN <= IntegerValue(t) <= INT_MAX ==> strtod(t) == (|t|, Finite(IntegerValue(t) as real))
  }

  lemma DigitChar(n: nat)
    requires n < 10
    ensures HexDigit(n) as int == '0' as int + n
  {
  }

  lemma {:induction false} DigitsSpell(n: nat)
    ensures Whole(Digits(n)) && DigitsValue(Digits(n)) == n && (n > 0 ==> Digits(n)[0] != '0')
  {
    hide HexDigit;
    DigitChar(n % 10);
    if n >= 10 {
      DigitsSpell(n / 10);
      assert Digits(n)[..|Digits(n)| - 1] == Digits(n / 10);
    } else {
      DigitChar(n);
      assert Digits(n) == [HexDigit(n)] && [HexDigit(n)][..0] == "";
    }
  }

  /** An integer is printed as its digits, without a leading zero, behind a minus sign if it is negative. */
  lemma DecimalSpells(i: int)
    ensures IntegerText(Decimal(i)) && IntegerValue(Decimal(i)) == i
  {
    hide Digits, HexDigit, DigitsValue;
    DigitsSpell(if i < 0 then -i else i);
    if i < 0 { assert Decimal(i)[1..] == Digits(-i); }
  }

  lemma {:induction false} NumberRun(c: string, o: nat, r: nat)
    requires o <= r < |c| && (forall k :: o <= k < r ==> NumberChar(c[k])) && !NumberChar(c[r])
    ensures NumberEnd(c, o) == r
    decreases r - o
  {
    if o < r { NumberRun(c, o + 1, r); }
  }

  /** A C library whose 17 digits identify the number. */
  ghost predicate Faithful(r: real, lib: CLib) {
    lib.scan(lib.format(r, 17)).0 && NearlyEqual(lib.scan(lib.format(r, 17)).1, r)
  }

  /** A number that is no integer is printed with 15 digits exactly if these read back as that number, and
      otherwise with 17; what is printed reads back. An integer is printed in full. */
  lemma NumberTextIff(i: int, r: real, lib: CLib) returns (digits: nat)
    ensures r == i as real ==> IntegerText(NumberText(i, Finite(r), lib)) && IntegerValue(NumberText(i, Finite(r), lib)) == i
    ensures r != i as real ==>
              var (ok, back) := lib.scan(lib.format(r, digits));
              && NumberText(i, Finite(r), lib) == Pointed(lib.format(r, digits), lib.point)
              && (digits == 15 || digits == 17)
              && (digits == 15 <==> lib.scan(lib.format(r, 15)).0 && NearlyEqual(lib.scan(lib.format(r, 15)).1, r))
              && (Faithful(r, lib) ==> ok && NearlyEqual(back, r))
  {
    hide IntegerText, IntegerValue, Decimal, Pointed, NearlyEqual;
    DecimalSpells(i);
    digits := if ReadsBack(r, lib) then 15 else 17;
  }

  /** The integer kept beside a number is the number cut off towards zero, or the nearest integer of 32 bits
      if that does not fit. */
  lemma SaturateIff(r: real, i: int)
    ensures Saturate(Finite(r)) == i <==>
              if r >= INT_MAX as real then i == INT_MAX
              else if r <= INT_MIN as real then i == INT_MIN
              else (r >= 0.0 && i as real <= r < i as real + 1.0) || (r < 0.0 && i as real - 1.0 < r <= i as real)
  {
    var f := if r >= 0.0 then r.Floor else -((-r).Floor);
    FloorIff(r, i);
    FloorIff(-r, -i);
  }

  lemma FloorIff(r: real, i: int)
    ensures r.Floor == i <==> i as real <= r < i as real + 1.0
  {
  }

  /** Section 6 of RFC 8259: an integer part, and perhaps a fraction and an exponent. */
  datatype Numeral = Numeral(minus: bool, whole: string, fraction: string, mark: string, exponent: string)

  predicate NumeralOk(n: Numeral) {
    && Whole(n.whole) && AllDigits(n.fraction) && AllDigits(n.exponent)
    && (n.exponent != "" <==> n.mark in {"e", "E", "e+", "E+", "e-", "E-"}) && (n.exponent == "" ==> n.mark == "")
  }

  function NumeralText(n: Numeral): string {
    (if n.minus then "-" else "") + n.whole + (if n.fraction != "" then "." + n.fraction else "") + (n.mark + n.exponent)
  }

  lemma NumeralChars(n: Numeral)
    requires NumeralOk(n)
    ensures forall k :: 0 <= k < |NumeralText(n)| ==> NumberChar(NumeralText(n)[k])
    ensures |NumeralText(n)| > 0 && (NumeralText(n)[0] == '-' || '0' <= NumeralText(n)[0] <= '9')
  {
    var tail := n.mark + n.exponent;
    assert forall k :: 0 <= k < |tail| ==> NumberChar(tail[k]);
  }

  /** A text the parser takes for a number: number characters that the conversion takes whole. */
  predicate NumberOk(t: string, d: Double, strtod: Strtod) {
    && t != "" && (t[0] == '-' || '0' <= t[0] <= '9') && (forall k :: 0 <= k < |t| ==> NumberChar(t[k]))
    && strtod(t) == (|t|, d)
  }

  lemma NumberRead(t: string, d: Double, c: string, o: nat, depth: nat, strtod: Strtod)
    requires NumberOk(t, d, strtod) && Reads(c, o, t) && Ends(c, o + |t|)
    ensures ParseValue(c, o, depth, strtod) == Ok(Number(Saturate(d), d), o + |t|)
  {
    hide Saturate, NumberChar;
    forall k | o <= k < o + |t| ensures NumberChar(c[k]) { ReadsAt(c, o, t, k - o); }
    NumberRun(c, o, o + |t|);
    assert c[o..o + |t|] == t;
    ReadsAt(c, o, t, 0);
    NoWord(c, o);
  }

  /** A number that is taken, and not followed by more number characters, is one the conversion takes whole. */
  lemma NumberWritten(c: string, o: nat, strtod: Strtod)
    requires o < |c| && (c[o] == '-' || '0' <= c[o] <= '9')
    requires ParseNumber(c, o, strtod).Ok? && Ends(c, ParseNumber(c, o, strtod).next)
    ensures var r := ParseNumber(c, o, strtod);
            r.value.Number? && r.value.valueint == Saturate(r.value.valuedouble) && NumberOk(c[o..r.next], r.value.valuedouble, strtod)
  {
    hide Saturate;
    var n := ParseNumber(c, o, strtod).next;
    assert n == NumberEnd(c, o);
  }

  /** The conversion is given every number of the RFC whole, whatever its form. */
  lemma NumeralBack(n: Numeral, d: Double, strtod: Strtod)
    requires NumeralOk(n) && strtod(NumeralText(n)) == (|NumeralText(n)|, d)
    ensures NumberOk(NumeralText(n), d, strtod)
  {
    hide NumeralText, NumberChar;
    NumeralChars(n);
  }

  lemma IntegerRead(i: int, strtod: Strtod)
    requires INT_MIN <= i <= INT_MAX && ReadsIntegers(strtod)
    ensures NumberOk(Decimal(i), Finite(i as real), strtod) && Saturate(Finite(i as real)) == i
  {
    hide Digits, IntegerValue, IntegerText, Decimal;
    DecimalSpells(i);
    DecimalClean(i);
  }
}
