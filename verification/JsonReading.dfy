/** A text at a place in a longer one, and how the parser's scans pass over it. */
module JsonReading {
  import opened JsonText

  ghost predicate Reads(c: string, o: nat, t: string) { Literal(c, o, t) }

  lemma ReadsSplit(c: string, o: nat, a: string, b: string)
    requires Reads(c, o, a + b)
    ensures Reads(c, o, a) && Reads(c, o + |a|, b)
  {
    assert c[o..o + |a|] == (a + b)[..|a|];
    assert c[o + |a|..o + |a| + |b|] == (a + b)[|a|..];
  }

  lemma ReadsAt(c: string, o: nat, t: string, k: nat)
    requires Reads(c, o, t) && k < |t|
    ensures o + k < |c| && c[o + k] == t[k]
  {
    assert c[o..o + |t|][k] == c[o + k];
  }

  lemma {:induction false} SkipTo(c: string, o: nat, r: nat)
    requires o <= r < |c| && (forall k :: o <= k < r ==> c[k] <= ' ') && c[r] > ' '
    ensures SkipWhitespace(c, o) == r
    decreases r - o
  {
    if o < r { SkipTo(c, o + 1, r); }
  }

  lemma {:induction false} PassOver(c: string, i: nat, n: nat)
    requires i + n <= |c| && forall k :: i <= k < i + n ==> c[k] != '\"' && c[k] != '\\'
    ensures ClosingQuote(c, i) == ClosingQuote(c, i + n)
    decreases n
  {
    if n > 0 { PassOver(c, i + 1, n - 1); }
  }

  lemma NothingLeft(c: string, e: nat)
    requires e < |c| && c[e] == '\"'
    ensures ClosingQuote(c, e) == Ok(e, e) && Unescape(c, e, e) == Ok("", e)
  {
  }

  /** The value at o is followed by something that does not continue a number. */
  ghost predicate Ends(c: string, o: nat) { o < |c| && !NumberChar(c[o]) }

  function Back<T>(fits: bool, v: T, next: nat): Parsed<T> { if fits then Ok(v, next) else Fail }

  lemma NotLiteral(c: string, o: nat, word: string)
    requires o < |c| && word != "" && c[o] != word[0]
    ensures !Literal(c, o, word)
  {
    if o + |word| <= |c| { assert c[o..o + |word|][0] == c[o]; }
  }

  lemma NoWord(c: string, o: nat)
    requires o < |c| && c[o] != 'n' && c[o] != 'f' && c[o] != 't'
    ensures !Literal(c, o, "null") && !Literal(c, o, "false") && !Literal(c, o, "true")
  {
    NotLiteral(c, o, "null");
    NotLiteral(c, o, "false");
    NotLiteral(c, o, "true");
  }
}
