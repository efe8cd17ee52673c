/**
 * The three-digit hexadecimal token (`f"{val:03X}"`) both output formats
 * use for a 12-bit word, and a parser for it.
 */
module HexToken {
  import opened Wrappers
  import opened Pixels

  predicate IsUpperHexDigit(c: char)
  {
    '0' <= c <= '9' || 'A' <= c <= 'F'
  }

  /** The upper-case hexadecimal digit of a value below 16. */
  function HexDigit(d: int): (c: char)
    requires 0 <= d < 16
    ensures IsUpperHexDigit(c)
  {
    if d < 10 then ('0' as int + d) as char else ('A' as int + d - 10) as char
  }

  /** The value of a hexadecimal digit; lower case is accepted as well. */
  function DigitValue(c: char): (r: Option<int>)
    ensures r.Some? <==> IsUpperHexDigit(c) || 'a' <= c <= 'f'
    ensures r.Some? ==> 0 <= r.value < 16
  {
    if '0' <= c <= '9' then Some(c as int - '0' as int)
    else if 'A' <= c <= 'F' then Some(c as int - 'A' as int + 10)
    else if 'a' <= c <= 'f' then Some(c as int - 'a' as int + 10)
    else None
  }

  /** `f"{v:03X}"`: exactly three upper-case digits, zero-padded, most significant first. */
  function Token(v: Word12): (t: string)
    ensures |t| == 3
    ensures forall i :: 0 <= i < 3 ==> IsUpperHexDigit(t[i])
  {
    [HexDigit(v / 256), HexDigit((v / 16) % 16), HexDigit(v % 16)]
  }

  /** Reads three hexadecimal digits as a base-16 number. */
  function ParseToken(t: string): (r: Option<Word12>)
    ensures r.Some? ==> |t| == 3
  {
    if |t| != 3 then None
    else match (DigitValue(t[0]), DigitValue(t[1]), DigitValue(t[2]))
      case (Some(h), Some(m), Some(l)) => Some(256 * h + 16 * m + l)
      case _ => None
  }

  lemma {:induction false} DigitRoundTrip(d: int)
    requires 0 <= d < 16
    ensures DigitValue(HexDigit(d)) == Some(d)
  {
  }

  /** Parsing a rendered token as base 16 gives back the word. */
  lemma {:induction false} TokenRoundTrip(v: Word12)
    ensures ParseToken(Token(v)) == Some(v)
  {
    DigitRoundTrip(v / 256);
    DigitRoundTrip((v / 16) % 16);
    DigitRoundTrip(v % 16);
  }

  /** An upper-case token that parses to v is the rendering of v: the rendering is canonical. */
  lemma {:induction false} TokenCanonical(t: string, v: Word12)
    requires ParseToken(t) == Some(v)
    requires forall i :: 0 <= i < |t| ==> IsUpperHexDigit(t[i])
    ensures t == Token(v)
  {
    var h, m, l := DigitValue(t[0]).value, DigitValue(t[1]).value, DigitValue(t[2]).value;
    assert v == 256 * h + 16 * m + l;
    NibbleDigits(h, m, l);
    DigitCanonical(t[0]);
    DigitCanonical(t[1]);
    DigitCanonical(t[2]);
    assert Token(v) == [HexDigit(h), HexDigit(m), HexDigit(l)];
    assert t == [t[0], t[1], t[2]];
  }

  lemma {:induction false} DigitCanonical(c: char)
    requires IsUpperHexDigit(c)
    ensures DigitValue(c).Some? && HexDigit(DigitValue(c).value) == c
  {
  }

  /** Distinct words render as distinct tokens. */
  lemma TokenInjective(v: Word12, w: Word12)
    requires Token(v) == Token(w)
    ensures v == w
  {
    TokenRoundTrip(v);
    TokenRoundTrip(w);
  }
}
