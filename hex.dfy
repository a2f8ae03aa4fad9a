/** Hexadecimal digits, shared by the percent-encoding and by JSON's \u
    escapes. */
module Hex {
  import opened Wrappers

  predicate IsUpperHex(c: char) {
    ('0' <= c <= '9') || ('A' <= c <= 'F')
  }

  /** The upper-case digit encodeURIComponent writes. */
  function UpperDigit(n: nat): (c: char)
    requires n < 16
    ensures IsUpperHex(c)
  {
    "0123456789ABCDEF"[n]
  }

  /** The lower-case digit JSON.stringify writes in a \u escape. */
  function LowerDigit(n: nat): char
    requires n < 16
  {
    "0123456789abcdef"[n]
  }

  /** The value of a hexadecimal digit of either case. */
  function Value(c: char): (r: Option<nat>)
    ensures r.Some? ==> r.value < 16
  {
    if '0' <= c <= '9' then Some(c as int - '0' as int)
    else if 'A' <= c <= 'F' then Some(c as int - 'A' as int + 10)
    else if 'a' <= c <= 'f' then Some(c as int - 'a' as int + 10)
    else None
  }

  lemma UpperRoundTrip(n: nat)
    requires n < 16
    ensures Value(UpperDigit(n)) == Some(n)
  {
  }

  lemma LowerRoundTrip(n: nat)
    requires n < 16
    ensures Value(LowerDigit(n)) == Some(n)
  {
  }
}
