/** Percent-encoding of a URI component (RFC 3986, section 2.1) as the
    JavaScript functions encodeURIComponent and decodeURIComponent perform it
    (ECMA-262, sections 19.2.6.4 and 19.2.6.2): every character outside the
    unreserved set is written as the percent-escaped octets of its UTF-8
    encoding, with upper-case hexadecimal digits. */
module Uri {
  import opened Wrappers
  import Utf8
  import Hex

  /** The characters encodeURIComponent leaves as they are. */
  predicate Unreserved(c: char) {
    ('A' <= c <= 'Z') || ('a' <= c <= 'z') || ('0' <= c <= '9') ||
    c == '-' || c == '_' || c == '.' || c == '!' || c == '~' || c == '*' || c == '\'' || c == '(' || c == ')'
  }

  function EscapeOctet(b: Utf8.Byte): string {
    ['%', Hex.UpperDigit(b / 16), Hex.UpperDigit(b % 16)]
  }

  function EscapeOctets(bytes: seq<Utf8.Byte>): (r: string)
    ensures |r| == 3 * |bytes|
    ensures forall i | 0 <= i < |r| :: r[i] == '%' || Hex.IsUpperHex(r[i])
  {
    if bytes == [] then [] else EscapeOctet(bytes[0]) + EscapeOctets(bytes[1..])
  }

  /** How encodeURIComponent writes one character. */
  function EncodeChar(c: char): (r: string)
    ensures |r| >= 1
    ensures forall i | 0 <= i < |r| :: Unreserved(r[i]) || r[i] == '%'
  {
    if Unreserved(c) then [c] else EscapeOctets(Utf8.EncodeChar(c))
  }

  /** encodeURIComponent. Its output uses only unreserved characters, '%'
      and upper-case hexadecimal digits. */
  function EncodeURIComponent(s: string): (r: string)
    ensures forall i | 0 <= i < |r| :: Unreserved(r[i]) || r[i] == '%'
  {
    if s == [] then []
    else
      var head, tail := EncodeChar(s[0]), EncodeURIComponent(s[1..]);
      assert forall i | |head| <= i < |head + tail| :: (head + tail)[i] == tail[i - |head|];
      head + tail
  }

  /** Reads an escape "%HH" at the start of `s`. */
  function ReadOctet(s: string): Option<Utf8.Byte> {
    if |s| < 3 || s[0] != '%' then None
    else match (Hex.Value(s[1]), Hex.Value(s[2]))
      case (Some(hi), Some(lo)) => Some(hi * 16 + lo)
      case _ => None
  }

  /** Reads `k` consecutive escapes at the start of `s`. */
  function ReadOctets(s: string, k: nat): (r: Option<seq<Utf8.Byte>>)
    ensures r.Some? ==> |r.value| == k && 3 * k <= |s|
  {
    if k == 0 then Some([])
    else match ReadOctet(s)
      case None => None
      case Some(b) =>
        match ReadOctets(s[3..], k - 1)
        case None => None
        case Some(bs) => Some([b] + bs)
  }

  /** Decodes the character at the start of `s` and says how many characters
      of `s` it took: a plain character stands for itself; an escape of an
      ASCII octet for that octet; an escape of a lead octet must be followed
      by the escapes of its continuation octets and together they must be a
      valid UTF-8 sequence. Anything else is a URIError (None). */
  function DecodeUnit(s: string): (r: Option<(char, nat)>)
    requires s != []
    ensures r.Some? ==> 1 <= r.value.1 <= |s|
  {
    if s[0] != '%' then Some((s[0], 1))
    else match ReadOctet(s)
      case None => None
      case Some(b) =>
        if b < 0x80 then Some((b as char, 3))
        else
          var n := Utf8.LeadingOnes(b);
          if n == 1 || n > 4 then None
          else match ReadOctets(s[3..], n - 1)
            case None => None
            case Some(cont) =>
              match Utf8.DecodeMulti([b] + cont)
              case None => None
              case Some(c) => Some((c, 3 * n))
  }

  /** decodeURIComponent; None stands for the URIError it throws. */
  function DecodeURIComponent(s: string): (r: Option<string>)
    ensures r.Some? ==> |r.value| <= |s|
    decreases |s|
  {
    if s == [] then Some([])
    else match DecodeUnit(s)
      case None => None
      case Some((c, k)) =>
        match DecodeURIComponent(s[k..])
        case None => None
        case Some(t) => Some([c] + t)
  }

  lemma ReadEscapedOctet(b: Utf8.Byte, rest: string)
    ensures ReadOctet(EscapeOctet(b) + rest) == Some(b)
  {
    Hex.UpperRoundTrip(b / 16);
    Hex.UpperRoundTrip(b % 16);
  }

  lemma {:induction false} ReadEscapedOctets(bytes: seq<Utf8.Byte>, rest: string)
    ensures ReadOctets(EscapeOctets(bytes) + rest, |bytes|) == Some(bytes)
  {
    if bytes != [] {
      var s := EscapeOctets(bytes) + rest;
      assert s == EscapeOctet(bytes[0]) + (EscapeOctets(bytes[1..]) + rest);
      ReadEscapedOctet(bytes[0], EscapeOctets(bytes[1..]) + rest);
      assert s[3..] == EscapeOctets(bytes[1..]) + rest;
      ReadEscapedOctets(bytes[1..], rest);
      assert [bytes[0]] + bytes[1..] == bytes;
    }
  }

  /** The escapes of a multi-octet UTF-8 sequence decode to its character. */
  lemma DecodeEscapedMulti(c: char, rest: string)
    requires !Unreserved(c) && c as int >= 0x80
    ensures DecodeUnit(EscapeOctets(Utf8.EncodeChar(c)) + rest) == Some((c, 3 * |Utf8.EncodeChar(c)|))
  {
    var bytes := Utf8.EncodeChar(c);
    var s := EscapeOctets(bytes) + rest;
    Utf8.DecodeEncodeChar(c);
    assert s == EscapeOctet(bytes[0]) + (EscapeOctets(bytes[1..]) + rest);
    ReadEscapedOctet(bytes[0], EscapeOctets(bytes[1..]) + rest);
    assert s[3..] == EscapeOctets(bytes[1..]) + rest;
    ReadEscapedOctets(bytes[1..], rest);
    assert [bytes[0]] + bytes[1..] == bytes;
  }

  /** decodeURIComponent reads back, at the start of any string, the
      characters that encodeURIComponent wrote for one character. */
  lemma DecodeEncodedChar(c: char, rest: string)
    ensures DecodeUnit(EncodeChar(c) + rest) == Some((c, |EncodeChar(c)|))
  {
    if !Unreserved(c) {
      var bytes := Utf8.EncodeChar(c);
      Utf8.DecodeEncodeChar(c);
      if |bytes| == 1 {
        ReadEscapedOctet(bytes[0], rest);
        assert EncodeChar(c) + rest == EscapeOctet(bytes[0]) + rest;
      } else {
        DecodeEscapedMulti(c, rest);
      }
    }
  }

  /** Round trip: decodeURIComponent(encodeURIComponent(s)) == s for every
      string of scalar values. */
  lemma {:induction false} DecodeEncode(s: string)
    ensures DecodeURIComponent(EncodeURIComponent(s)) == Some(s)
  {
    if s != [] {
      var e := EncodeURIComponent(s);
      var k := |EncodeChar(s[0])|;
      DecodeEncodedChar(s[0], EncodeURIComponent(s[1..]));
      assert e[k..] == EncodeURIComponent(s[1..]);
      DecodeEncode(s[1..]);
      assert DecodeURIComponent(e) == Some([s[0]] + s[1..]);
      assert [s[0]] + s[1..] == s;
    }
  }

  /** A string without '%' decodes to itself. */
  lemma {:induction false} DecodeWithoutEscapes(s: string)
    requires forall i | 0 <= i < |s| :: s[i] != '%'
    ensures DecodeURIComponent(s) == Some(s)
  {
    if s != [] {
      assert DecodeUnit(s) == Some((s[0], 1));
      DecodeWithoutEscapes(s[1..]);
      assert DecodeURIComponent(s) == Some([s[0]] + s[1..]);
      assert [s[0]] + s[1..] == s;
    }
  }
}
