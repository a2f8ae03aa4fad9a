/** The value of the "cart" cookie: a JSON array of product ids, written
    through JSON.stringify and then encodeURIComponent, and read back by
    decodeURIComponent and then JSON.parse. Reading fails soft: a cookie that
    is absent, empty, badly escaped or not JSON is read as the empty list.
    Reading does not check that what JSON.parse returns is an array. */
module CartCookie {
  import opened Wrappers
  import opened Json
  import Uri

  /** The ids the hook derives from the cookie (its `productIds`). `None`
      is an absent cookie; `Some("")` an empty one, which is falsy and so
      read as the empty list too. */
  function DecodeCookie(raw: Option<string>): (v: Value)
    ensures v != Arr([]) ==>
      raw.Some? && raw.value != [] &&
      Uri.DecodeURIComponent(raw.value).Some? &&
      Parse(Uri.DecodeURIComponent(raw.value).value) == Some(v)
  {
    if raw.None? || raw.value == [] then Arr([])
    else match Uri.DecodeURIComponent(raw.value)
      case None => Arr([])
      case Some(text) =>
        match Parse(text)
        case None => Arr([])
        case Some(v) => v
  }

  /** The cookie text the hook writes for a list. It holds only characters
      that encodeURIComponent leaves alone and '%', so no ';', ',', space or
      double quote that would end or split a cookie value. */
  function EncodeCookie(v: Value): (raw: string)
    ensures forall i | 0 <= i < |raw| :: Uri.Unreserved(raw[i]) || raw[i] == '%'
    ensures v.Arr? ==> raw != []
  {
    var text := Stringify(v);
    assert v.Arr? ==> text[0] == '[';
    Uri.EncodeURIComponent(text)
  }

  /** An absent or empty cookie is the empty list. */
  lemma NoCookie(raw: Option<string>)
    requires raw.None? || raw == Some("")
    ensures DecodeCookie(raw) == Arr([])
  {
  }

  /** Round trip: what the hook writes for a list of ids reads back as that
      list. */
  lemma {:induction false} CookieRoundTrip(ids: seq<string>)
    ensures DecodeCookie(Some(EncodeCookie(Arr(Strings(ids))))) == Arr(Strings(ids))
  {
    var v := Arr(Strings(ids));
    var raw := EncodeCookie(v);
    assert raw != [];
    Uri.DecodeEncode(Stringify(v));
    ParseStringifyStrings(ids);
  }

  /** A cookie without escapes that is not JSON text is read as the empty
      list. */
  lemma NotJson(raw: string)
    requires raw != []
    requires forall i | 0 <= i < |raw| :: raw[i] != '%'
    requires Parse(raw).None?
    ensures DecodeCookie(Some(raw)) == Arr([])
  {
    Uri.DecodeWithoutEscapes(raw);
  }

  /** A cookie whose escapes are malformed is read as the empty list. */
  lemma BadEscape(raw: string)
    requires raw != []
    requires Uri.DecodeURIComponent(raw).None?
    ensures DecodeCookie(Some(raw)) == Arr([])
  {
  }

  /** The cookie text "not-json" is read as the empty list. */
  lemma NotJsonExample()
    ensures DecodeCookie(Some("not-json")) == Arr([])
  {
    var raw := "not-json";
    assert Parse(raw).None? by {
      assert SkipWhitespace(raw) == raw;
      assert raw[..4] != "null" by {
        assert raw[..4][2] == 't';
      }
      assert ParseValue(raw).None?;
    }
    NotJson(raw);
  }

  /** A cookie whose escapes decode to JSON text is read as that text's
      value, whatever its kind. */
  lemma DecodedAndParsed(raw: string, text: string, v: Value)
    requires raw != []
    requires Uri.DecodeURIComponent(raw) == Some(text)
    requires Parse(text) == Some(v)
    ensures DecodeCookie(Some(raw)) == v
  {
  }

  /** Reading does not check for an array: a cookie without escapes that
      is JSON text of any kind (a number, a string, an object) is passed on
      as the value it parses to. */
  lemma PassedOnAsParsed(raw: string)
    requires raw != []
    requires forall i | 0 <= i < |raw| :: raw[i] != '%'
    requires Parse(raw).Some?
    ensures DecodeCookie(Some(raw)) == Parse(raw).value
  {
    Uri.DecodeWithoutEscapes(raw);
    DecodedAndParsed(raw, raw, Parse(raw).value);
  }
}
