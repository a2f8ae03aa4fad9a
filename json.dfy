/** JSON text (RFC 8259) as JSON.parse reads it and JSON.stringify writes it.
    Numbers are kept as the text of their literal. */
module Json {
  import opened Wrappers
  import Hex

  datatype Value =
    | Null
    | Bool(b: bool)
    | Num(lexeme: string)
    | Str(s: string)
    | Arr(items: seq<Value>)
    | Obj(members: seq<Member>)

  datatype Member = Member(key: string, value: Value)

  // ---------------------------------------------------------------- writing

  /** How JSON.stringify writes one character inside a string literal: '"'
      and '\' get a backslash, the control characters U+0000 to U+001F a
      short or \u00xx escape, everything else is written as it is. */
  function EscapeChar(c: char): string {
    if c == '"' then "\\\""
    else if c == '\\' then "\\\\"
    else if c == 8 as char then "\\b"
    else if c == 9 as char then "\\t"
    else if c == 10 as char then "\\n"
    else if c == 12 as char then "\\f"
    else if c == 13 as char then "\\r"
    else if (c as int) < 0x20 then ['\\', 'u', '0', '0', Hex.LowerDigit(c as int / 16), Hex.LowerDigit(c as int % 16)]
    else [c]
  }

  function EscapeString(s: string): string {
    if s == [] then [] else EscapeChar(s[0]) + EscapeString(s[1..])
  }

  function Quote(s: string): string {
    "\"" + EscapeString(s) + "\""
  }

  /** The parts separated by commas. */
  function Join(parts: seq<string>): string {
    if |parts| == 0 then ""
    else if |parts| == 1 then parts[0]
    else parts[0] + "," + Join(parts[1..])
  }

  /** JSON.stringify, without indentation. */
  function Stringify(v: Value): string {
    match v
    case Null => "null"
    case Bool(b) => if b then "true" else "false"
    case Num(lexeme) => lexeme
    case Str(s) => Quote(s)
    case Arr(items) =>
      "[" + Join(seq(|items|, i requires 0 <= i < |items| => Stringify(items[i]))) + "]"
    case Obj(members) =>
      "{" + Join(seq(|members|, i requires 0 <= i < |members| =>
                       assert members[i] in members;
                       Quote(members[i].key) + ":" + Stringify(members[i].value))) + "}"
  }

  // ---------------------------------------------------------------- reading

  predicate IsWhitespace(c: char) {
    c == ' ' || c == '\t' || c == '\n' || c == '\r'
  }

  predicate IsDigit(c: char) {
    '0' <= c <= '9'
  }

  function SkipWhitespace(s: string): (r: string)
    ensures |r| <= |s| && r == s[|s| - |r|..]
    ensures r != [] ==> !IsWhitespace(r[0])
  {
    if s != [] && IsWhitespace(s[0]) then SkipWhitespace(s[1..]) else s
  }

  /** The number of decimal digits at the start of `s`. */
  function DigitRun(s: string): (n: nat)
    ensures n <= |s|
    ensures forall i | 0 <= i < n :: IsDigit(s[i])
    ensures n < |s| ==> !IsDigit(s[n])
  {
    if s != [] && IsDigit(s[0]) then 1 + DigitRun(s[1..]) else 0
  }

  /** Reads four hexadecimal digits. */
  function ReadHex4(s: string): (r: Option<nat>)
    ensures r.Some? ==> |s| >= 4 && r.value < 0x10000
  {
    if |s| < 4 then None
    else match (Hex.Value(s[0]), Hex.Value(s[1]), Hex.Value(s[2]), Hex.Value(s[3]))
      case (Some(a), Some(b), Some(c), Some(d)) => Some(((a * 16 + b) * 16 + c) * 16 + d)
      case _ => None
  }

  predicate IsHighSurrogate(u: int) { 0xD800 <= u < 0xDC00 }
  predicate IsLowSurrogate(u: int) { 0xDC00 <= u < 0xE000 }

  /** Reads the escape after a backslash and says how many characters it took.
      A \u escape of a high surrogate must be followed by a \u escape of a low
      surrogate, and the pair is one character. */
  function ParseEscape(s: string): (r: Option<(char, nat)>)
    ensures r.Some? ==> 1 <= r.value.1 <= |s|
  {
    if s == [] then None
    else if s[0] == '"' then Some(('"', 1))
    else if s[0] == '\\' then Some(('\\', 1))
    else if s[0] == '/' then Some(('/', 1))
    else if s[0] == 'b' then Some((8 as char, 1))
    else if s[0] == 'f' then Some((12 as char, 1))
    else if s[0] == 'n' then Some((10 as char, 1))
    else if s[0] == 'r' then Some((13 as char, 1))
    else if s[0] == 't' then Some((9 as char, 1))
    else if s[0] != 'u' then None
    else match ReadHex4(s[1..])
      case None => None
      case Some(u) =>
        if IsLowSurrogate(u) then None
        else if !IsHighSurrogate(u) then Some((u as char, 5))
        else if |s| < 7 || s[5] != '\\' || s[6] != 'u' then None
        else match ReadHex4(s[7..])
          case None => None
          case Some(w) =>
            if IsLowSurrogate(w) then Some(((0x10000 + (u - 0xD800) * 0x400 + (w - 0xDC00)) as char, 11))
            else None
  }

  /** Reads the rest of a string literal after its opening quote; yields the
      string and what follows the closing quote. */
  function ParseString(s: string): (r: Option<(string, string)>)
    ensures r.Some? ==> |r.value.1| < |s|
    decreases |s|
  {
    if s == [] then None
    else if s[0] == '"' then Some(([], s[1..]))
    else if s[0] == '\\' then
      match ParseEscape(s[1..])
      case None => None
      case Some((c, k)) =>
        match ParseString(s[1 + k..])
        case None => None
        case Some((t, rest)) => Some(([c] + t, rest))
    else if (s[0] as int) < 0x20 then None
    else
      match ParseString(s[1..])
      case None => None
      case Some((t, rest)) => Some(([s[0]] + t, rest))
  }

  /** Reads a number literal: an optional minus, an integer part without
      leading zeros, an optional fraction and an optional exponent. */
  function ParseNumber(s: string): (r: Option<(string, string)>)
    ensures r.Some? ==> |r.value.1| < |s|
  {
    var a := if s != [] && s[0] == '-' then 1 else 0;
    if a >= |s| || !IsDigit(s[a]) then None
    else
      var b := if s[a] == '0' then a + 1 else a + DigitRun(s[a..]);
      var fraction := b < |s| && s[b] == '.';
      var f := if fraction then DigitRun(s[b + 1..]) else 0;
      if fraction && f == 0 then None
      else
        var c := if fraction then b + 1 + f else b;
        var exponent := c < |s| && (s[c] == 'e' || s[c] == 'E');
        var c1 := if exponent && c + 1 < |s| && (s[c + 1] == '+' || s[c + 1] == '-') then c + 2 else c + 1;
        var g := if exponent then DigitRun(s[c1..]) else 0;
        if exponent && g == 0 then None
        else
          var e := if exponent then c1 + g else c;
          Some((s[..e], s[e..]))
  }

  function ParseLiteral(s: string, word: string, v: Value): (r: Option<(Value, string)>)
    requires |word| > 0
    ensures r.Some? ==> |r.value.1| < |s|
  {
    if |s| >= |word| && s[..|word|] == word then Some((v, s[|word|..])) else None
  }

  /** Reads one value after optional whitespace; yields it and what follows. */
  function ParseValue(s: string): (r: Option<(Value, string)>)
    ensures r.Some? ==> |r.value.1| < |s|
    decreases |s|, 0
  {
    var t := SkipWhitespace(s);
    if t == [] then None
    else if t[0] == '[' then ParseArray(t[1..])
    else if t[0] == '{' then ParseObject(t[1..])
    else if t[0] == '"' then
      match ParseString(t[1..])
      case None => None
      case Some((str, rest)) => Some((Str(str), rest))
    else if t[0] == 't' then ParseLiteral(t, "true", Bool(true))
    else if t[0] == 'f' then ParseLiteral(t, "false", Bool(false))
    else if t[0] == 'n' then ParseLiteral(t, "null", Null)
    else
      match ParseNumber(t)
      case None => None
      case Some((lexeme, rest)) => Some((Num(lexeme), rest))
  }

  /** Reads the rest of an array after '['. */
  function ParseArray(s: string): (r: Option<(Value, string)>)
    ensures r.Some? ==> |r.value.1| < |s|
    decreases |s|, 2
  {
    var t := SkipWhitespace(s);
    if t != [] && t[0] == ']' then Some((Arr([]), t[1..]))
    else
      match ParseElements(s)
      case None => None
      case Some((items, rest)) => Some((Arr(items), rest))
  }

  /** Reads one or more comma-separated values and the closing ']'. */
  function ParseElements(s: string): (r: Option<(seq<Value>, string)>)
    ensures r.Some? ==> |r.value.1| < |s|
    decreases |s|, 1
  {
    match ParseValue(s)
    case None => None
    case Some((v, rest)) =>
      var t := SkipWhitespace(rest);
      if t != [] && t[0] == ']' then Some(([v], t[1..]))
      else if t != [] && t[0] == ',' then
        match ParseElements(t[1..])
        case None => None
        case Some((vs, rest')) => Some(([v] + vs, rest'))
      else None
  }

  /** Reads the rest of an object after '{'. */
  function ParseObject(s: string): (r: Option<(Value, string)>)
    ensures r.Some? ==> |r.value.1| < |s|
    decreases |s|, 2
  {
    var t := SkipWhitespace(s);
    if t != [] && t[0] == '}' then Some((Obj([]), t[1..]))
    else
      match ParseMembers(s)
      case None => None
      case Some((members, rest)) => Some((Obj(members), rest))
  }

  /** Reads one or more comma-separated "key": value pairs and the closing
      '}'. */
  function ParseMembers(s: string): (r: Option<(seq<Member>, string)>)
    ensures r.Some? ==> |r.value.1| < |s|
    decreases |s|, 1
  {
    var t := SkipWhitespace(s);
    if t == [] || t[0] != '"' then None
    else match ParseString(t[1..])
      case None => None
      case Some((key, rest)) =>
        var u := SkipWhitespace(rest);
        if u == [] || u[0] != ':' then None
        else match ParseValue(u[1..])
          case None => None
          case Some((v, rest')) =>
            var w := SkipWhitespace(rest');
            if w != [] && w[0] == '}' then Some(([Member(key, v)], w[1..]))
            else if w != [] && w[0] == ',' then
              match ParseMembers(w[1..])
              case None => None
              case Some((ms, rest'')) => Some(([Member(key, v)] + ms, rest''))
            else None
  }

  /** JSON.parse; None stands for the SyntaxError it throws. */
  function Parse(text: string): Option<Value> {
    match ParseValue(text)
    case None => None
    case Some((v, rest)) => if SkipWhitespace(rest) == [] then Some(v) else None
  }

  // ------------------------------------------------- reading back what is written

  /** The array elements of a list of strings. */
  function Strings(ids: seq<string>): (items: seq<Value>)
    ensures |items| == |ids|
  {
    seq(|ids|, i requires 0 <= i < |ids| => Str(ids[i]))
  }

  /** The list of strings an array holds, if every element is a string. */
  function AsStrings(items: seq<Value>): (r: Option<seq<string>>)
    ensures r.Some? <==> forall i | 0 <= i < |items| :: items[i].Str?
    ensures r.Some? ==> Strings(r.value) == items
  {
    if forall i | 0 <= i < |items| :: items[i].Str? then
      Some(seq(|items|, i requires 0 <= i < |items| => items[i].s))
    else None
  }

  lemma AsStringsOfStrings(ids: seq<string>)
    ensures AsStrings(Strings(ids)) == Some(ids)
  {
    var items := Strings(ids);
    assert seq(|items|, i requires 0 <= i < |items| => items[i].s) == ids;
  }

  /** The characters JSON.stringify writes for one character are read back as
      that character, whatever follows them. */
  lemma ParseEscapedChar(c: char, more: string)
    ensures ParseString(EscapeChar(c) + more) ==
      match ParseString(more)
      case None => None
      case Some((t, rest)) => Some(([c] + t, rest))
  {
    var s := EscapeChar(c) + more;
    if c == '"' || c == '\\' || c == 8 as char || c == 9 as char || c == 10 as char || c == 12 as char || c == 13 as char {
      assert s[1..] == [s[1]] + more && s[2..] == more;
    } else if (c as int) < 0x20 {
      var hi, lo := c as int / 16, c as int % 16;
      Hex.LowerRoundTrip(hi);
      Hex.LowerRoundTrip(lo);
      assert s[1..] == ['u', '0', '0', Hex.LowerDigit(hi), Hex.LowerDigit(lo)] + more;
      assert ReadHex4(s[2..]) == Some(c as int);
      assert s[6..] == more;
    } else {
      assert s[1..] == more;
    }
  }

  lemma {:induction false} ParseEscapedString(s: string, tail: string)
    ensures ParseString(EscapeString(s) + "\"" + tail) == Some((s, tail))
  {
    if s == [] {
      assert EscapeString(s) + "\"" + tail == ['"'] + tail;
    } else {
      var more := EscapeString(s[1..]) + "\"" + tail;
      assert EscapeString(s) + "\"" + tail == EscapeChar(s[0]) + more;
      ParseEscapedString(s[1..], tail);
      ParseEscapedChar(s[0], more);
      assert [s[0]] + s[1..] == s;
    }
  }

  /** A quoted string is read back as that string. */
  lemma ParseQuoted(s: string, tail: string)
    ensures ParseValue(Quote(s) + tail) == Some((Str(s), tail))
  {
    var text := Quote(s) + tail;
    assert SkipWhitespace(text) == text;
    assert text[1..] == EscapeString(s) + "\"" + tail;
    ParseEscapedString(s, tail);
  }

  function QuotedParts(ids: seq<string>): seq<string> {
    seq(|ids|, i requires 0 <= i < |ids| => Quote(ids[i]))
  }

  /** After a value, a ']' ends the elements of an array. */
  lemma ParseLastElement(s: string, v: Value, tail: string)
    requires ParseValue(s) == Some((v, "]" + tail))
    ensures ParseElements(s) == Some(([v], tail))
  {
    assert SkipWhitespace("]" + tail) == "]" + tail;
    assert ("]" + tail)[1..] == tail;
  }

  /** After a value, a ',' announces another element. */
  lemma ParseNextElement(s: string, v: Value, more: string)
    requires ParseValue(s) == Some((v, "," + more))
    ensures ParseElements(s) ==
      match ParseElements(more)
      case None => None
      case Some((vs, rest)) => Some(([v] + vs, rest))
  {
    assert SkipWhitespace("," + more) == "," + more;
    assert ("," + more)[1..] == more;
  }

  lemma JoinQuotedParts(ids: seq<string>, tail: string)
    requires |ids| >= 2
    ensures Join(QuotedParts(ids)) + "]" + tail == Quote(ids[0]) + ("," + (Join(QuotedParts(ids[1..])) + "]" + tail))
  {
    var parts := QuotedParts(ids);
    assert parts[1..] == QuotedParts(ids[1..]);
  }

  lemma {:induction false} ParseQuotedElements(ids: seq<string>, tail: string)
    requires |ids| >= 1
    ensures ParseElements(Join(QuotedParts(ids)) + "]" + tail) == Some((Strings(ids), tail))
  {
    if |ids| == 1 {
      assert Join(QuotedParts(ids)) + "]" + tail == Quote(ids[0]) + ("]" + tail);
      ParseQuoted(ids[0], "]" + tail);
      ParseLastElement(Quote(ids[0]) + ("]" + tail), Str(ids[0]), tail);
      assert Strings(ids) == [Str(ids[0])];
    } else {
      var more := Join(QuotedParts(ids[1..])) + "]" + tail;
      JoinQuotedParts(ids, tail);
      assert ParseElements(Quote(ids[0]) + ("," + more)) == Some(([Str(ids[0])] + Strings(ids[1..]), tail)) by {
        ParseQuotedElements(ids[1..], tail);
        ParseQuoted(ids[0], "," + more);
        ParseNextElement(Quote(ids[0]) + ("," + more), Str(ids[0]), more);
      }
      assert Strings(ids) == [Str(ids[0])] + Strings(ids[1..]);
    }
  }

  lemma StringifyStrings(ids: seq<string>)
    ensures Stringify(Arr(Strings(ids))) == "[" + Join(QuotedParts(ids)) + "]"
  {
    var items := Strings(ids);
    assert seq(|items|, i requires 0 <= i < |items| => Stringify(items[i])) == QuotedParts(ids);
  }

  lemma ParseOpenBracket(text: string)
    requires text != [] && text[0] == '['
    ensures ParseValue(text) == ParseArray(text[1..])
  {
    assert SkipWhitespace(text) == text;
  }

  lemma ParseEmptyArray(s: string)
    requires SkipWhitespace(s) != [] && SkipWhitespace(s)[0] == ']'
    ensures ParseArray(s) == Some((Arr([]), SkipWhitespace(s)[1..]))
  {
  }

  lemma ParseNonEmptyArray(s: string, items: seq<Value>, rest: string)
    requires SkipWhitespace(s) != [] && SkipWhitespace(s)[0] != ']'
    requires ParseElements(s) == Some((items, rest))
    ensures ParseArray(s) == Some((Arr(items), rest))
  {
  }

  lemma ParseQuotedArray(ids: seq<string>)
    ensures ParseArray(Join(QuotedParts(ids)) + "]") == Some((Arr(Strings(ids)), []))
  {
    if ids == [] {
      ParseQuotedArrayEmpty(ids);
    } else {
      ParseQuotedArrayNonEmpty(ids);
    }
  }

  lemma ParseQuotedArrayEmpty(ids: seq<string>)
    requires ids == []
    ensures ParseArray(Join(QuotedParts(ids)) + "]") == Some((Arr(Strings(ids)), []))
  {
    var s := Join(QuotedParts(ids)) + "]";
    assert SkipWhitespace(s) == "]" by {
      assert s == "]";
    }
    ParseEmptyArray(s);
    assert Strings(ids) == [];
  }

  lemma ParseQuotedArrayNonEmpty(ids: seq<string>)
    requires ids != []
    ensures ParseArray(Join(QuotedParts(ids)) + "]") == Some((Arr(Strings(ids)), []))
  {
    var s := Join(QuotedParts(ids)) + "]";
    assert SkipWhitespace(s) == s && s[0] == '"' by {
      if |ids| >= 2 {
        JoinQuotedParts(ids, "");
      } else {
        assert s == Quote(ids[0]) + "]";
      }
    }
    ParseQuotedElements(ids, []);
    assert s == Join(QuotedParts(ids)) + "]" + [];
    ParseNonEmptyArray(s, Strings(ids), []);
  }

  lemma ParseWholeText(text: string, v: Value)
    requires ParseValue(text) == Some((v, []))
    ensures Parse(text) == Some(v)
  {
  }

  lemma ParseBracketed(text: string, ids: seq<string>)
    requires text == "[" + Join(QuotedParts(ids)) + "]"
    ensures ParseValue(text) == Some((Arr(Strings(ids)), []))
  {
    ParseOpenBracket(text);
    assert text[1..] == Join(QuotedParts(ids)) + "]";
    ParseQuotedArray(ids);
  }

  /** Round trip: JSON.parse(JSON.stringify(list)) gives the list back, for
      every flat array of strings. */
  lemma ParseStringifyStrings(ids: seq<string>)
    ensures Parse(Stringify(Arr(Strings(ids)))) == Some(Arr(Strings(ids)))
  {
    var text := Stringify(Arr(Strings(ids)));
    StringifyStrings(ids);
    ParseBracketed(text, ids);
    ParseWholeText(text, Arr(Strings(ids)));
  }
}
