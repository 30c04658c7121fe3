/** JSON strings (section 7 of RFC 8259): what JSON.parse accepts and JSON.stringify produces. */
module JsonString {
  import opened Text

  function HexValue(u: Unit): Option<nat> {
    if 48 <= u <= 57 then Some(u - 48)
    else if 97 <= u <= 102 then Some(u - 87)
    else if 65 <= u <= 70 then Some(u - 55)
    else None
  }

  predicate IsHex(u: Unit) { HexValue(u).Some? }

  /** The unit written by a backslash and one letter. */
  function SimpleEscape(letter: Unit): Option<Unit> {
    if letter == QUOTE || letter == BACKSLASH || letter == SLASH then Some(letter)
    else if letter == 98 then Some(8)
    else if letter == 102 then Some(12)
    else if letter == 110 then Some(10)
    else if letter == 114 then Some(13)
    else if letter == 116 then Some(9)
    else None
  }

  predicate IsHexEscape(text: Str) {
    && |text| >= 6 && text[0] == BACKSLASH && text[1] == LETTER_U
    && IsHex(text[2]) && IsHex(text[3]) && IsHex(text[4]) && IsHex(text[5])
  }

  function HexEscape(text: Str): Unit
    requires IsHexEscape(text)
  {
    var (a, b, c, d) := (HexValue(text[2]).value, HexValue(text[3]).value, HexValue(text[4]).value, HexValue(text[5]).value);
    4096 * a + 256 * b + 16 * c + d
  }

  /** The unit the text starts with and how many units of text spell it. */
  function FirstUnit(text: Str): (r: Option<(Unit, nat)>)
    requires text != []
    ensures r.Some? ==> 1 <= r.value.1 <= |text|
  {
    if text[0] == BACKSLASH then
      if |text| >= 2 && SimpleEscape(text[1]).Some? then Some((SimpleEscape(text[1]).value, 2))
      else if IsHexEscape(text) then Some((HexEscape(text), 6))
      else None
    else if text[0] == QUOTE || text[0] < 32 then None
    else Some((text[0], 1))
  }

  /** The value of the characters between the quotes of a string literal; None when JSON.parse throws. */
  function Decode(text: Str): (r: Option<Str>)
  {
    if text == [] then Some([])
    else match FirstUnit(text)
      case None => None
      case Some((u, n)) =>
        match Decode(text[n..])
        case None => None
        case Some(rest) => Some([u] + rest)
  }

  /** JSON.parse of a token that starts with a quote. */
  function ParseString(token: Str): Option<Str> {
    if |token| >= 2 && token[0] == QUOTE && token[|token| - 1] == QUOTE then Decode(token[1..|token| - 1]) else None
  }

  /** What may stand between quotes: no bare quote, and no backslash at the end. */
  predicate IsQuoted(content: Str) {
    content == [] ||
    if content[0] == BACKSLASH then |content| >= 2 && IsQuoted(content[2..])
    else content[0] != QUOTE && IsQuoted(content[1..])
  }

  lemma {:induction false} DecodeIsQuoted(text: Str)
    requires Decode(text).Some?
    ensures IsQuoted(text)
    decreases |text|
  {
    if text != [] {
      var n := FirstUnit(text).value.1;
      DecodeIsQuoted(text[n..]);
      if n == 6 {
        assert text[2..][1..] == text[3..] && text[3..][1..] == text[4..] && text[4..][1..] == text[5..] && text[5..][1..] == text[6..];
        assert IsQuoted(text[5..]) && IsQuoted(text[4..]) && IsQuoted(text[3..]);
      }
    }
  }
}
