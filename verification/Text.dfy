/** JavaScript strings as sequences of UTF-16 code units. */
module Text {
  type Unit = n: nat | n < 0x1_0000
  type Str = seq<Unit>

  /** An ASCII character. */
  function UnitOf(c: char): (u: Unit)
    requires c as int < 128
    ensures u == c as int
  {
    c as int
  }

  /** The code units of an ASCII text. */
  function Spell(word: string): (s: Str)
    requires forall i :: 0 <= i < |word| ==> word[i] as int < 128
    ensures |s| == |word| && forall i :: 0 <= i < |word| ==> s[i] == word[i] as int
  {
    seq(|word|, i requires 0 <= i < |word| => UnitOf(word[i]))
  }

  datatype Option<+T> = None | Some(value: T)

  const QUOTE: Unit := 34
  const COMMA: Unit := 44
  const SLASH: Unit := 47
  const COLON: Unit := 58
  const LBRACKET: Unit := 91
  const BACKSLASH: Unit := 92
  const RBRACKET: Unit := 93
  const LBRACE: Unit := 123
  const RBRACE: Unit := 125
  const LETTER_U: Unit := 117

  predicate IsHigh(u: Unit) { 0xD800 <= u <= 0xDBFF }

  predicate IsLow(u: Unit) { 0xDC00 <= u <= 0xDFFF }

  /** The class `\s` of a JavaScript regular expression. */
  predicate IsSpace(u: Unit) {
    || 9 <= u <= 13 || u == 32 || u == 0xA0 || u == 0x1680 || 0x2000 <= u <= 0x200A
    || u == 0x2028 || u == 0x2029 || u == 0x202F || u == 0x205F || u == 0x3000 || u == 0xFEFF
  }

  /** One step of a `for (const ch of text)` loop takes a surrogate pair whole and anything else singly. */
  predicate IsChar(ch: Str) {
    |ch| == 1 || (|ch| == 2 && IsHigh(ch[0]) && IsLow(ch[1]))
  }

  function FirstChar(text: Str): (ch: Str)
    requires text != []
    ensures IsChar(ch) && |ch| <= |text| && ch == text[..|ch|]
  {
    if |text| >= 2 && IsHigh(text[0]) && IsLow(text[1]) then text[..2] else text[..1]
  }

  /** Every high surrogate is followed by a low one and every low one follows a high one. */
  predicate IsWellFormed(text: Str) {
    text == [] ||
    if IsHigh(text[0]) then |text| >= 2 && IsLow(text[1]) && IsWellFormed(text[2..])
    else !IsLow(text[0]) && IsWellFormed(text[1..])
  }

  /** The constants are these characters. */
  lemma MarksSpelled()
    ensures [QUOTE, COMMA, SLASH, COLON, LBRACKET, BACKSLASH, RBRACKET, LBRACE, RBRACE, LETTER_U] == Spell("\",/:[\\]{}u")
  {
  }

  /** Tab to carriage return, the spaces of Unicode, its line and paragraph separator, and the byte order mark. */
  lemma SpacesSpelled(u: Unit)
    ensures IsSpace(u) <==>
            || u in {0x9, 0xA, 0xB, 0xC, 0xD, 0x20, 0xA0, 0x1680, 0x2028, 0x2029, 0x202F, 0x205F, 0x3000, 0xFEFF}
            || 0x2000 <= u <= 0x200A
  {
  }
}
