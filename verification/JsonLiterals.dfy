/** String literals of JSON, piece by piece (section 7 of RFC 8259), and that the decoder reads exactly these. */
module JsonLiterals {
  import opened Text
  import opened JsonString

  /** One piece of a literal and the unit that it stands for. */
  datatype Piece = Piece(text: Str, unit: Unit)

  /** The letters that follow a backslash, and what they stand for. */
  function Escapes(): seq<(Unit, Unit)> {
    [(0x22, 0x22), (0x5C, 0x5C), (0x2F, 0x2F), (0x62, 0x08), (0x66, 0x0C), (0x6E, 0x0A), (0x72, 0x0D), (0x74, 0x09)]
  }

  /** A hexadecimal digit in either case. */
  predicate Digit(u: Unit, value: int) {
    0 <= value < 16 && (u as int == "0123456789abcdef"[value] as int || u as int == "0123456789ABCDEF"[value] as int)
  }

  predicate AreDigits(text: Str, unit: Unit, a: int, b: int, c: int, d: int)
    requires |text| == 4
  {
    && Digit(text[0], a) && Digit(text[1], b) && Digit(text[2], c) && Digit(text[3], d)
    && unit == a * 0x1000 + b * 0x100 + c * 0x10 + d
  }

  ghost predicate FourDigits(text: Str, unit: Unit) {
    |text| == 4 && exists a, b, c, d :: AreDigits(text, unit, a, b, c, d)
  }

  /** A unit other than quote, backslash and control characters stands for itself. */
  ghost predicate Spells(p: Piece) {
    || (p.text == [p.unit] && p.unit >= 0x20 && p.unit != 0x22 && p.unit != 0x5C)
    || (|p.text| == 2 && p.text[0] == 0x5C && (p.text[1], p.unit) in Escapes())
    || (|p.text| == 6 && p.text[0] == 0x5C && p.text[1] == 0x75 && FourDigits(p.text[2..], p.unit))
  }

  ghost predicate AllSpell(pieces: seq<Piece>) { forall p <- pieces :: Spells(p) }

  function TextOf(pieces: seq<Piece>): Str { if pieces == [] then [] else pieces[0].text + TextOf(pieces[1..]) }

  function UnitsOf(pieces: seq<Piece>): Str { if pieces == [] then [] else [pieces[0].unit] + UnitsOf(pieces[1..]) }

  lemma DigitExactly(u: Unit, value: int)
    ensures HexValue(u).Some? && HexValue(u).value == value <==> Digit(u, value)
  {
  }

  lemma DigitOf(u: Unit)
    ensures HexValue(u).Some? ==> Digit(u, HexValue(u).value)
  {
    if HexValue(u).Some? { DigitExactly(u, HexValue(u).value); }
  }

  lemma DigitsRead(text: Str, unit: Unit, a: int, b: int, c: int, d: int)
    requires |text| >= 6 && text[0] == 0x5C && text[1] == 0x75 && AreDigits(text[2..6], unit, a, b, c, d)
    ensures FirstUnit(text) == Some((unit, 6))
  {
    DigitExactly(text[2], a);
    DigitExactly(text[3], b);
    DigitExactly(text[4], c);
    DigitExactly(text[5], d);
    assert HexEscape(text) == unit;
  }

  lemma HexReads(text: Str, unit: Unit)
    requires |text| >= 6 && text[0] == 0x5C && text[1] == 0x75 && FourDigits(text[2..6], unit)
    ensures FirstUnit(text) == Some((unit, 6))
  {
    var a, b, c, d :| AreDigits(text[2..6], unit, a, b, c, d);
    DigitsRead(text, unit, a, b, c, d);
  }

  lemma PieceReads(p: Piece, rest: Str)
    requires Spells(p)
    ensures FirstUnit(p.text + rest) == Some((p.unit, |p.text|))
  {
    if |p.text| == 6 {
      assert (p.text + rest)[2..6] == p.text[2..];
      HexReads(p.text + rest, p.unit);
    } else {
      assert (p.text + rest)[0] == p.text[0];
      if |p.text| == 2 { assert (p.text + rest)[1] == p.text[1]; }
    }
  }

  lemma {:induction false} PiecesRead(pieces: seq<Piece>)
    requires AllSpell(pieces)
    ensures Decode(TextOf(pieces)) == Some(UnitsOf(pieces))
    decreases |pieces|
  {
    if pieces != [] {
      var p, rest := pieces[0], TextOf(pieces[1..]);
      assert AllSpell(pieces[1..]);
      PiecesRead(pieces[1..]);
      PieceReads(p, rest);
      assert p.text != [];
      assert (p.text + rest)[|p.text|..] == rest;
    }
  }

  lemma FirstSpells(text: Str)
    requires text != [] && FirstUnit(text).Some?
    ensures var (u, n) := FirstUnit(text).value; Spells(Piece(text[..n], u))
  {
    var (u, n) := FirstUnit(text).value;
    if n == 6 {
      var t := text[..6][2..];
      assert t[0] == text[2] && t[1] == text[3] && t[2] == text[4] && t[3] == text[5];
      DigitOf(text[2]);
      DigitOf(text[3]);
      DigitOf(text[4]);
      DigitOf(text[5]);
      assert AreDigits(t, u, HexValue(t[0]).value, HexValue(t[1]).value, HexValue(t[2]).value, HexValue(t[3]).value);
    }
  }

  lemma {:induction false} DecodedPieces(text: Str) returns (pieces: seq<Piece>)
    requires Decode(text).Some?
    ensures AllSpell(pieces) && TextOf(pieces) == text && UnitsOf(pieces) == Decode(text).value
    decreases |text|
  {
    if text == [] {
      pieces := [];
    } else {
      var (u, n) := FirstUnit(text).value;
      FirstSpells(text);
      var rest := DecodedPieces(text[n..]);
      pieces := [Piece(text[..n], u)] + rest;
      assert pieces[1..] == rest && text == text[..n] + text[n..];
    }
  }

  /** The decoder reads a text exactly if it consists of such pieces, and gives the units that they stand for. */
  lemma DecodesExactly(text: Str, value: Str)
    ensures Decode(text) == Some(value) <==>
            exists pieces :: AllSpell(pieces) && TextOf(pieces) == text && UnitsOf(pieces) == value
  {
    if Decode(text) == Some(value) { var pieces := DecodedPieces(text); }
    forall pieces | AllSpell(pieces) && TextOf(pieces) == text
      ensures Decode(text) == Some(UnitsOf(pieces))
    {
      PiecesRead(pieces);
    }
  }
}
