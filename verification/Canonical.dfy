/** `canonicalJson`: one text for every JSON value, whatever order its keys were written in. */
module Canonical {
  import opened Folding
  import opened Text
  import opened JsonReader
  import opened JsonString
  import opened Order

  const NULL: Str := [110, 117, 108, 108]
  const TRUE: Str := [116, 114, 117, 101]
  const FALSE: Str := [102, 97, 108, 115, 101]
  const MINUS: Unit := 45

  function HexDigit(n: nat): Unit
    requires n < 16
  {
    if n < 10 then 48 + n else 87 + n
  }

  /** JSON.stringify of one character of a string. */
  function EscapeChar(ch: Str): Str
    requires IsChar(ch)
  {
    var u := ch[0];
    if |ch| == 2 then ch
    else if u == QUOTE || u == BACKSLASH then [BACKSLASH, u]
    else if u == 8 then [BACKSLASH, 98]
    else if u == 9 then [BACKSLASH, 116]
    else if u == 10 then [BACKSLASH, 110]
    else if u == 12 then [BACKSLASH, 102]
    else if u == 13 then [BACKSLASH, 114]
    else if u < 32 || IsHigh(u) || IsLow(u) then
      [BACKSLASH, LETTER_U, HexDigit(u / 4096), HexDigit(u / 256 % 16), HexDigit(u / 16 % 16), HexDigit(u % 16)]
    else ch
  }

  function Escape(s: Str): Str
    decreases |s|
  {
    if s == [] then [] else EscapeChar(FirstChar(s)) + Escape(s[|FirstChar(s)|..])
  }

  function Quote(s: Str): Str { [QUOTE] + Escape(s) + [QUOTE] }

  function Digits(n: nat): Str {
    if n < 10 then [48 + n] else Digits(n / 10) + [48 + n % 10]
  }

  function IntText(n: int): Str {
    if n < 0 then [MINUS] + Digits(-n) else Digits(n)
  }

  function FieldKeys(fields: seq<Field>): seq<Str> { seq(|fields|, i requires 0 <= i < |fields| => fields[i].key) }

  /** `record[key]`. */
  function Lookup(fields: seq<Field>, key: Str): (value: Json)
    requires key in FieldKeys(fields)
    ensures exists f <- fields :: f.key == key && f.value == value
  {
    assert fields != [] ==> FieldKeys(fields) == [fields[0].key] + FieldKeys(fields[1..]);
    if fields[0].key == key then fields[0].value else Lookup(fields[1..], key)
  }

  function Canon(j: Json): Str
    decreases j, 1, 0
  {
    match j
    case Null => NULL
    case Bool(b) => if b then TRUE else FALSE
    case Int(n) => IntText(n)
    case String(s) => Quote(s)
    case Array(items) => [LBRACKET] + CanonItems(items) + [RBRACKET]
    case Object(fields) =>
      SortMembers(FieldKeys(fields));
      [LBRACE] + CanonFields(j, Sort(FieldKeys(fields))) + [RBRACE]
  }

  function CanonItems(items: seq<Json>): Str
    decreases items, 0, 0
  {
    if items == [] then []
    else if |items| == 1 then Canon(items[0])
    else Canon(items[0]) + [COMMA] + CanonItems(items[1..])
  }

  function CanonField(j: Json, key: Str): Str
    requires j.Object? && key in FieldKeys(j.fields)
    decreases j, 0, 0
  {
    Quote(key) + [COLON] + Canon(Lookup(j.fields, key))
  }

  function CanonFields(j: Json, keys: seq<Str>): Str
    requires j.Object? && forall k <- keys :: k in FieldKeys(j.fields)
    decreases j, 0, |keys| + 1
  {
    if keys == [] then []
    else if |keys| == 1 then CanonField(j, keys[0])
    else CanonField(j, keys[0]) + [COMMA] + CanonFields(j, keys[1..])
  }

  /** Objects never repeat a key. */
  predicate Proper(j: Json) {
    match j
    case Array(items) => forall i <- items :: Proper(i)
    case Object(fields) => Distinct(FieldKeys(fields)) && forall f <- fields :: Proper(f.value)
    case _ => true
  }

  /** The same value, up to the order of keys at every depth. */
  predicate Same(a: Json, b: Json) {
    match (a, b)
    case (Array(x), Array(y)) => |x| == |y| && forall i :: 0 <= i < |x| ==> Same(x[i], y[i])
    case (Object(f), Object(g)) =>
      && Keys(FieldKeys(f)) == Keys(FieldKeys(g))
      && forall i, j :: 0 <= i < |f| && 0 <= j < |g| && f[i].key == g[j].key ==> Same(f[i].value, g[j].value)
    case _ => a == b
  }

  // ---- Strings ----

  lemma HexDigitValue(n: nat)
    requires n < 16
    ensures HexValue(HexDigit(n)) == Some(n)
  {
  }

  lemma HexUnit(u: Unit, text: Str)
    requires |text| >= 6 && text[0] == BACKSLASH && text[1] == LETTER_U
    requires text[2] == HexDigit(u / 4096) && text[3] == HexDigit(u / 256 % 16)
    requires text[4] == HexDigit(u / 16 % 16) && text[5] == HexDigit(u % 16)
    ensures FirstUnit(text) == Some((u, 6))
  {
    HexDigitValue(u / 4096);
    HexDigitValue(u / 256 % 16);
    HexDigitValue(u / 16 % 16);
    HexDigitValue(u % 16);
    assert SimpleEscape(LETTER_U).None?;
    HexSum(u);
  }

  lemma HexSum(u: nat)
    ensures u == 4096 * (u / 4096) + 256 * (u / 256 % 16) + 16 * (u / 16 % 16) + u % 16
  {
    assert u / 16 / 16 == u / 256 && u / 256 / 16 == u / 4096;
  }

  /** An escaped unit reads back as itself. */
  lemma EscapeUnit(u: Unit, rest: Str)
    ensures FirstUnit(EscapeChar([u]) + rest) == Some((u, |EscapeChar([u])|))
  {
    var e := EscapeChar([u]);
    var text := e + rest;
    assert forall i :: 0 <= i < |e| ==> text[i] == e[i];
    if |e| == 6 { HexUnit(u, text); }
  }

  /** Folded. */
  ghost predicate Spells(text: Str, s: Str) { forall n: nat :: Unfolding(n) ==> Decode(text) == Some(s) }

  lemma SpellsFirst(text: Str, u: Unit, n: nat, rest: Str, s: Str)
    requires text != [] && n <= |text| && FirstUnit(text) == Some((u, n)) && text[n..] == rest && Spells(rest, s)
    ensures Spells(text, [u] + s)
  {
    assert Unfolding(0);
    assert Decode(text) == Some([u] + s);
  }

  lemma OneSpells(u: Unit, rest: Str, s: Str)
    requires Spells(rest, s)
    ensures Spells(EscapeChar([u]) + rest, [u] + s)
  {
    var e := EscapeChar([u]);
    EscapeUnit(u, rest);
    SpellsFirst(e + rest, u, |e|, rest, s);
  }

  /** A unit that JSON leaves as it is. */
  lemma PlainSpells(u: Unit, rest: Str, s: Str)
    requires Spells(rest, s) && u >= 128
    ensures Spells([u] + rest, [u] + s)
  {
    SpellsFirst([u] + rest, u, 1, rest, s);
  }

  lemma CharSpells(ch: Str, rest: Str, s: Str)
    requires IsChar(ch) && Spells(rest, s)
    ensures Spells(EscapeChar(ch) + rest, ch + s)
  {
    if |ch| == 1 {
      OneSpells(ch[0], rest, s);
      assert ch == [ch[0]];
    } else {
      PlainSpells(ch[1], rest, s);
      PlainSpells(ch[0], [ch[1]] + rest, [ch[1]] + s);
      assert [ch[0]] + ([ch[1]] + rest) == ch + rest && [ch[0]] + ([ch[1]] + s) == ch + s;
    }
  }

  lemma {:induction false} EscapeSpells(s: Str)
    ensures Spells(Escape(s), s)
    decreases |s|
  {
    if s != [] {
      var ch := FirstChar(s);
      EscapeSpells(s[|ch|..]);
      CharSpells(ch, Escape(s[|ch|..]), s[|ch|..]);
      assert s == ch + s[|ch|..];
    }
  }

  /** JSON.parse undoes JSON.stringify on strings, lone surrogates included. */
  lemma {:induction false} StringRoundTrip(s: Str)
    ensures Decode(Escape(s)) == Some(s)
  {
    EscapeSpells(s);
    assert Unfolding(0);
  }

  /**
   * How JSON.stringify writes a lone code unit: seven have an escape of their own, other control characters and lone
   * surrogates a hexadecimal one, and everything else stands for itself.
   */
  lemma EscapeSpelled(u: Unit)
    ensures Escape([u]) ==
            if u == '"' as int then Spell("\\\"")
            else if u == '\\' as int then Spell("\\\\")
            else if u == 0x8 then Spell("\\b")
            else if u == 0x9 then Spell("\\t")
            else if u == 0xA then Spell("\\n")
            else if u == 0xC then Spell("\\f")
            else if u == 0xD then Spell("\\r")
            else if u <= 0x1F || 0xD800 <= u <= 0xDFFF then Spell("\\u") + Hexadecimal(u)
            else [u]
  {
    assert FirstChar([u]) == [u] && [u][1..] == [];
    assert Escape([u]) == EscapeChar([u]) + [] == EscapeChar([u]);
    if |EscapeChar([u])| == 2 { ShortEscape(u); }
    if |EscapeChar([u])| == 6 { LongEscape(u); }
  }

  lemma ShortEscape(u: Unit)
    requires |EscapeChar([u])| == 2
    ensures forall c <- ['"', '\\', 'b', 't', 'n', 'f', 'r'] :: EscapeChar([u])[1] == c as int ==> EscapeChar([u]) == Spell(['\\', c])
  {
  }

  lemma HexDigitSpelled(n: nat)
    requires n < 16
    ensures HexDigit(n) == Spell("0123456789abcdef")[n]
  {
  }

  lemma LongEscape(u: Unit)
    requires |EscapeChar([u])| == 6
    ensures EscapeChar([u]) == Spell("\\u") + Hexadecimal(u)
  {
    HexDigitSpelled(u / 0x1000);
    HexDigitSpelled(u / 0x100 % 0x10);
    HexDigitSpelled(u / 0x10 % 0x10);
    HexDigitSpelled(u % 0x10);
    var escape := EscapeChar([u]);
    assert Spell("\\u") == escape[..2] && Hexadecimal(u) == escape[2..];
  }

  /** Four lower-case digits. */
  function Hexadecimal(u: Unit): Str {
    var digit := Spell("0123456789abcdef");
    [digit[u / 0x1000], digit[u / 0x100 % 0x10], digit[u / 0x10 % 0x10], digit[u % 0x10]]
  }

  // ---- Fields ----

  /** With distinct keys, reading a key back finds the field it was written in. */
  lemma {:induction false} LookupAt(fields: seq<Field>, i: nat)
    requires i < |fields| && Distinct(FieldKeys(fields))
    ensures fields[i].key in FieldKeys(fields) && Lookup(fields, fields[i].key) == fields[i].value
    decreases |fields|
  {
    assert FieldKeys(fields)[i] == fields[i].key && FieldKeys(fields)[0] == fields[0].key;
    if i > 0 {
      assert FieldKeys(fields)[1..] == FieldKeys(fields[1..]);
      LookupAt(fields[1..], i - 1);
    }
  }

  // ---- The text forgets the order of keys ----

  lemma SortedSame(a: Json, b: Json)
    requires a.Object? && Proper(a) && b.Object? && Proper(b) && Same(a, b)
    ensures Sort(FieldKeys(a.fields)) == Sort(FieldKeys(b.fields))
  {
    SortForgets(FieldKeys(a.fields), FieldKeys(b.fields));
  }

  lemma LookupSame(a: Json, b: Json, key: Str)
    requires a.Object? && Proper(a) && b.Object? && Proper(b) && Same(a, b) && key in FieldKeys(a.fields)
    ensures key in FieldKeys(b.fields) && Same(Lookup(a.fields, key), Lookup(b.fields, key))
    ensures Proper(Lookup(a.fields, key)) && Proper(Lookup(b.fields, key))
  {
    var f, g := a.fields, b.fields;
    assert key in Keys(FieldKeys(f));
    assert key in Keys(FieldKeys(g));
    var i :| 0 <= i < |f| && FieldKeys(f)[i] == key;
    var j :| 0 <= j < |g| && FieldKeys(g)[j] == key;
    LookupAt(f, i);
    LookupAt(g, j);
  }

  lemma {:induction false} SameText(a: Json, b: Json)
    requires Proper(a) && Proper(b) && Same(a, b)
    ensures Canon(a) == Canon(b)
    decreases a, 1, 0
  {
    match (a, b) {
      case (Array(s), Array(t)) => SameItems(s, t);
      case (Object(f), Object(g)) =>
        SortMembers(FieldKeys(f));
        SortedSame(a, b);
        SortMembers(FieldKeys(g));
        SameFieldsText(a, b, Sort(FieldKeys(f)));
      case _ =>
    }
  }

  lemma {:induction false} SameItems(s: seq<Json>, t: seq<Json>)
    requires |s| == |t| && (forall i <- s :: Proper(i)) && (forall i <- t :: Proper(i))
    requires forall i :: 0 <= i < |s| ==> Same(s[i], t[i])
    ensures CanonItems(s) == CanonItems(t)
    decreases s, 0, 0
  {
    if s != [] {
      SameText(s[0], t[0]);
      SameItems(s[1..], t[1..]);
    }
  }

  lemma {:induction false} SameFieldsText(a: Json, b: Json, keys: seq<Str>)
    requires a.Object? && Proper(a) && b.Object? && Proper(b) && Same(a, b)
    requires (forall k <- keys :: k in FieldKeys(a.fields)) && (forall k <- keys :: k in FieldKeys(b.fields))
    ensures CanonFields(a, keys) == CanonFields(b, keys)
    decreases a, 0, |keys|
  {
    if keys != [] {
      LookupSame(a, b, keys[0]);
      SameText(Lookup(a.fields, keys[0]), Lookup(b.fields, keys[0]));
      SameFieldsText(a, b, keys[1..]);
    }
  }

  /** Writing the fields of an object in another order changes nothing. */
  lemma ReorderedFields(f: seq<Field>, g: seq<Field>)
    requires Proper(Object(f)) && multiset(f) == multiset(g)
    ensures Proper(Object(g)) && Canon(Object(f)) == Canon(Object(g))
  {
    var key := (v: Field) => v.key;
    assert FieldKeys(f) == Column(f, key) && FieldKeys(g) == Column(g, key);
    Permuted(f, g, key);
    forall v <- g
      ensures Proper(v.value)
    {
      assert v in multiset(g);
      assert v in f;
    }
    forall i, j | 0 <= i < |f| && 0 <= j < |g| && f[i].key == g[j].key
      ensures Same(f[i].value, g[j].value)
    {
      assert g[j] in multiset(g);
      assert g[j] in f;
      var k :| 0 <= k < |f| && f[k] == g[j];
      LookupAt(f, i);
      LookupAt(f, k);
      SameReflexive(f[i].value);
    }
    SameText(Object(f), Object(g));
  }

  lemma {:induction false} SameReflexive(a: Json)
    requires Proper(a)
    ensures Same(a, a)
  {
    match a {
      case Array(items) =>
        forall i | 0 <= i < |items| ensures Same(items[i], items[i]) { SameReflexive(items[i]); }
      case Object(f) =>
        forall i, j | 0 <= i < |f| && 0 <= j < |f| && f[i].key == f[j].key
          ensures Same(f[i].value, f[j].value)
        {
          LookupAt(f, i);
          LookupAt(f, j);
          SameReflexive(f[i].value);
        }
      case _ =>
    }
  }
}
