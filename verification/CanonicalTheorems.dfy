/** What a JSON reader makes of a canonical text: the value itself, with the keys of every object in ascending order. */
module CanonicalTheorems {
  import opened Text
  import opened JsonString
  import opened JsonReader
  import opened Order
  import opened Canonical

  /** At every depth, each key of an object comes before the later ones. */
  ghost predicate Ordered(j: Json) {
    match j
    case Array(items) => forall i <- items :: Ordered(i)
    case Object(fields) =>
      && (forall i, k :: 0 <= i < k < |fields| ==> Precedes(fields[i].key, fields[k].key))
      && forall f <- fields :: Ordered(f.value)
    case _ => true
  }

  /** What was read stands for the value. */
  ghost predicate Renders(v: Json, j: Json) { Same(v, j) && Ordered(v) && Proper(v) }

  // ---- Strings ----

  lemma {:induction false} CutsQuoted(content: Str, x: Str)
    requires IsQuoted(content)
    ensures CutString(content + [QUOTE] + x) == Some((content, x))
    decreases |content|
  {
    var text := content + [QUOTE] + x;
    if content == [] {
      assert text[0] == QUOTE && text[1..] == x;
    } else {
      var n := if content[0] == BACKSLASH then 2 else 1;
      assert text[0] == content[0] && content == content[..n] + content[n..];
      assert text[n..] == content[n..] + [QUOTE] + x && text[..n] == content[..n];
      CutsQuoted(content[n..], x);
    }
  }

  lemma ReadsString(s: Str, x: Str)
    ensures (Quote(s) + x)[0] == QUOTE && ReadString(Quote(s) + x) == Some((s, x))
  {
    StringRoundTrip(s);
    DecodeIsQuoted(Escape(s));
    CutsQuoted(Escape(s), x);
    assert (Quote(s) + x)[1..] == Escape(s) + [QUOTE] + x;
  }

  // ---- Integers ----

  predicate IsDigit(u: Unit) { '0' as int <= u <= '9' as int }

  /** What comes after a value inside a larger text. */
  predicate Follow(x: Str) { x == [] || x[0] == ',' as int || x[0] == ']' as int || x[0] == '}' as int }

  lemma {:induction false} RunsOver(digits: Str, x: Str)
    requires (forall u <- digits :: IsDigit(u)) && (x == [] || !IsDigit(x[0]))
    ensures Run(digits + x) == |digits|
    decreases |digits|
  {
    if digits == [] {
      assert digits + x == x;
    } else {
      assert digits[0] in digits;
      assert (digits + x)[0] == digits[0] && (digits + x)[1..] == digits[1..] + x;
      RunsOver(digits[1..], x);
    }
  }

  lemma {:induction false} DigitsRead(n: nat)
    ensures (forall u <- Digits(n) :: IsDigit(u)) && Digits(n) != [] && Decimal(Digits(n)) == n
    ensures n > 0 ==> Digits(n)[0] != '0' as int
    ensures n < 10 ==> |Digits(n)| == 1
  {
    var d := Digits(n);
    if n < 10 {
      assert d[..0] == [];
    } else {
      DigitsRead(n / 10);
      assert d[..|d| - 1] == Digits(n / 10);
    }
  }

  /** Digits without a superfluous zero are read to their end. */
  lemma ReadsUnsigned(n: SafeInt, digits: Str, x: Str)
    requires n >= 0 && Decimal(digits) == n && digits != [] && (forall u <- digits :: IsDigit(u)) && Follow(x)
    requires digits[0] == '0' as int ==> |digits| == 1
    ensures var text := digits + x; text != [] && IsDigit(text[0]) && ReadInt(text) == Some((Int(n), x))
  {
    RunsOver(digits, x);
    assert digits[0] in digits;
    var text := digits + x;
    assert text[0] == digits[0] && text[0..] == text && text[0..|digits|] == digits && text[|digits|..] == x;
  }

  lemma ReadsSigned(n: SafeInt, digits: Str, x: Str)
    requires n < 0 && Decimal(digits) == -n && digits != [] && (forall u <- digits :: IsDigit(u)) && Follow(x)
    requires digits[0] != '0' as int
    ensures var text := [MINUS] + digits + x; text != [] && text[0] == '-' as int && ReadInt(text) == Some((Int(n), x))
  {
    RunsOver(digits, x);
    assert digits[0] in digits;
    SignedPieces(digits, x);
  }

  lemma SignedPieces(digits: Str, x: Str)
    requires digits != []
    ensures var text := [MINUS] + digits + x;
            && text[0] == '-' as int && text[1] == digits[0] && text[1..] == digits + x
            && text[1..1 + |digits|] == digits && text[1 + |digits|..] == x
  {
  }

  lemma ReadsInt(n: SafeInt, x: Str)
    requires Follow(x)
    ensures var text := IntText(n) + x;
            text != [] && (text[0] == '-' as int || IsDigit(text[0])) && ReadInt(text) == Some((Int(n), x))
  {
    DigitsRead(if n < 0 then -n else n);
    if n < 0 { ReadsSigned(n, Digits(-n), x); } else { ReadsUnsigned(n, Digits(n), x); }
  }

  // ---- Values ----

  lemma Starts(word: Str, x: Str)
    ensures word <= word + x && (word + x)[|word|..] == x
  {
  }

  lemma ReadsLiteral(j: Json, x: Str)
    requires j.Null? || j.Bool?
    ensures Read(Canon(j) + x) == Some((j, x))
  {
    assert NULL == Spell("null") && TRUE == Spell("true") && FALSE == Spell("false");
    Starts(Canon(j), x);
    assert (Canon(j) + x)[0] == Canon(j)[0];
  }

  /** None of the literals starts with this unit. */
  lemma NoLiteral(text: Str)
    requires text != [] && text[0] != 'n' as int && text[0] != 't' as int && text[0] != 'f' as int
    ensures !(Spell("null") <= text) && !(Spell("true") <= text) && !(Spell("false") <= text)
  {
    assert Spell("null")[0] == 'n' as int && Spell("true")[0] == 't' as int && Spell("false")[0] == 'f' as int;
  }

  lemma ReadsScalar(j: Json, x: Str)
    requires !j.Array? && !j.Object? && Follow(x)
    ensures Read(Canon(j) + x) == Some((j, x))
  {
    var text := Canon(j) + x;
    match j {
      case Int(n) =>
        ReadsInt(n, x);
        NoLiteral(text);
        NoOpening(text);
      case String(s) =>
        ReadsString(s, x);
        NoLiteral(text);
      case _ => ReadsLiteral(j, x);
    }
  }

  lemma NoOpening(text: Str)
    requires text != [] && text[0] != '[' as int && text[0] != '{' as int
    ensures !(Spell("[]") <= text) && !(Spell("{}") <= text)
  {
    assert Spell("[]")[0] == '[' as int && Spell("{}")[0] == '{' as int;
  }

  lemma CanonStarts(j: Json)
    ensures Canon(j) != [] && Canon(j)[0] != ']' as int
  {
    if j.Int? { ReadsInt(j.n, []); assert IntText(j.n) + [] == IntText(j.n); }
  }

  // ---- Arrays ----

  /** What follows the first item. */
  function ItemsTail(items: seq<Json>, x: Str): Str
    requires items != []
  {
    if |items| == 1 then [RBRACKET] + x else [COMMA] + (CanonItems(items[1..]) + [RBRACKET] + x)
  }

  lemma ItemsText(items: seq<Json>, x: Str)
    requires items != []
    ensures CanonItems(items) + [RBRACKET] + x == Canon(items[0]) + ItemsTail(items, x)
    ensures Follow(ItemsTail(items, x))
  {
    if |items| > 1 { Regroup(Canon(items[0]), CanonItems(items[1..]), RBRACKET, x); }
  }

  lemma Regroup(first: Str, rest: Str, close: Unit, x: Str)
    ensures (first + [COMMA] + rest) + [close] + x == first + ([COMMA] + (rest + [close] + x))
    ensures ([COMMA] + (rest + [close] + x))[1..] == rest + [close] + x
  {
  }

  lemma Tail(u: Unit, x: Str)
    ensures ([u] + x)[0] == u && ([u] + x)[1..] == x
  {
  }

  /** The items that were read stand for the items. */
  ghost predicate RendersAll(vs: seq<Json>, items: seq<Json>) {
    |vs| == |items| && forall i :: 0 <= i < |vs| ==> Renders(vs[i], items[i])
  }

  lemma {:induction false} ReadsItems(items: seq<Json>, x: Str) returns (vs: seq<Json>)
    requires items != [] && forall i <- items :: Proper(i)
    ensures ReadItems(CanonItems(items) + [RBRACKET] + x) == Some((vs, x)) && RendersAll(vs, items)
    decreases items, 0, 0
  {
    ItemsText(items, x);
    var v := ReadsBack(items[0], ItemsTail(items, x));
    vs := [v];
    if |items| == 1 {
      Tail(RBRACKET, x);
    } else {
      Tail(COMMA, CanonItems(items[1..]) + [RBRACKET] + x);
      var others := ReadsItems(items[1..], x);
      vs := [v] + others;
    }
  }

  lemma Inside(open: Unit, body: Str, close: Unit, x: Str)
    ensures var text := ([open] + body + [close]) + x;
            text[0] == open && text[1..] == body + [close] + x && (body != [] ==> text[1] == body[0])
  {
  }

  lemma ReadsArray(items: seq<Json>, x: Str) returns (v: Json)
    requires forall i <- items :: Proper(i)
    ensures Read(Canon(Array(items)) + x) == Some((v, x)) && Renders(v, Array(items))
    decreases items, 1
  {
    var text := Canon(Array(items)) + x;
    Inside(LBRACKET, CanonItems(items), RBRACKET, x);
    NoLiteral(text);
    if items == [] {
      assert text[..2] == Spell("[]") && text[2..] == x;
      v := Array([]);
    } else {
      CanonStarts(items[0]);
      assert CanonItems(items)[0] == Canon(items[0])[0];
      assert Spell("[]")[1] == ']' as int;
      var vs := ReadsItems(items, x);
      v := Array(vs);
    }
  }

  // ---- Objects ----

  function FieldsTail(j: Json, keys: seq<Str>, x: Str): Str
    requires j.Object? && keys != [] && forall k <- keys :: k in FieldKeys(j.fields)
  {
    if |keys| == 1 then [RBRACE] + x else [COMMA] + (CanonFields(j, keys[1..]) + [RBRACE] + x)
  }

  lemma FieldsText(j: Json, keys: seq<Str>, x: Str)
    requires j.Object? && keys != [] && forall k <- keys :: k in FieldKeys(j.fields)
    ensures CanonFields(j, keys) + [RBRACE] + x
            == Quote(keys[0]) + ([COLON] + (Canon(Lookup(j.fields, keys[0])) + FieldsTail(j, keys, x)))
    ensures Follow(FieldsTail(j, keys, x))
  {
    var first, tail := CanonField(j, keys[0]), FieldsTail(j, keys, x);
    if |keys| > 1 { Regroup(first, CanonFields(j, keys[1..]), RBRACE, x); } else { Last(first, x); }
    assert CanonFields(j, keys) + [RBRACE] + x == first + tail;
    FieldText(Quote(keys[0]), Canon(Lookup(j.fields, keys[0])), tail);
  }

  lemma Last(first: Str, x: Str)
    ensures first + [RBRACE] + x == first + ([RBRACE] + x)
  {
  }

  lemma FieldText(q: Str, c: Str, tail: Str)
    ensures (q + [COLON] + c) + tail == q + ([COLON] + (c + tail))
  {
  }

  /** The fields that were read are those of the keys, in their order. */
  ghost predicate RendersFields(fs: seq<Field>, j: Json, keys: seq<Str>)
    requires j.Object? && forall k <- keys :: k in FieldKeys(j.fields)
  {
    && |fs| == |keys|
    && forall i :: 0 <= i < |fs| ==> fs[i].key == keys[i] && Renders(fs[i].value, Lookup(j.fields, keys[i]))
  }

  lemma ReadsField(j: Json, keys: seq<Str>, x: Str) returns (v: Json)
    requires j.Object? && Proper(j) && keys != [] && forall k <- keys :: k in FieldKeys(j.fields)
    ensures ReadField(CanonFields(j, keys) + [RBRACE] + x) == Some((Field(keys[0], v), FieldsTail(j, keys, x)))
    ensures Renders(v, Lookup(j.fields, keys[0]))
    decreases j, 0, |keys|, 0
  {
    var tail := FieldsTail(j, keys, x);
    FieldsText(j, keys, x);
    ReadsString(keys[0], [COLON] + (Canon(Lookup(j.fields, keys[0])) + tail));
    Tail(COLON, Canon(Lookup(j.fields, keys[0])) + tail);
    v := ReadsBack(Lookup(j.fields, keys[0]), tail);
  }

  lemma {:induction false} ReadsFields(j: Json, keys: seq<Str>, x: Str) returns (fs: seq<Field>)
    requires j.Object? && Proper(j) && keys != [] && forall k <- keys :: k in FieldKeys(j.fields)
    ensures ReadFields(CanonFields(j, keys) + [RBRACE] + x) == Some((fs, x)) && RendersFields(fs, j, keys)
    decreases j, 0, |keys|, 1
  {
    var v := ReadsField(j, keys, x);
    fs := [Field(keys[0], v)];
    if |keys| == 1 {
      Tail(RBRACE, x);
    } else {
      Tail(COMMA, CanonFields(j, keys[1..]) + [RBRACE] + x);
      var others := ReadsFields(j, keys[1..], x);
      fs := fs + others;
    }
  }

  /** The fields of the sorted keys make up the object. */
  lemma FieldsRender(fs: seq<Field>, j: Json, keys: seq<Str>)
    requires j.Object? && Proper(j) && keys == Sort(FieldKeys(j.fields)) && forall k <- keys :: k in FieldKeys(j.fields)
    requires RendersFields(fs, j, keys)
    ensures Renders(Object(fs), j)
  {
    SortSorts(FieldKeys(j.fields));
    assert FieldKeys(fs) == keys;
    forall i, k | 0 <= i < k < |fs|
      ensures Precedes(fs[i].key, fs[k].key)
    {
      LessExactly(keys[i], keys[k]);
    }
    AscendingDistinct(keys);
    forall i, k | 0 <= i < |fs| && 0 <= k < |j.fields| && fs[i].key == j.fields[k].key
      ensures Same(fs[i].value, j.fields[k].value)
    {
      LookupAt(j.fields, k);
    }
  }

  lemma EmptyObject(x: Str)
    ensures var text := ([LBRACE] + [] + [RBRACE]) + x; Spell("{}") <= text && text[2..] == x
  {
    var text := ([LBRACE] + [] + [RBRACE]) + x;
    assert text[..2] == Spell("{}");
  }

  lemma NotEmpty(j: Json, keys: seq<Str>, text: Str, x: Str)
    requires j.Object? && keys != [] && forall k <- keys :: k in FieldKeys(j.fields)
    requires |text| > 1 && text[1..] == CanonFields(j, keys) + [RBRACE] + x
    ensures !(Spell("{}") <= text)
  {
    FieldsText(j, keys, x);
    ReadsString(keys[0], [COLON] + (Canon(Lookup(j.fields, keys[0])) + FieldsTail(j, keys, x)));
    assert text[1] == text[1..][0] == QUOTE;
    assert Spell("{}")[1] == '}' as int;
  }

  lemma ReadsObject(j: Json, x: Str) returns (v: Json)
    requires j.Object? && Proper(j)
    ensures Read(Canon(j) + x) == Some((v, x)) && Renders(v, j)
    decreases j, 1, 0
  {
    SortMembers(FieldKeys(j.fields));
    var keys := Sort(FieldKeys(j.fields));
    var body := CanonFields(j, keys);
    var text := ([LBRACE] + body + [RBRACE]) + x;
    Inside(LBRACE, body, RBRACE, x);
    if keys == [] {
      EmptyObject(x);
      OpensObject(text);
      FieldsRender([], j, keys);
      v := Object([]);
    } else {
      NotEmpty(j, keys, text, x);
      OpensObject(text);
      var fs := ReadsFields(j, keys, x);
      FieldsRender(fs, j, keys);
      v := Object(fs);
    }
  }

  /** At an opening brace the reader goes on with the fields. */
  lemma OpensObject(text: Str)
    requires text != [] && text[0] == '{' as int
    ensures Read(text) ==
            if Spell("{}") <= text then Some((Object([]), text[2..]))
            else if ReadFields(text[1..]).None? then None
            else Some((Object(ReadFields(text[1..]).value.0), ReadFields(text[1..]).value.1))
  {
    NoLiteral(text);
    assert Spell("[]")[0] == '[' as int;
  }

  /**
   * A reader that finds a canonical text, alone or inside a larger one, takes exactly that text and gets the value again
   * up to the order of keys, which come in ascending order at every depth.
   */
  lemma {:induction false} ReadsBack(j: Json, x: Str) returns (v: Json)
    requires Proper(j) && Follow(x)
    ensures Read(Canon(j) + x) == Some((v, x)) && Renders(v, j)
    decreases j, 1, 1
  {
    if j.Array? {
      v := ReadsArray(j.items, x);
    } else if j.Object? {
      v := ReadsObject(j, x);
    } else {
      ReadsScalar(j, x);
      v := j;
    }
  }

  // ---- Equal texts ----

  lemma {:induction false} SameBoth(v: Json, a: Json, b: Json)
    requires Proper(v) && Proper(a) && Proper(b) && Same(v, a) && Same(v, b)
    ensures Same(a, b)
    decreases v
  {
    match v {
      case Array(items) =>
        forall i | 0 <= i < |items| ensures Same(a.items[i], b.items[i]) { SameBoth(items[i], a.items[i], b.items[i]); }
      case Object(h) =>
        var f, g := a.fields, b.fields;
        forall i, k | 0 <= i < |f| && 0 <= k < |g| && f[i].key == g[k].key
          ensures Same(f[i].value, g[k].value)
        {
          assert FieldKeys(f)[i] in Keys(FieldKeys(h));
          var l :| 0 <= l < |h| && FieldKeys(h)[l] == f[i].key;
          SameBoth(h[l].value, f[i].value, g[k].value);
        }
      case _ =>
    }
  }

  /** Equal text means equal value: the text forgets the order of keys and nothing else. */
  lemma CanonicalExactly(a: Json, b: Json)
    requires Proper(a) && Proper(b)
    ensures Canon(a) == Canon(b) <==> Same(a, b)
  {
    if Canon(a) == Canon(b) {
      var v := ReadsBack(a, []);
      var w := ReadsBack(b, []);
      SameBoth(v, a, b);
    }
    if Same(a, b) { SameText(a, b); }
  }

  /** A canonical text is a JSON text of its value and nothing more, with every object's keys in ascending order. */
  lemma TextDenotes(j: Json) returns (v: Json)
    requires Proper(j)
    ensures Read(Canon(j)) == Some((v, [])) && Same(v, j) && Ordered(v)
  {
    v := ReadsBack(j, []);
    assert Canon(j) + [] == Canon(j);
  }
}
