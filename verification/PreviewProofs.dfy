/** The parser reads exactly the grammar, whatever the chunks. */
module PreviewProofs {
  import opened Text
  import opened JsonString
  import opened Preview
  import opened PreviewGrammar

  /** The parser knows the names of the grammar. */
  lemma NamesAgree()
    ensures NAMES == ALLOWED && THE_BODY == BODY
  {
    assert THE_BODY == BODY;
    assert Spell("status") == STATUS;
    assert Spell("checks") == CHECKS;
    assert Spell("gaps") == GAPS;
    assert Spell("taskRef") == TASK_REF;
  }

  /** Between tokens nothing is held over from the last one. */
  predicate Clean(s: State, phase: Phase, seen: set<Str>) {
    && s.At? && s.phase == phase && s.token == [] && !s.quoted && !s.escaped && s.depth == 0
    && s.keys == seen && s.escape == [] && s.high == []
  }

  function AppendUnits(high: Str, text: Str): (Str, Str)
    decreases |text|
  {
    if text == [] then (high, [])
    else
      var (h, o) := AppendChar(high, text[..1]);
      var (h', o') := AppendUnits(h, text[1..]);
      (h', o + o')
  }

  lemma AppendCharKeeps(high: Str, u: Unit)
    requires |high| <= 1
    ensures var (h, o) := AppendChar(high, [u]);
            o + h == high + [u] && |h| <= 1
  {
  }

  /** Output and held-back unit together are what was read. */
  lemma {:induction false} AppendUnitsKeeps(high: Str, text: Str)
    requires |high| <= 1
    ensures var (h, o) := AppendUnits(high, text);
            o + h == high + text && |h| <= 1
    decreases |text|
  {
    if text == [] {
      assert [] + high == high + [];
    } else {
      var (h1, o1) := AppendChar(high, text[..1]);
      assert text[..1] == [text[0]];
      AppendCharKeeps(high, text[0]);
      AppendUnitsKeeps(h1, text[1..]);
      var (h, o) := AppendUnits(h1, text[1..]);
      assert (o1 + o) + h == o1 + (o + h) == (o1 + h1) + text[1..];
      assert high + text == (high + [text[0]]) + text[1..];
    }
  }

  lemma {:induction false} AppendUnitsSnoc(high: Str, text: Str, u: Unit)
    ensures var (h, o) := AppendUnits(high, text);
            AppendUnits(high, text + [u]) == (AppendChar(h, [u]).0, o + AppendChar(h, [u]).1)
    decreases |text|
  {
    if text == [] {
      assert (text + [u])[..1] == [u] && (text + [u])[1..] == [];
      var o := AppendChar(high, [u]).1;
      assert [] + o == o && o + [] == o;
    } else {
      assert (text + [u])[..1] == text[..1] && (text + [u])[1..] == text[1..] + [u];
      var (h1, o1) := AppendChar(high, text[..1]);
      AppendUnitsSnoc(h1, text[1..], u);
      var (h, o) := AppendUnits(h1, text[1..]);
      var o2 := AppendChar(h, [u]).1;
      assert o1 + (o + o2) == (o1 + o) + o2;
    }
  }

  /** A unit is held back exactly when the string ends in an odd run of high surrogates. */
  lemma {:induction false} HeldBack(text: Str)
    ensures (AppendUnits([], text).0 != []) == Dangling(text)
    decreases |text|
  {
    if text != [] {
      var n := |text| - 1;
      assert text == text[..n] + [text[n]];
      AppendUnitsSnoc([], text[..n], text[n]);
      HeldBack(text[..n]);
    }
  }

  lemma ReadsUnit(valid: Str -> bool, s: State, u: Unit)
    ensures Reads(valid, s, [u], Step(valid, s, [u]).0, Step(valid, s, [u]).1)
  {
    FeedUnit(valid, s, u);
  }

  lemma ReadsNothing(valid: Str -> bool, s: State)
    ensures Reads(valid, s, [], s, [])
  {
  }

  /** Two readings, one after the other. */
  lemma Then(valid: Str -> bool, s: State, a: Str, s1: State, o1: Str, b: Str, s2: State, o2: Str)
    requires Reads(valid, s, a, s1, o1) && Reads(valid, s1, b, s2, o2)
    ensures Reads(valid, s, a + b, s2, o1 + o2)
  {
    ReadsIs(valid, s, a, s1, o1);
    ReadsIs(valid, s1, b, s2, o2);
    FeedConcat(valid, s, a, b);
  }

  lemma Silently(valid: Str -> bool, s: State, a: Str, s1: State, b: Str, s2: State)
    requires Reads(valid, s, a, s1, []) && Reads(valid, s1, b, s2, [])
    ensures Reads(valid, s, a + b, s2, [])
  {
    Then(valid, s, a, s1, [], b, s2, []);
    var nothing: Str := [];
    assert nothing + nothing == nothing;
  }

  /** The state after more of a token. */
  function Took(s: State, text: Str): (r: State)
    requires s.At?
    ensures r.At?
  {
    s.(token := s.token + text)
  }

  lemma TookTwice(s: State, a: Str, b: Str)
    requires s.At?
    ensures Took(Took(s, a), b) == Took(s, a + b)
  {
    assert (s.token + a) + b == s.token + (a + b);
  }

  lemma TookNothing(s: State)
    requires s.At?
    ensures Took(s, []) == s
  {
    assert s.token + [] == s.token;
  }

  /** The state after a string inside a skipped value. */
  function Unquoted(s: State): (r: State)
    requires s.At?
    ensures r.At?
  {
    s.(token := s.token + [QUOTE], quoted := false)
  }

  /** The state after a member's name. */
  function Keyed(s: State, seen: set<Str>, name: Str): (r: State)
    requires s.At?
    ensures r.At?
  {
    s.(phase := Colon, token := [], key := name, keys := seen + {name})
  }

  /** The state before a member's value. */
  function Named(s: State, seen: set<Str>, name: Str): (r: State)
    requires s.At?
    ensures r.At?
  {
    s.(phase := Value, key := name, keys := seen + {name})
  }

  /** The state after the comma or brace that ends a member. */
  function Stopped(s: State, stop: Unit): (r: State)
    requires s.At?
    ensures r.At?
  {
    s.(phase := if stop == COMMA then Key else Done)
  }

  /** The state after the first segment of a skipped value. */
  function First(s: State, g: Segment): (r: State)
    requires s.At?
    ensures r.At?
  {
    s.(phase := Skip, token := SegmentText(g), quoted := false, depth := if Change(g) == 1 then 1 else 0)
  }

  /** The state after more of a skipped value. */
  function Skipped(s: State, text: Str, change: int): (r: State)
    requires s.At?
    ensures r.At?
  {
    s.(token := s.token + text, depth := s.depth + change)
  }

  lemma SkippedTwice(s: State, a: Str, i: int, b: Str, j: int)
    requires s.At?
    ensures Skipped(Skipped(s, a, i), b, j) == Skipped(s, a + b, i + j)
  {
    assert (s.token + a) + b == s.token + (a + b);
  }

  lemma {:induction false} ReadsSpaces(valid: Str -> bool, s: State, text: Str)
    requires Spaces(text)
    requires s.At? && !s.phase.Body? && !s.phase.Skip? && (s.phase.Key? ==> s.token == [])
    ensures Reads(valid, s, text, s, [])
    decreases |text|
  {
    if text == [] {
      ReadsNothing(valid, s);
    } else {
      assert text[0] in text && [text[0]] + text[1..] == text;
      ReadsUnit(valid, s, text[0]);
      ReadsSpaces(valid, s, text[1..]);
      Silently(valid, s, [text[0]], s, text[1..], s);
    }
  }

  /** A step inside a name. */
  lemma NameUnit(valid: Str -> bool, s: State, u: Unit)
    requires s.At? && s.phase.Key? && s.token != [] && (s.escaped || u != QUOTE)
    ensures var t := Took(s, [u]);
            var s1 := t.(escaped := !s.escaped && u == BACKSLASH);
            Step(valid, s, [u]) == (s1, []) && Reads(valid, s, [u], s1, [])
  {
    assert [u][0] == u && [QUOTE][0] == QUOTE;
    ReadsUnit(valid, s, u);
  }

  /** A step inside a skipped string. */
  lemma SkipUnit(valid: Str -> bool, s: State, u: Unit)
    requires s.At? && s.phase.Skip? && s.quoted
    ensures var t := Took(s, [u]);
            var s1 := t.(escaped := !s.escaped && u == BACKSLASH, quoted := s.escaped || u != QUOTE);
            Step(valid, s, [u]) == (s1, []) && Reads(valid, s, [u], s1, [])
  {
    ReadsUnit(valid, s, u);
  }

  /** One unit of quoted content, or an escape's two. */
  function Span(text: Str): nat
    requires IsQuoted(text) && text != []
  {
    if text[0] == BACKSLASH then 2 else 1
  }

  lemma ReadsSpan(valid: Str -> bool, s: State, text: Str)
    requires s.At? && !s.escaped && ((s.phase.Key? && s.token != []) || (s.phase.Skip? && s.quoted))
    requires IsQuoted(text) && text != []
    ensures Reads(valid, s, text[..Span(text)], Took(s, text[..Span(text)]), [])
  {
    var u := text[0];
    var t := Took(s, [u]);
    var s1 := t.(escaped := u == BACKSLASH);
    if s.phase.Key? { NameUnit(valid, s, u); } else { SkipUnit(valid, s, u); }
    if u == BACKSLASH {
      if s.phase.Key? { NameUnit(valid, s1, text[1]); } else { SkipUnit(valid, s1, text[1]); }
      TookTwice(s, [u], [text[1]]);
      Silently(valid, s, [u], s1, [text[1]], Took(s, [u] + [text[1]]));
      assert text[..2] == [u] + [text[1]];
    } else {
      assert text[..1] == [u];
    }
  }

  /** Names and skipped strings are taken as they stand up to their closing quote. */
  lemma {:induction false} ReadsQuoted(valid: Str -> bool, s: State, text: Str)
    requires s.At? && !s.escaped && ((s.phase.Key? && s.token != []) || (s.phase.Skip? && s.quoted))
    requires IsQuoted(text)
    ensures Reads(valid, s, text, Took(s, text), [])
    decreases |text|
  {
    if text == [] {
      TookNothing(s);
      ReadsNothing(valid, s);
    } else {
      var a, b := text[..Span(text)], text[Span(text)..];
      ReadsSpan(valid, s, text);
      ReadsQuoted(valid, Took(s, a), b);
      TookTwice(s, a, b);
      assert text == a + b;
      Silently(valid, s, a, Took(s, a), b, Took(s, text));
    }
  }

  /** One escape or plain character of a string literal, whole. */
  lemma ReadsOne(valid: Str -> bool, s: State, text: Str)
    requires s.At? && s.phase.Body? && s.escape == []
    requires text != [] && FirstUnit(text).Some?
    ensures var (u, n) := FirstUnit(text).value;
            var (h, o) := AppendChar(s.high, [u]);
            Reads(valid, s, text[..n], s.(high := h), o)
  {
    var (u, n) := FirstUnit(text).value;
    if n == 1 {
      AppendOne(s.high, [u]);
      ReadsUnit(valid, s, text[0]);
      assert text[..1] == [text[0]];
    } else {
      ReadsEscape(valid, s, text[..n], u);
    }
  }

  lemma CompletesEscape(s: State, e: Str, u: Unit)
    requires s.At? && s.phase.Body?
    requires |e| == 2 || |e| == 6
    requires e[0] == BACKSLASH && FirstUnit(e) == Some((u, |e|))
    ensures var n := |e| - 1;
            var (h, o) := AppendChar(s.high, [u]);
            StepBody(s.(escape := e[..n]), [e[n]]) == (s.(escape := [], high := h), o)
  {
    assert e[..|e| - 1] + [e[|e| - 1]] == e;
    assert e[|e|..] == [] && [u] + [] == [u];
    assert Decode(e) == Some([u]);
    AppendOne(s.high, [u]);
  }

  lemma ReadsEscape(valid: Str -> bool, s: State, e: Str, u: Unit)
    requires s.At? && s.phase.Body? && s.escape == []
    requires |e| == 2 || |e| == 6
    requires e[0] == BACKSLASH && FirstUnit(e) == Some((u, |e|))
    ensures var (h, o) := AppendChar(s.high, [u]);
            Reads(valid, s, e, s.(high := h), o)
  {
    var n := |e| - 1;
    var t := s.(escape := e[..n]);
    var (h, o) := AppendChar(s.high, [u]);
    assert e == e[..n] + [e[n]];
    ReadsHeld(valid, s, e, n);
    CompletesEscape(s, e, u);
    ReadsUnit(valid, t, e[n]);
    Then(valid, s, e[..n], t, [], [e[n]], s.(high := h), o);
    assert [] + o == o;
  }

  /** An escape is held back until its last unit arrives. */
  lemma {:induction false} ReadsHeld(valid: Str -> bool, s: State, e: Str, n: nat)
    requires s.At? && s.phase.Body? && s.escape == []
    requires |e| == 2 || |e| == 6
    requires e[0] == BACKSLASH && FirstUnit(e).Some? && FirstUnit(e).value.1 == |e|
    requires 1 <= n < |e|
    ensures Reads(valid, s, e[..n], s.(escape := e[..n]), [])
  {
    if n == 1 {
      assert e[..1] == [e[0]];
      ReadsUnit(valid, s, e[0]);
    } else {
      var t := s.(escape := e[..n - 1]);
      ReadsHeld(valid, s, e, n - 1);
      assert e[..n] == e[..n - 1] + [e[n - 1]];
      ReadsUnit(valid, t, e[n - 1]);
      Silently(valid, s, e[..n - 1], t, [e[n - 1]], s.(escape := e[..n]));
    }
  }

  lemma AppendUnitsCons(high: Str, u: Unit, rest: Str)
    ensures var (h, o) := AppendChar(high, [u]);
            var (h', o') := AppendUnits(h, rest);
            AppendUnits(high, [u] + rest) == (h', o + o')
  {
    assert ([u] + rest)[..1] == [u] && ([u] + rest)[1..] == rest;
  }

  /** Inside the body the automaton decodes the literal unit by unit. */
  lemma {:induction false} ReadsLiteral(valid: Str -> bool, s: State, text: Str)
    requires s.At? && s.phase.Body? && s.escape == [] && Decode(text).Some?
    ensures var (h, o) := AppendUnits(s.high, Decode(text).value);
            Reads(valid, s, text, s.(high := h), o)
    decreases |text|
  {
    if text == [] {
      ReadsNothing(valid, s);
    } else {
      var (u, n) := FirstUnit(text).value;
      var rest := Decode(text[n..]).value;
      var (h, o) := AppendChar(s.high, [u]);
      var (h', o') := AppendUnits(h, rest);
      var s1 := s.(high := h);
      ReadsOne(valid, s, text);
      ReadsLiteral(valid, s1, text[n..]);
      assert text == text[..n] + text[n..];
      Then(valid, s, text[..n], s1, o, text[n..], s.(high := h'), o');
      AppendUnitsCons(s.high, u, rest);
    }
  }

  lemma ClosesName(valid: Str -> bool, s: State, content: Str, name: Str)
    requires s.At? && s.phase.Key? && s.token == [QUOTE] + content && !s.escaped
    requires Decode(content) == Some(name) && name in ALLOWED && name !in s.keys
    ensures Reads(valid, s, [QUOTE], Keyed(s, s.keys, name), [])
  {
    var token := s.token + [QUOTE];
    assert token[1..|token| - 1] == content;
    assert StepKey(s, [QUOTE]) == Keyed(s, s.keys, name);
    ReadsUnit(valid, s, QUOTE);
  }

  lemma ReadsToken(valid: Str -> bool, s: State, content: Str, name: Str)
    requires s.At? && s.phase.Key? && s.token == [] && !s.escaped
    requires Decode(content) == Some(name) && name in ALLOWED && name !in s.keys
    ensures Reads(valid, s, [QUOTE] + content + [QUOTE], Keyed(s, s.keys, name), [])
  {
    var s1 := s.(token := [QUOTE]);
    assert Reads(valid, s, [QUOTE], s1, []) by {
      ReadsUnit(valid, s, QUOTE);
      assert s.token + [QUOTE] == [QUOTE];
    }
    DecodeIsQuoted(content);
    ReadsQuoted(valid, s1, content);
    ClosesName(valid, Took(s1, content), content, name);
    Silently(valid, s, [QUOTE], s1, content, Took(s1, content));
    Silently(valid, s, [QUOTE] + content, Took(s1, content), [QUOTE], Keyed(s, s.keys, name));
  }

  lemma ReadsColon(valid: Str -> bool, s: State, mid: Str, gap: Str)
    requires s.At? && s.phase.Colon? && Spaces(mid) && Spaces(gap)
    ensures Reads(valid, s, mid + [COLON] + gap, s.(phase := Value), [])
  {
    var s1 := s.(phase := Value);
    ReadsSpaces(valid, s, mid);
    ReadsUnit(valid, s, COLON);
    ReadsSpaces(valid, s1, gap);
    Silently(valid, s, mid, s, [COLON], s1);
    Silently(valid, s, mid + [COLON], s1, gap, s1);
  }

  lemma ReadsName(valid: Str -> bool, s: State, seen: set<Str>, m: Member)
    requires Clean(s, Key, seen) && GoodMember(valid, m, seen)
    ensures Reads(valid, s, NameText(m), Named(s, seen, Decode(m.name).value), [])
  {
    NamesAgree();
    var name := Decode(m.name).value;
    var token, colon := [QUOTE] + m.name + [QUOTE], m.mid + [COLON] + m.gap;
    ReadsSpaces(valid, s, m.pre);
    ReadsToken(valid, s, m.name, name);
    ReadsColon(valid, Keyed(s, seen, name), m.mid, m.gap);
    Silently(valid, s, m.pre, s, token, Keyed(s, seen, name));
    Silently(valid, s, m.pre + token, Keyed(s, seen, name), colon, Named(s, seen, name));
    assert NameText(m) == (m.pre + token) + colon;
  }

  /** Nothing is lost when the closing quote finds no surrogate held back. */
  lemma ReadsString(valid: Str -> bool, s: State, literal: Str)
    requires s.At? && s.phase.Value? && s.key == BODY && s.escape == [] && s.high == []
    requires Decode(literal).Some? && !Dangling(Decode(literal).value)
    ensures Reads(valid, s, [QUOTE] + literal + [QUOTE], s.(phase := Separator), Decode(literal).value)
  {
    var d := Decode(literal).value;
    var s1 := s.(phase := Body);
    ReadsUnit(valid, s, QUOTE);
    ReadsLiteral(valid, s1, literal);
    HeldBack(d);
    AppendUnitsKeeps([], d);
    var o := AppendUnits([], d).1;
    assert o + [] == [] + d == o == d;
    ReadsUnit(valid, s1, QUOTE);
    Then(valid, s, [QUOTE], s1, [], literal, s1, d);
    Then(valid, s, [QUOTE] + literal, s1, d, [QUOTE], s.(phase := Separator), []);
    assert d + [] == d;
  }

  lemma ReadsBody(valid: Str -> bool, s: State, m: Member, stop: Unit)
    requires Clean(s, Value, if s.At? then s.keys else {}) && s.key == BODY && m.BodyMember?
    requires Spaces(m.post) && Decode(m.literal).Some? && !Dangling(Decode(m.literal).value)
    requires stop == COMMA || stop == RBRACE
    ensures Reads(valid, s, RestText(m) + [stop], Stopped(s, stop), Decode(m.literal).value)
  {
    var d := Decode(m.literal).value;
    var s1 := s.(phase := Separator);
    ReadsString(valid, s, m.literal);
    ReadsSpaces(valid, s1, m.post);
    ReadsUnit(valid, s1, stop);
    Then(valid, s, [QUOTE] + m.literal + [QUOTE], s1, d, m.post, s1, []);
    assert d + [] == d;
    Then(valid, s, RestText(m), s1, d, [stop], Stopped(s, stop), []);
  }

  lemma StepPlain(valid: Str -> bool, s: State, u: Unit)
    requires s.At? && !s.quoted && u != QUOTE
    requires u == COMMA || u == RBRACE ==> s.depth != 0
    requires s.depth + Change(Plain(u)) >= 0
    ensures StepSkip(valid, s, [u]) == Skipped(s, [u], Change(Plain(u)))
  {
    assert [u][0] == u && [COMMA][0] == COMMA && [RBRACE][0] == RBRACE && [QUOTE][0] == QUOTE;
  }

  /** The rest of a skipped string. */
  lemma ReadsClosing(valid: Str -> bool, s: State, content: Str)
    requires s.At? && s.phase.Skip? && s.quoted && !s.escaped && IsQuoted(content)
    ensures Reads(valid, s, content + [QUOTE], Unquoted(Took(s, content)), [])
  {
    ReadsQuoted(valid, s, content);
    SkipUnit(valid, Took(s, content), QUOTE);
    Silently(valid, s, content, Took(s, content), [QUOTE], Unquoted(Took(s, content)));
  }

  lemma UnquotedIs(s: State, content: Str)
    requires s.At?
    ensures var t, all := s.(token := s.token + [QUOTE], quoted := true), Took(s, [QUOTE] + content + [QUOTE]);
            Unquoted(Took(t, content)) == all.(quoted := false)
    ensures [QUOTE] + (content + [QUOTE]) == [QUOTE] + content + [QUOTE]
  {
    assert (s.token + [QUOTE]) + content + [QUOTE] == s.token + ([QUOTE] + content + [QUOTE]);
  }

  lemma ReadsSegment(valid: Str -> bool, s: State, g: Segment)
    requires s.At? && s.phase.Skip? && !s.quoted && !s.escaped && GoodSegment(g)
    requires g == Plain(COMMA) || g == Plain(RBRACE) ==> s.depth != 0
    requires s.depth + Change(g) >= 0
    ensures Reads(valid, s, SegmentText(g), Skipped(s, SegmentText(g), Change(g)), [])
  {
    if g.Plain? {
      StepPlain(valid, s, g.u);
      ReadsUnit(valid, s, g.u);
    } else {
      var s1 := s.(token := s.token + [QUOTE], quoted := true);
      ReadsUnit(valid, s, QUOTE);
      ReadsClosing(valid, s1, g.content);
      UnquotedIs(s, g.content);
      Silently(valid, s, [QUOTE], s1, g.content + [QUOTE], Skipped(s, SegmentText(g), 0));
    }
  }

  lemma {:induction false} ReadsNested(valid: Str -> bool, s: State, value: seq<Segment>)
    requires s.At? && s.phase.Skip? && !s.quoted && !s.escaped && s.depth >= 0 && Nested(value, s.depth)
    ensures Reads(valid, s, ValueText(value), Skipped(s, ValueText(value), -s.depth), [])
    decreases |value|
  {
    if value == [] {
      assert s.token + [] == s.token;
      ReadsNothing(valid, s);
    } else {
      var text, rest, change := SegmentText(value[0]), ValueText(value[1..]), Change(value[0]);
      var s1 := Skipped(s, text, change);
      ReadsSegment(valid, s, value[0]);
      ReadsNested(valid, s1, value[1..]);
      SkippedTwice(s, text, change, rest, -s1.depth);
      Silently(valid, s, text, s1, rest, Skipped(s, text + rest, -s.depth));
    }
  }

  /** The first character opens the token without being checked. */
  lemma ReadsFirst(valid: Str -> bool, s: State, g: Segment)
    requires Clean(s, Value, if s.At? then s.keys else {}) && s.key != BODY
    requires GoodSegment(g) && (g.Plain? ==> !White(g.u))
    ensures Reads(valid, s, SegmentText(g), First(s, g), [])
  {
    if g.Plain? {
      assert [g.u][0] == g.u && [QUOTE][0] == QUOTE;
      ReadsUnit(valid, s, g.u);
    } else {
      var s1 := s.(phase := Skip, token := [QUOTE], quoted := true);
      assert Reads(valid, s, [QUOTE], s1, []) by { ReadsUnit(valid, s, QUOTE); }
      ReadsClosing(valid, s1, g.content);
      UnquotedIs(s.(phase := Skip), g.content);
      assert s.token + [QUOTE] == [QUOTE] && s.token + SegmentText(g) == SegmentText(g);
      Silently(valid, s, [QUOTE], s1, g.content + [QUOTE], First(s, g));
    }
  }

  lemma ClosesValue(valid: Str -> bool, s: State, text: Str, stop: Unit)
    requires Clean(s, Value, if s.At? then s.keys else {}) && valid(text) && (stop == COMMA || stop == RBRACE)
    ensures Reads(valid, s.(phase := Skip, token := text), [stop], Stopped(s, stop), [])
  {
    assert [stop][0] == stop && [COMMA][0] == COMMA && [RBRACE][0] == RBRACE;
    ReadsUnit(valid, s.(phase := Skip, token := text), stop);
  }

  lemma ReadsValue(valid: Str -> bool, s: State, m: Member, stop: Unit)
    requires Clean(s, Value, if s.At? then s.keys else {}) && s.key != BODY && m.OtherMember?
    requires GoodValue(m.value) && valid(RestText(m)) && (stop == COMMA || stop == RBRACE)
    ensures Reads(valid, s, RestText(m) + [stop], Stopped(s, stop), [])
  {
    var text, rest := SegmentText(m.value[0]), ValueText(m.value[1..]);
    var s1, s2 := First(s, m.value[0]), s.(phase := Skip, token := text + rest);
    ReadsFirst(valid, s, m.value[0]);
    ReadsNested(valid, s1, m.value[1..]);
    Silently(valid, s, text, s1, rest, s2);
    ClosesValue(valid, s, text + rest, stop);
    Silently(valid, s, text + rest, s2, [stop], Stopped(s, stop));
  }

  /** The output of a member: the body decoded, or nothing. */
  function MemberBody(m: Member): Str {
    if m.BodyMember? && Decode(m.literal).Some? then Decode(m.literal).value else []
  }

  /** A whole member and the comma or brace after it. */
  lemma ReadsMember(valid: Str -> bool, s: State, seen: set<Str>, m: Member, stop: Unit)
    requires Clean(s, Key, seen) && GoodMember(valid, m, seen) && (stop == COMMA || stop == RBRACE)
    ensures Reads(valid, s, MemberText(m) + [stop], Stopped(Named(s, seen, Decode(m.name).value), stop), MemberBody(m))
  {
    NamesAgree();
    var s1 := Named(s, seen, Decode(m.name).value);
    ReadsName(valid, s, seen, m);
    if m.BodyMember? { ReadsBody(valid, s1, m, stop); } else { ReadsValue(valid, s1, m, stop); }
    Then(valid, s, NameText(m), s1, [], RestText(m) + [stop], Stopped(s1, stop), MemberBody(m));
    assert [] + MemberBody(m) == MemberBody(m);
    assert MemberText(m) + [stop] == NameText(m) + (RestText(m) + [stop]);
  }

  lemma BodyOnce(valid: Str -> bool, members: seq<Member>, seen: set<Str>)
    requires GoodMembers(valid, members, seen) && BODY in seen
    ensures BodyOf(members) == [] && !HasBody(members)
  {
    NamesAgree();
    if |members| > 1 { BodyOnce(valid, members[1..], seen + {Decode(members[0].name).value}); }
  }

  lemma BodyCons(valid: Str -> bool, members: seq<Member>, seen: set<Str>)
    requires GoodMembers(valid, members, seen)
    ensures BodyOf(members) == MemberBody(members[0]) + BodyOf(members[1..])
    ensures HasBody(members) <==> members[0].BodyMember? || HasBody(members[1..])
  {
    NamesAgree();
    assert members == [members[0]] + members[1..];
    if |members| > 1 && members[0].BodyMember? {
      BodyOnce(valid, members[1..], seen + {Decode(members[0].name).value});
    }
    assert MemberBody(members[0]) + [] == MemberBody(members[0]);
    assert [] + BodyOf(members[1..]) == BodyOf(members[1..]);
  }

  /** Members up to the closing brace: the output is the body and nothing else. */
  lemma {:induction false} ReadsMembers(valid: Str -> bool, s: State, seen: set<Str>,
                                        members: seq<Member>) returns (s': State)
    requires Clean(s, Key, seen) && GoodMembers(valid, members, seen)
    ensures Reads(valid, s, MembersText(members) + [RBRACE], s', BodyOf(members))
    ensures s'.At? && Clean(s', Done, s'.keys) && (BODY in s'.keys <==> BODY in seen || HasBody(members))
    decreases |members|
  {
    NamesAgree();
    var m := members[0];
    var name := Decode(m.name).value;
    BodyCons(valid, members, seen);
    if |members| == 1 {
      s' := Stopped(Named(s, seen, name), RBRACE);
      ReadsMember(valid, s, seen, m, RBRACE);
      assert BodyOf(members[1..]) == [] && MemberBody(m) + [] == MemberBody(m);
    } else {
      var s1 := Stopped(Named(s, seen, name), COMMA);
      ReadsMember(valid, s, seen, m, COMMA);
      s' := ReadsMembers(valid, s1, seen + {name}, members[1..]);
      var first, rest := MemberText(m) + [COMMA], MembersText(members[1..]) + [RBRACE];
      Then(valid, s, first, s1, MemberBody(m), rest, s', BodyOf(members[1..]));
      assert MembersText(members) + [RBRACE] == first + rest;
    }
  }

  /** Reading the text of a candidate: the body comes out decoded, and nothing of the other fields. */
  lemma ReadsCandidate(valid: Str -> bool, c: Candidate) returns (s: State)
    requires GoodCandidate(valid, c)
    ensures Feed(valid, INITIAL, CandidateText(c)) == (s, BodyOf(c.members))
    ensures s.At? && s.phase.Done? && (BODY in s.keys <==> HasBody(c.members))
  {
    var s1, body := INITIAL.(phase := Key), BodyOf(c.members);
    var middle := MembersText(c.members) + [RBRACE];
    ReadsSpaces(valid, INITIAL, c.lead);
    ReadsUnit(valid, INITIAL, LBRACE);
    s := ReadsMembers(valid, s1, {}, c.members);
    ReadsSpaces(valid, s, c.trail);
    Silently(valid, INITIAL, c.lead, INITIAL, [LBRACE], s1);
    Then(valid, INITIAL, c.lead + [LBRACE], s1, [], middle, s, body);
    assert [] + body == body && body + [] == body;
    Then(valid, INITIAL, c.lead + [LBRACE] + middle, s, body, c.trail, s, []);
    assert CandidateText(c) == c.lead + [LBRACE] + middle + c.trail;
    ReadsIs(valid, INITIAL, CandidateText(c), s, body);
  }
}
