/** Nothing but a candidate is ever accepted: a text that ends the automaton in `done` parses by the grammar. */
module PreviewAccept {
  import opened Folding
  import opened Text
  import opened JsonString
  import opened Preview
  import opened PreviewGrammar
  import opened PreviewProofs

  /** The text takes s to the end; folded like Reads. */
  ghost predicate Finishes(valid: Str -> bool, s: State, text: Str) {
    forall n: nat :: Unfolding(n) ==>
      var s' := Feed(valid, s, text).0;
      s'.At? && s'.phase.Done?
  }

  lemma FinishUnit(valid: Str -> bool, s: State, text: Str)
    requires text != [] && Finishes(valid, s, text)
    ensures Finishes(valid, Step(valid, s, [text[0]]).0, text[1..])
    ensures Step(valid, s, [text[0]]).0.At?
  {
    assert Unfolding(0);
    assert text[..1] == [text[0]];
    FeedBroken(valid, text[1..]);
  }

  lemma FinishEmpty(valid: Str -> bool, s: State, text: Str)
    requires s.At? && !s.phase.Done? && Finishes(valid, s, text)
    ensures text != []
  {
    assert Unfolding(0);
  }

  lemma FinishAfter(valid: Str -> bool, s: State, a: Str, s1: State, o1: Str, b: Str)
    requires Reads(valid, s, a, s1, o1) && Finishes(valid, s, a + b)
    ensures Finishes(valid, s1, b)
  {
    assert Unfolding(0);
    FeedConcat(valid, s, a, b);
  }

  lemma SplitAt(text: Str, n: nat)
    requires n < |text|
    ensures text == text[..n] + [text[n]] + text[n + 1..]
  {
  }

  lemma Shift(text: Str, k: nat, n: nat)
    requires k + n < |text|
    ensures text[..k + n] == text[..k] + text[k..][..n]
    ensures text[k..][n] == text[k + n] && text[k..][n..] == text[k + n..] && text[k..][n + 1..] == text[k + n + 1..]
  {
  }

  /** Skips the white space in front. */
  lemma {:induction false} Trim(text: Str) returns (n: nat)
    ensures n <= |text| && Spaces(text[..n]) && (n < |text| ==> !White(text[n]))
    decreases |text|
  {
    if text == [] || !White(text[0]) {
      n := 0;
    } else {
      n := Trim(text[1..]);
      assert text[..n + 1] == [text[0]] + text[1..][..n];
      n := n + 1;
    }
  }

  /** After white space the text goes on with a character that the phase accepts. */
  lemma AfterSpaces(valid: Str -> bool, s: State, text: Str) returns (n: nat)
    requires s.At? && !s.phase.Body? && !s.phase.Skip? && !s.phase.Done? && (s.phase.Key? ==> s.token == [])
    requires Finishes(valid, s, text)
    ensures n < |text| && Spaces(text[..n]) && !White(text[n])
    ensures Finishes(valid, s, text[n..])
    ensures Finishes(valid, Step(valid, s, [text[n]]).0, text[n + 1..]) && Step(valid, s, [text[n]]).0.At?
  {
    n := Trim(text);
    assert text == text[..n] + text[n..];
    ReadsSpaces(valid, s, text[..n]);
    FinishAfter(valid, s, text[..n], s, [], text[n..]);
    FinishEmpty(valid, s, text[n..]);
    FinishUnit(valid, s, text[n..]);
    assert text[n..][1..] == text[n + 1..];
  }

  lemma {:induction false} TrailingSpaces(valid: Str -> bool, s: State, text: Str)
    requires s.At? && s.phase.Done? && Finishes(valid, s, text)
    ensures Spaces(text)
    decreases |text|
  {
    if text != [] {
      FinishUnit(valid, s, text);
      TrailingSpaces(valid, s, text[1..]);
      assert text == [text[0]] + text[1..];
    }
  }

  /** Quoted content goes on for one unit, an escape for two. */
  lemma QuotedStep(valid: Str -> bool, s: State, text: Str) returns (k: nat)
    requires s.At? && !s.escaped && ((s.phase.Key? && s.token != []) || (s.phase.Skip? && s.quoted))
    requires text != [] && text[0] != QUOTE && Finishes(valid, s, text)
    ensures 1 <= k <= 2 && k <= |text| && (k == 2 <==> text[0] == BACKSLASH)
    ensures Finishes(valid, Took(s, text[..k]), text[k..])
  {
    var u := text[0];
    FinishUnit(valid, s, text);
    var t := Took(s, [u]);
    var s1 := t.(escaped := u == BACKSLASH);
    if s.phase.Key? { NameUnit(valid, s, u); } else { SkipUnit(valid, s, u); }
    k := 1;
    assert text[..1] == [u];
    if u == BACKSLASH {
      k := 2;
      FinishEmpty(valid, s1, text[1..]);
      FinishUnit(valid, s1, text[1..]);
      if s.phase.Key? { NameUnit(valid, s1, text[1]); } else { SkipUnit(valid, s1, text[1]); }
      TookTwice(s, [u], [text[1]]);
      assert text[..2] == [u] + [text[1]] && text[1..][1..] == text[2..];
    }
  }

  lemma QuotedMore(text: Str, k: nat, m: nat)
    requires k + m < |text| && IsQuoted(text[k..][..m]) && text[0] != QUOTE
    requires k == if text[0] == BACKSLASH then 2 else 1
    ensures IsQuoted(text[..k + m])
  {
    var all := text[..k + m];
    assert all[k..] == text[k..][..m];
  }

  /** A name, or a string inside a skipped value, ends at its first bare quote. */
  lemma {:induction false} QuotedEnds(valid: Str -> bool, s: State, text: Str) returns (n: nat)
    requires s.At? && !s.escaped && ((s.phase.Key? && s.token != []) || (s.phase.Skip? && s.quoted))
    requires Finishes(valid, s, text)
    ensures n < |text| && IsQuoted(text[..n]) && text[n] == QUOTE
    ensures Finishes(valid, Took(s, text[..n]), text[n..])
    decreases |text|
  {
    FinishEmpty(valid, s, text);
    if text[0] == QUOTE {
      n := 0;
      TookNothing(s);
      assert text[0..] == text && text[..0] == [];
    } else {
      var k := QuotedStep(valid, s, text);
      var m := QuotedEnds(valid, Took(s, text[..k]), text[k..]);
      n := k + m;
      Shift(text, k, m);
      QuotedMore(text, k, m);
      TookTwice(s, text[..k], text[k..][..m]);
    }
  }

  lemma StringEnds(valid: Str -> bool, s: State, text: Str) returns (n: nat)
    requires s.At? && s.phase.Skip? && s.quoted && !s.escaped && Finishes(valid, s, text)
    ensures n < |text| && IsQuoted(text[..n]) && text[n] == QUOTE
    ensures Finishes(valid, Unquoted(Took(s, text[..n])), text[n + 1..])
  {
    n := QuotedEnds(valid, s, text);
    var t := Took(s, text[..n]);
    FinishUnit(valid, t, text[n..]);
    SkipUnit(valid, t, QUOTE);
    assert text[n..][1..] == text[n + 1..];
  }

  lemma DecodeCons(text: Str, k: nat, n: nat)
    requires text != [] && FirstUnit(text).Some? && k == FirstUnit(text).value.1 <= n <= |text|
    requires Decode(text[k..n]).Some?
    ensures Decode(text[..n]) == Some([FirstUnit(text).value.0] + Decode(text[k..n]).value)
  {
    assert FirstUnit(text[..n]) == FirstUnit(text);
    assert text[..n][k..] == text[k..n];
  }

  /** The body ends at its first bare quote, is decodable, and leaves no surrogate held back. */
  lemma {:induction false} BodyEnds(valid: Str -> bool, s: State, text: Str) returns (n: nat)
    requires s.At? && s.phase.Body? && s.escape == []
    requires Finishes(valid, s, text)
    ensures n < |text| && text[n] == QUOTE && Decode(text[..n]).Some?
    ensures AppendUnits(s.high, Decode(text[..n]).value).0 == []
    ensures Finishes(valid, s.(phase := Separator, high := []), text[n + 1..])
    decreases |text|
  {
    FinishEmpty(valid, s, text);
    if text[0] == QUOTE {
      n := 0;
      FinishUnit(valid, s, text);
      assert text[..0] == [] && [text[0]] == [QUOTE];
    } else {
      BodyUnitSound(valid, s, text);
      var (u, k) := FirstUnit(text).value;
      var (h, o) := AppendChar(s.high, [u]);
      ReadsOne(valid, s, text);
      assert text == text[..k] + text[k..];
      FinishAfter(valid, s, text[..k], s.(high := h), o, text[k..]);
      var m := BodyEnds(valid, s.(high := h), text[k..]);
      n := k + m;
      Shift(text, k, m);
      assert text[k..][..m] == text[k..n];
      DecodeCons(text, k, n);
      AppendUnitsCons(s.high, u, Decode(text[k..n]).value);
    }
  }

  /** An ill-formed escape, a control character or an escape cut short never finishes. */
  lemma BodyUnitSound(valid: Str -> bool, s: State, text: Str)
    requires s.At? && s.phase.Body? && s.escape == [] && text != [] && text[0] != QUOTE
    requires Finishes(valid, s, text)
    ensures FirstUnit(text).Some?
  {
    FinishUnit(valid, s, text);
    assert [text[0]][0] == text[0] && [QUOTE][0] == QUOTE;
    if text[0] == BACKSLASH {
      var s1, rest := s.(escape := [BACKSLASH]), text[1..];
      assert Step(valid, s, [text[0]]).0 == s1;
      FinishEmpty(valid, s1, rest);
      if text[1] == LETTER_U {
        HexEscapeSound(valid, s, text, 1);
      } else if SimpleEscape(text[1]).None? {
        assert FirstUnit([BACKSLASH] + [rest[0]]).None?;
        FinishUnit(valid, s1, rest);
      }
    }
  }

  lemma {:induction false} HexEscapeSound(valid: Str -> bool, s: State, text: Str, n: nat)
    requires s.At? && s.phase.Body? && 1 <= n <= 5 && |text| >= 2 && text[0] == BACKSLASH && text[1] == LETTER_U
    requires n <= |text| && Finishes(valid, s.(escape := text[..n]), text[n..])
    ensures IsHexEscape(text)
    decreases 6 - n
  {
    var s1, rest := s.(escape := text[..n]), text[n..];
    FinishEmpty(valid, s1, rest);
    FinishUnit(valid, s1, rest);
    var e := text[..n] + [rest[0]];
    assert e == text[..n + 1] && rest[1..] == text[n + 1..];
    if n < 5 {
      assert StepBody(s1, [rest[0]]) == (s.(escape := e), []);
      HexEscapeSound(valid, s, text, n + 1);
    } else {
      assert FirstUnit(e).Some?;
    }
  }

  lemma SegmentEnds(valid: Str -> bool, s: State, text: Str) returns (g: Segment, k: nat)
    requires s.At? && s.phase.Skip? && !s.quoted && !s.escaped && s.depth >= 0
    requires Finishes(valid, s, text) && text != []
    requires s.depth == 0 ==> text[0] != COMMA && text[0] != RBRACE
    ensures GoodSegment(g) && 0 < k <= |text| && text[..k] == SegmentText(g) && s.depth + Change(g) >= 0
    ensures g == Plain(COMMA) || g == Plain(RBRACE) ==> s.depth > 0
    ensures Finishes(valid, Skipped(s, SegmentText(g), Change(g)), text[k..])
  {
    var u := text[0];
    FinishUnit(valid, s, text);
    assert [u][0] == u && [RBRACE][0] == RBRACE && [RBRACKET][0] == RBRACKET && [COMMA][0] == COMMA && [QUOTE][0] == QUOTE;
    if u == QUOTE {
      var s1 := s.(token := s.token + [QUOTE], quoted := true);
      var n := StringEnds(valid, s1, text[1..]);
      g, k := Quoted(text[1..][..n]), n + 2;
      UnquotedIs(s, g.content);
      Shift(text, 1, n);
      assert text[..k] == [QUOTE] + text[1..][..n] + [QUOTE];
    } else {
      g, k := Plain(u), 1;
      if s.depth + Change(g) >= 0 { StepPlain(valid, s, u); }
      assert text[..1] == [u];
    }
  }

  /** The first n units of text are a value that ends there. */
  ghost predicate EndsAt(valid: Str -> bool, s: State, text: Str, value: seq<Segment>, n: nat)
    requires s.At? && s.depth >= 0
  {
    && n < |text| && text[..n] == ValueText(value) && Nested(value, s.depth)
    && (text[n] == COMMA || text[n] == RBRACE)
    && Finishes(valid, Skipped(s, ValueText(value), -s.depth), text[n..])
  }

  /** A fold of its own, so that unfolding one leaves the other alone. */
  predicate Opening(n: nat) { true }

  ghost predicate Ends(valid: Str -> bool, s: State, text: Str, value: seq<Segment>, n: nat)
    requires s.At? && s.depth >= 0
  {
    forall i: nat :: Opening(i) ==> EndsAt(valid, s, text, value, n)
  }

  lemma EndsNow(valid: Str -> bool, s: State, text: Str)
    requires s.At? && s.depth == 0 && text != [] && (text[0] == COMMA || text[0] == RBRACE) && Finishes(valid, s, text)
    ensures Ends(valid, s, text, [], 0)
  {
    assert s.token + [] == s.token && text[0..] == text;
  }

  lemma EndsLater(valid: Str -> bool, s: State, text: Str, g: Segment, k: nat, rest: seq<Segment>, m: nat)
    requires s.At? && s.depth >= 0 && k <= |text|
    requires GoodSegment(g) && text[..k] == SegmentText(g) && s.depth + Change(g) >= 0
    requires g == Plain(COMMA) || g == Plain(RBRACE) ==> s.depth > 0
    requires Ends(valid, Skipped(s, SegmentText(g), Change(g)), text[k..], rest, m)
    ensures Ends(valid, s, text, [g] + rest, k + m)
  {
    assert Opening(0);
    assert ([g] + rest)[1..] == rest;
    Shift(text, k, m);
    SkippedTwice(s, SegmentText(g), Change(g), ValueText(rest), -(s.depth + Change(g)));
  }

  /** A skipped value ends at the first comma or closing brace outside brackets and strings. */
  lemma {:induction false} ValueEnds(valid: Str -> bool, s: State, text: Str) returns (value: seq<Segment>, n: nat)
    requires s.At? && s.phase.Skip? && !s.quoted && !s.escaped && s.depth >= 0
    requires Finishes(valid, s, text)
    ensures Ends(valid, s, text, value, n)
    decreases |text|
  {
    FinishEmpty(valid, s, text);
    if s.depth == 0 && (text[0] == COMMA || text[0] == RBRACE) {
      value, n := [], 0;
      EndsNow(valid, s, text);
    } else {
      var g, k := SegmentEnds(valid, s, text);
      var rest, m := ValueEnds(valid, Skipped(s, SegmentText(g), Change(g)), text[k..]);
      value, n := [g] + rest, k + m;
      EndsLater(valid, s, text, g, k, rest, m);
    }
  }

  /** A quoted name, allowed and new. */
  lemma TokenParses(valid: Str -> bool, s: State, text: Str) returns (n: nat)
    requires s.At? && s.phase.Key? && s.token == [QUOTE] && !s.escaped && Finishes(valid, s, text)
    ensures n < |text| && text[n] == QUOTE && Decode(text[..n]).Some?
    ensures Decode(text[..n]).value in ALLOWED && Decode(text[..n]).value !in s.keys
    ensures Finishes(valid, Keyed(s, s.keys, Decode(text[..n]).value), text[n + 1..])
  {
    n := QuotedEnds(valid, s, text);
    var t := Took(s, text[..n]);
    FinishUnit(valid, t, text[n..]);
    assert text[n..][1..] == text[n + 1..];
    var token := t.token + [QUOTE];
    assert token[1..|token| - 1] == text[..n];
    assert StepKey(t, [QUOTE]).At?;
  }

  lemma ColonParses(valid: Str -> bool, s: State, text: Str) returns (b: nat, c: nat)
    requires s.At? && s.phase.Colon? && Finishes(valid, s, text)
    ensures b < c < |text| && text[b] == COLON && Spaces(text[..b]) && Spaces(text[b + 1..c]) && !White(text[c])
    ensures Finishes(valid, s.(phase := Value), text[c..])
  {
    b := AfterSpaces(valid, s, text);
    var rest := text[b + 1..];
    assert [text[b]][0] == text[b] && [COLON][0] == COLON;
    var n := AfterSpaces(valid, s.(phase := Value), rest);
    c := b + 1 + n;
    assert text[b + 1..c] == rest[..n] && text[c..] == rest[n..];
  }

  lemma OpeningQuote(valid: Str -> bool, s: State, text: Str) returns (a: nat)
    requires s.At? && s.phase.Key? && s.token == [] && Finishes(valid, s, text)
    ensures a < |text| && Spaces(text[..a]) && text[a] == QUOTE
    ensures Finishes(valid, s.(token := [QUOTE]), text[a + 1..])
  {
    a := AfterSpaces(valid, s, text);
    assert [text[a]][0] == text[a] && [QUOTE][0] == QUOTE && s.token + [text[a]] == [text[a]];
  }

  lemma NamePieces(text: Str, a: nat, n: nat, b: nat, c: nat)
    requires a < |text| && text[a] == QUOTE
    requires var t1 := text[a + 1..]; n < |t1| && t1[n] == QUOTE && (var t2 := t1[n + 1..]; b < c < |t2| && t2[b] == COLON)
    ensures var t1 := text[a + 1..]; var t2 := t1[n + 1..];
            text == text[..a] + ([QUOTE] + t1[..n] + [QUOTE]) + t2[..b] + [COLON] + t2[b + 1..c] + t2[c..]
  {
    var t1 := text[a + 1..];
    var t2 := t1[n + 1..];
    assert t2 == t2[..b] + [COLON] + t2[b + 1..c] + t2[c..];
    SplitAt(t1, n);
    SplitAt(text, a);
  }

  /** The white space, name and colon of a member; the value is still to come. */
  lemma NameParses(valid: Str -> bool, s: State, seen: set<Str>, text: Str) returns (m: Member, rest: Str)
    requires Clean(s, Key, seen) && Finishes(valid, s, text)
    ensures text == NameText(m) + rest && GoodName(m, seen) && rest != [] && !White(rest[0])
    ensures Finishes(valid, Named(s, seen, Decode(m.name).value), rest)
  {
    var a := OpeningQuote(valid, s, text);
    var t1, s1 := text[a + 1..], s.(token := [QUOTE]);
    var n := TokenParses(valid, s1, t1);
    var t2, name := t1[n + 1..], t1[..n];
    var b, c := ColonParses(valid, Keyed(s1, seen, Decode(name).value), t2);
    m, rest := OtherMember(text[..a], name, t2[..b], t2[b + 1..c], []), t2[c..];
    NamePieces(text, a, n, b, c);
  }

  predicate GoodName(m: Member, seen: set<Str>) {
    && Spaces(m.pre) && Spaces(m.mid) && Spaces(m.gap)
    && Decode(m.name).Some? && Decode(m.name).value in ALLOWED && Decode(m.name).value !in seen
  }

  lemma FirstParses(valid: Str -> bool, s: State, text: Str) returns (g: Segment, k: nat)
    requires Clean(s, Value, if s.At? then s.keys else {}) && s.key != BODY
    requires text != [] && !White(text[0]) && Finishes(valid, s, text)
    ensures GoodSegment(g) && (g.Plain? ==> !White(g.u)) && 0 < k <= |text| && text[..k] == SegmentText(g)
    ensures Finishes(valid, First(s, g), text[k..])
  {
    var u := text[0];
    FinishUnit(valid, s, text);
    assert [u][0] == u && [QUOTE][0] == QUOTE;
    if u == QUOTE {
      var s1 := s.(phase := Skip, token := [QUOTE], quoted := true);
      var n := StringEnds(valid, s1, text[1..]);
      g, k := Quoted(text[1..][..n]), n + 2;
      Shift(text, 1, n);
      assert text[..k] == [QUOTE] + text[1..][..n] + [QUOTE];
    } else {
      g, k := Plain(u), 1;
      assert text[..1] == [u];
    }
  }

  lemma StopParses(valid: Str -> bool, s: State, value: Str, text: Str)
    requires Clean(s, Value, if s.At? then s.keys else {})
    requires text != [] && (text[0] == COMMA || text[0] == RBRACE)
    requires Finishes(valid, s.(phase := Skip, token := value), text)
    ensures valid(value) && Finishes(valid, Stopped(s, text[0]), text[1..])
  {
    FinishUnit(valid, s.(phase := Skip, token := value), text);
    assert [text[0]][0] == text[0] && [COMMA][0] == COMMA && [RBRACE][0] == RBRACE;
  }

  /** From the first character of a skipped value to the comma or brace that ends it. */
  lemma SkipParses(valid: Str -> bool, s: State, text: Str) returns (value: seq<Segment>, n: nat)
    requires Clean(s, Value, if s.At? then s.keys else {}) && s.key != BODY
    requires text != [] && !White(text[0]) && Finishes(valid, s, text)
    ensures n < |text| && text[..n] == ValueText(value) && GoodValue(value) && valid(ValueText(value))
    ensures text[n] == COMMA || text[n] == RBRACE
    ensures Finishes(valid, Stopped(s, text[n]), text[n + 1..])
  {
    var g, k := FirstParses(valid, s, text);
    var s1 := First(s, g);
    var rest, m := ValueEnds(valid, s1, text[k..]);
    assert Opening(0);
    value, n := [g] + rest, k + m;
    Shift(text, k, m);
    assert value[1..] == rest;
    assert Skipped(s1, ValueText(rest), -s1.depth) == s.(phase := Skip, token := ValueText(value));
    StopParses(valid, s, ValueText(value), text[n..]);
    assert text[n..][1..] == text[n + 1..];
  }

  /** From the quote that opens the body to the comma or brace after it. */
  lemma BodyParses(valid: Str -> bool, s: State, text: Str) returns (n: nat, e: nat)
    requires Clean(s, Value, if s.At? then s.keys else {}) && s.key == BODY
    requires text != [] && !White(text[0]) && Finishes(valid, s, text)
    ensures 1 <= n < e < |text| && text[0] == QUOTE && text[n] == QUOTE && Spaces(text[n + 1..e])
    ensures Decode(text[1..n]).Some? && !Dangling(Decode(text[1..n]).value)
    ensures text[e] == COMMA || text[e] == RBRACE
    ensures Finishes(valid, Stopped(s, text[e]), text[e + 1..])
  {
    FinishUnit(valid, s, text);
    assert [text[0]][0] == text[0] && [QUOTE][0] == QUOTE;
    var t1 := text[1..];
    var m := BodyEnds(valid, s.(phase := Body), t1);
    n := m + 1;
    Shift(text, 1, m);
    assert t1[..m] == text[1..n];
    HeldBack(Decode(text[1..n]).value);
    var t2 := text[n + 1..];
    var p := AfterSpaces(valid, s.(phase := Separator), t2);
    e := n + 1 + p;
    assert t2[..p] == text[n + 1..e] && t2[p + 1..] == text[e + 1..];
    assert [text[e]][0] == text[e] && [COMMA][0] == COMMA && [RBRACE][0] == RBRACE;
  }

  lemma BodyPieces(rest: Str, n: nat, e: nat)
    requires 1 <= n < e < |rest| && rest[0] == QUOTE && rest[n] == QUOTE
    ensures rest == [QUOTE] + rest[1..n] + [QUOTE] + rest[n + 1..e] + [rest[e]] + rest[e + 1..]
  {
  }

  lemma BodyRest(valid: Str -> bool, s: State, seen: set<Str>, m0: Member, rest: Str)
    returns (m: Member, stop: Unit, tail: Str)
    requires GoodName(m0, seen) && Clean(s, Value, if s.At? then s.keys else {}) && s.key == Decode(m0.name).value == BODY
    requires rest != [] && !White(rest[0]) && Finishes(valid, s, rest)
    ensures GoodMember(valid, m, seen) && NameText(m) == NameText(m0) && m.name == m0.name
    ensures (stop == COMMA || stop == RBRACE) && rest == RestText(m) + [stop] + tail
    ensures Finishes(valid, Stopped(s, stop), tail)
  {
    NamesAgree();
    var n, e := BodyParses(valid, s, rest);
    m := BodyMember(m0.pre, m0.name, m0.mid, m0.gap, rest[1..n], rest[n + 1..e]);
    stop, tail := rest[e], rest[e + 1..];
    BodyPieces(rest, n, e);
  }

  lemma OtherRest(valid: Str -> bool, s: State, seen: set<Str>, m0: Member, rest: Str)
    returns (m: Member, stop: Unit, tail: Str)
    requires GoodName(m0, seen) && Clean(s, Value, if s.At? then s.keys else {}) && s.key == Decode(m0.name).value != BODY
    requires rest != [] && !White(rest[0]) && Finishes(valid, s, rest)
    ensures GoodMember(valid, m, seen) && NameText(m) == NameText(m0) && m.name == m0.name
    ensures (stop == COMMA || stop == RBRACE) && rest == RestText(m) + [stop] + tail
    ensures Finishes(valid, Stopped(s, stop), tail)
  {
    NamesAgree();
    var value, n := SkipParses(valid, s, rest);
    m := OtherMember(m0.pre, m0.name, m0.mid, m0.gap, value);
    stop, tail := rest[n], rest[n + 1..];
    SplitAt(rest, n);
  }

  lemma MemberPieces(name: Str, rest: Str, stop: Unit, tail: Str)
    ensures name + (rest + [stop] + tail) == (name + rest) + [stop] + tail
  {
  }

  lemma MemberParses(valid: Str -> bool, s: State, seen: set<Str>, text: Str) returns (m: Member, stop: Unit, tail: Str)
    requires Clean(s, Key, seen) && Finishes(valid, s, text)
    ensures GoodMember(valid, m, seen) && (stop == COMMA || stop == RBRACE) && text == MemberText(m) + [stop] + tail
    ensures Finishes(valid, Stopped(Named(s, seen, Decode(m.name).value), stop), tail)
  {
    var m0, rest := NameParses(valid, s, seen, text);
    var s1 := Named(s, seen, Decode(m0.name).value);
    if s1.key == BODY {
      m, stop, tail := BodyRest(valid, s1, seen, m0, rest);
    } else {
      m, stop, tail := OtherRest(valid, s1, seen, m0, rest);
    }
    MemberPieces(NameText(m), RestText(m), stop, tail);
  }

  /** The text is members, the closing brace and white space. */
  predicate Parsed(valid: Str -> bool, seen: set<Str>, text: Str, members: seq<Member>, tail: Str) {
    GoodMembers(valid, members, seen) && text == MembersText(members) + [RBRACE] + tail && Spaces(tail)
  }

  lemma ParsedCons(valid: Str -> bool, seen: set<Str>, text: Str, m: Member, rest: Str, others: seq<Member>, tail: Str)
    requires GoodMember(valid, m, seen) && text == MemberText(m) + [COMMA] + rest
    requires Parsed(valid, seen + {Decode(m.name).value}, rest, others, tail)
    ensures Parsed(valid, seen, text, [m] + others, tail)
  {
    assert ([m] + others)[1..] == others;
    assert text == (MemberText(m) + [COMMA] + MembersText(others)) + [RBRACE] + tail;
  }

  lemma {:induction false} MembersParse(valid: Str -> bool, s: State, seen: set<Str>, text: Str)
      returns (members: seq<Member>, tail: Str)
    requires Clean(s, Key, seen) && Finishes(valid, s, text)
    ensures Parsed(valid, seen, text, members, tail)
    decreases |text|
  {
    var m, stop, rest := MemberParses(valid, s, seen, text);
    var name := Decode(m.name).value;
    var s1 := Stopped(Named(s, seen, name), stop);
    if stop == RBRACE {
      TrailingSpaces(valid, s1, rest);
      members, tail := [m], rest;
    } else {
      var others;
      others, tail := MembersParse(valid, s1, seen + {name}, rest);
      members := [m] + others;
      ParsedCons(valid, seen, text, m, rest, others, tail);
    }
  }

  lemma OpeningBrace(valid: Str -> bool, text: Str) returns (a: nat)
    requires Finishes(valid, INITIAL, text)
    ensures a < |text| && Spaces(text[..a]) && text[a] == LBRACE
    ensures Finishes(valid, INITIAL.(phase := Key), text[a + 1..])
  {
    a := AfterSpaces(valid, INITIAL, text);
    assert [text[a]][0] == text[a] && [LBRACE][0] == LBRACE;
  }

  lemma OnlyCandidates(valid: Str -> bool, text: Str) returns (c: Candidate)
    requires Finishes(valid, INITIAL, text)
    ensures GoodCandidate(valid, c) && text == CandidateText(c)
  {
    var a := OpeningBrace(valid, text);
    var members, tail := MembersParse(valid, INITIAL.(phase := Key), {}, text[a + 1..]);
    c := Candidate(text[..a], members, tail);
    SplitAt(text, a);
  }

  /** A text that reaches `done` is the text of a candidate. */
  lemma Accepted(valid: Str -> bool, text: Str) returns (c: Candidate)
    requires var s := Feed(valid, INITIAL, text).0; s.At? && s.phase.Done?
    ensures GoodCandidate(valid, c) && text == CandidateText(c)
  {
    c := OnlyCandidates(valid, text);
  }
}
