/** What the parser delivers for a candidate that arrives in pieces. */
module PreviewTheorems {
  import opened Folding
  import opened Text
  import opened JsonString
  import opened Preview
  import opened PreviewGrammar
  import opened PreviewProofs
  import opened PreviewAccept

  function Concat(chunks: seq<Str>): Str {
    if chunks == [] then [] else chunks[0] + Concat(chunks[1..])
  }

  /** The state after, and the output of, one call of `push` for each chunk. */
  function PushAll(valid: Str -> bool, size: nat, s: State, chunks: seq<Str>): (State, seq<Str>)
    decreases |chunks|
  {
    if chunks == [] then (s, [])
    else
      var (s1, o) := Pushed(valid, size, s, chunks[0]);
      var (s2, os) := PushAll(valid, size + |chunks[0]|, s1, chunks[1..]);
      (s2, [o] + os)
  }

  /** Pushing the chunks takes s to s' and puts out output; folded like Reads. */
  ghost predicate Pushes(valid: Str -> bool, size: nat, s: State, chunks: seq<Str>, s': State, output: Str) {
    forall n: nat :: Unfolding(n) ==>
      PushAll(valid, size, s, chunks).0 == s' && Concat(PushAll(valid, size, s, chunks).1) == output
  }

  lemma PushesIs(valid: Str -> bool, size: nat, s: State, chunks: seq<Str>, s': State, output: Str)
    ensures Pushes(valid, size, s, chunks, s', output)
       <==> PushAll(valid, size, s, chunks).0 == s' && Concat(PushAll(valid, size, s, chunks).1) == output
  {
    assert Unfolding(0);
  }

  lemma PushesCons(valid: Str -> bool, size: nat, s: State, a: Str, s1: State, o1: Str, chunks: seq<Str>, s2: State,
                   o2: Str)
    requires Pushed(valid, size, s, a) == (s1, o1) && Pushes(valid, size + |a|, s1, chunks, s2, o2)
    ensures Pushes(valid, size, s, [a] + chunks, s2, o1 + o2)
  {
    PushesIs(valid, size + |a|, s1, chunks, s2, o2);
    assert ([a] + chunks)[1..] == chunks;
    var os := PushAll(valid, size + |a|, s1, chunks).1;
    assert ([o1] + os)[1..] == os;
  }

  lemma {:induction false} StaysBroken(valid: Str -> bool, size: nat, chunks: seq<Str>)
    ensures Pushes(valid, size, Broken, chunks, Broken, [])
    decreases |chunks|
  {
    if chunks != [] {
      FeedBroken(valid, chunks[0]);
      StaysBroken(valid, size + |chunks[0]|, chunks[1..]);
      PushesCons(valid, size, Broken, chunks[0], Broken, [], chunks[1..], Broken, []);
      assert [chunks[0]] + chunks[1..] == chunks;
      var nothing: Str := [];
      assert nothing + nothing == nothing;
    }
  }

  /** One chunk, then the rest of the text. */
  lemma PushThenRead(valid: Str -> bool, size: nat, s: State, a: Str, s1: State, o1: Str, rest: Str, s2: State, o2: Str)
      returns (o: Str)
    requires size + |a| <= 256_000 && Pushed(valid, size, s, a) == (s1, o1) && Reads(valid, s1, rest, s2, o2)
    ensures Reads(valid, s, a + rest, s2, o) && o1 + o2 <= o && (s2.At? ==> o == o1 + o2)
  {
    var o1' := Feed(valid, s, a).1;
    o := o1' + o2;
    ReadsIs(valid, s, a, s1, o1');
    if s1.Broken? {
      FeedBroken(valid, rest);
      ReadsIs(valid, s1, rest, s2, o2);
    }
    Then(valid, s, a, s1, o1', rest, s2, o2);
  }

  /** Every split ends in the state of the whole text, with its output unless the text is refused. */
  lemma {:induction false} ChunksAgree(valid: Str -> bool, size: nat, s: State, chunks: seq<Str>)
      returns (s': State, output: Str, o: Str)
    requires size + |Concat(chunks)| <= 256_000
    ensures Pushes(valid, size, s, chunks, s', output) && Reads(valid, s, Concat(chunks), s', o)
    ensures output <= o && (s'.At? ==> output == o)
    decreases |chunks|
  {
    if chunks == [] {
      s', output, o := s, [], [];
      ReadsNothing(valid, s);
    } else {
      var a, rest := chunks[0], Concat(chunks[1..]);
      var (s1, o1) := Pushed(valid, size, s, a);
      var output2, o2;
      s', output2, o2 := ChunksAgree(valid, size + |a|, s1, chunks[1..]);
      output := o1 + output2;
      PushesCons(valid, size, s, a, s1, o1, chunks[1..], s', output2);
      assert [a] + chunks[1..] == chunks;
      o := PushThenRead(valid, size, s, a, s1, o1, rest, s', o2);
    }
  }

  lemma {:induction false} PushesMore(valid: Str -> bool, size: nat, s: State, chunks: seq<Str>, s1: State, o1: Str,
                                      later: seq<Str>, s2: State, o2: Str)
    requires Pushes(valid, size, s, chunks, s1, o1) && Pushes(valid, size + |Concat(chunks)|, s1, later, s2, o2)
    ensures Pushes(valid, size, s, chunks + later, s2, o1 + o2)
    decreases |chunks|
  {
    PushesIs(valid, size, s, chunks, s1, o1);
    if chunks == [] {
      assert chunks + later == later && o1 + o2 == o2;
    } else {
      var a, rest := chunks[0], chunks[1..];
      var (t, o) := Pushed(valid, size, s, a);
      var o' := Concat(PushAll(valid, size + |a|, t, rest).1);
      PushesIs(valid, size + |a|, t, rest, s1, o');
      PushesMore(valid, size + |a|, t, rest, s1, o', later, s2, o2);
      PushesCons(valid, size, s, a, t, o, rest + later, s2, o' + o2);
      PushesCons(valid, size, s, a, t, o, rest, s1, o');
      assert [a] + rest == chunks && [a] + (rest + later) == chunks + later;
      PushesIs(valid, size, s, chunks, s1, o + o');
      assert o + (o' + o2) == (o + o') + o2;
    }
  }

  /** A chunk in which the parser fails gives no output at all: what is out is what the chunks before it gave. */
  lemma {:induction false} FailsSilently(valid: Str -> bool, size: nat, s: State, chunks: seq<Str>) returns (k: nat)
    requires s.At? && PushAll(valid, size, s, chunks).0.Broken?
    ensures k < |chunks| && PushAll(valid, size, s, chunks[..k]).0.At?
    ensures Concat(PushAll(valid, size, s, chunks).1) == Concat(PushAll(valid, size, s, chunks[..k]).1)
    decreases |chunks|
  {
    var a, rest := chunks[0], chunks[1..];
    var (s1, o1) := Pushed(valid, size, s, a);
    var os := PushAll(valid, size + |a|, s1, rest).1;
    assert ([o1] + os)[1..] == os;
    if s1.Broken? {
      k := 0;
      StaysBroken(valid, size + |a|, rest);
      PushesIs(valid, size + |a|, Broken, rest, Broken, []);
      assert chunks[..0] == [];
    } else {
      var j := FailsSilently(valid, size + |a|, s1, rest);
      k := j + 1;
      assert chunks[..k][0] == a && chunks[..k][1..] == rest[..j];
      var front := PushAll(valid, size + |a|, s1, rest[..j]).1;
      assert ([o1] + front)[1..] == front;
    }
  }

  /** Once invalid, always invalid, and silent. */
  lemma {:induction false} InvalidIsFinal(valid: Str -> bool, size: nat, chunks: seq<Str>, later: seq<Str>)
    requires PushAll(valid, size, INITIAL, chunks).0.Broken?
    ensures PushAll(valid, size, INITIAL, chunks + later).0.Broken?
    ensures Concat(PushAll(valid, size, INITIAL, chunks + later).1) == Concat(PushAll(valid, size, INITIAL, chunks).1)
  {
    var output := Concat(PushAll(valid, size, INITIAL, chunks).1);
    PushesIs(valid, size, INITIAL, chunks, Broken, output);
    StaysBroken(valid, size + |Concat(chunks)|, later);
    PushesMore(valid, size, INITIAL, chunks, Broken, output, later, Broken, []);
    assert output + [] == output;
    PushesIs(valid, size, INITIAL, chunks + later, Broken, output);
  }

  lemma PushesCandidate(valid: Str -> bool, c: Candidate, chunks: seq<Str>) returns (s: State)
    requires GoodCandidate(valid, c) && Concat(chunks) == CandidateText(c) && |CandidateText(c)| <= 256_000
    ensures Pushes(valid, 0, INITIAL, chunks, s, BodyOf(c.members))
    ensures s.At? && s.phase.Done? && (BODY in s.keys <==> HasBody(c.members))
  {
    NamesAgree();
    var output, o;
    s, output, o := ChunksAgree(valid, 0, INITIAL, chunks);
    var s' := ReadsCandidate(valid, c);
    ReadsIs(valid, INITIAL, CandidateText(c), s, o);
  }

  /**
    Every candidate, cut anywhere into chunks: the parser ends in `done`, the outputs add up to the decoded
    body, and it is complete exactly when there is a body.
   */
  lemma {:induction false} CandidateDecoded(valid: Str -> bool, c: Candidate, chunks: seq<Str>)
    requires GoodCandidate(valid, c) && Concat(chunks) == CandidateText(c) && |CandidateText(c)| <= 256_000
    ensures var (s, outputs) := PushAll(valid, 0, INITIAL, chunks);
            && s.At? && s.phase.Done? && Concat(outputs) == BodyOf(c.members)
            && (BODY in s.keys <==> HasBody(c.members))
  {
    var s := PushesCandidate(valid, c, chunks);
    PushesIs(valid, 0, INITIAL, chunks, s, BodyOf(c.members));
  }

  /** Other fields never show: two candidates with the same body give the same output, however they are cut. */
  lemma {:induction false} OnlyTheBodyShows(valid: Str -> bool, a: Candidate, b: Candidate, achunks: seq<Str>,
                                            bchunks: seq<Str>)
    requires GoodCandidate(valid, a) && Concat(achunks) == CandidateText(a) && |CandidateText(a)| <= 256_000
    requires GoodCandidate(valid, b) && Concat(bchunks) == CandidateText(b) && |CandidateText(b)| <= 256_000
    requires BodyOf(a.members) == BodyOf(b.members)
    ensures Concat(PushAll(valid, 0, INITIAL, achunks).1) == Concat(PushAll(valid, 0, INITIAL, bchunks).1)
  {
    CandidateDecoded(valid, a, achunks);
    CandidateDecoded(valid, b, bchunks);
  }

  // ---- Arrays ----

  /** `{"body":"...","checks":[]}`, with the body's literal given. */
  function WithArray(literal: Str): Candidate {
    Candidate([], [BodyMember([], Spell("body"), [], [], literal, []),
                   OtherMember([], Spell("checks"), [], [], [Plain(UnitOf('[')), Plain(UnitOf(']'))])], [])
  }

  lemma {:induction false} PlainDecodes(word: string)
    requires forall i :: 0 <= i < |word| ==> 32 <= word[i] as int < 128 && word[i] != '"' && word[i] != '\\'
    ensures Decode(Spell(word)) == Some(Spell(word))
    decreases |word|
  {
    var s := Spell(word);
    if word != "" {
      PlainDecodes(word[1..]);
      assert s[1..] == Spell(word[1..]);
      assert FirstUnit(s) == Some((s[0], 1));
      assert s == [s[0]] + s[1..];
    } else {
      assert s == [];
    }
  }

  lemma PairText(a: Unit, b: Unit)
    ensures ValueText([Plain(a), Plain(b)]) == [a, b]
  {
    var pair := [Plain(a), Plain(b)];
    assert pair[1..] == [Plain(b)] && pair[1..][1..] == [];
    assert ValueText(pair[1..]) == [b] + [];
    assert [a] + ([b] + []) == [a, b];
  }

  lemma EmptyArray()
    ensures var value := [Plain(UnitOf('[')), Plain(UnitOf(']'))];
            GoodValue(value) && ValueText(value) == Spell("[]")
  {
    var open, close := UnitOf('['), UnitOf(']');
    var value := [Plain(open), Plain(close)];
    PairText(open, close);
    assert [open, close] == Spell("[]");
    assert value[1..] == [Plain(close)] && value[1..][1..] == [];
    assert Nested([], 0);
    assert Nested([Plain(close)], 1);
  }

  lemma ChecksIsName()
    ensures Decode(Spell("checks")) == Some(Spell("checks")) && Spell("checks") in NAMES && Spell("checks") != THE_BODY
  {
    PlainDecodes("checks");
    assert Spell("checks")[0] != THE_BODY[0];
  }

  lemma ArrayIsGood(valid: Str -> bool, m: Member)
    requires m == WithArray([]).members[1] && valid(Spell("[]"))
    ensures GoodMember(valid, m, {THE_BODY})
  {
    ChecksIsName();
    EmptyArray();
  }

  /** An array is skipped like any other value: the body comes out, and the candidate is complete. */
  lemma ArraysPass(valid: Str -> bool, literal: Str, chunks: seq<Str>)
    requires Decode(literal).Some? && !Dangling(Decode(literal).value) && valid(Spell("[]"))
    requires Concat(chunks) == CandidateText(WithArray(literal)) && |Concat(chunks)| <= 256_000
    ensures var (s, outputs) := PushAll(valid, 0, INITIAL, chunks);
            s.At? && s.phase.Done? && BODY in s.keys && Concat(outputs) == Decode(literal).value
  {
    var c := WithArray(literal);
    PlainDecodes("body");
    ArrayIsGood(valid, c.members[1]);
    assert c.members[1..] == [c.members[1]];
    assert {} + {THE_BODY} == {THE_BODY};
    assert c.members[0].BodyMember? && c.members[0] in c.members;
    CandidateDecoded(valid, c, chunks);
  }

  /** Candidates longer than 256,000 units are refused, however they are cut. */
  lemma {:induction false} TooLong(valid: Str -> bool, size: nat, s: State, chunks: seq<Str>)
    requires size <= 256_000 < size + |Concat(chunks)|
    ensures PushAll(valid, size, s, chunks).0.Broken?
    decreases |chunks|
  {
    var a, rest := chunks[0], chunks[1..];
    if size + |a| > 256_000 {
      StaysBroken(valid, size + |a|, rest);
      PushesIs(valid, size + |a|, Broken, rest, Broken, []);
    } else {
      TooLong(valid, size + |a|, Pushed(valid, size, s, a).0, rest);
    }
  }

  /** The parser reaches `done` on exactly the candidates of the grammar that have at most 256,000 units. */
  lemma {:induction false} AcceptsExactly(valid: Str -> bool, chunks: seq<Str>)
    ensures var s := PushAll(valid, 0, INITIAL, chunks).0;
            s.At? && s.phase.Done?
            <==> |Concat(chunks)| <= 256_000 && exists c :: GoodCandidate(valid, c) && CandidateText(c) == Concat(chunks)
  {
    if |Concat(chunks)| > 256_000 { TooLong(valid, 0, INITIAL, chunks); } else { AcceptsShort(valid, chunks); }
  }

  lemma {:induction false} AcceptsShort(valid: Str -> bool, chunks: seq<Str>)
    requires |Concat(chunks)| <= 256_000
    ensures var s := PushAll(valid, 0, INITIAL, chunks).0;
            s.At? && s.phase.Done? <==> exists c :: GoodCandidate(valid, c) && CandidateText(c) == Concat(chunks)
  {
    var s, output, o := ChunksAgree(valid, 0, INITIAL, chunks);
    PushesIs(valid, 0, INITIAL, chunks, s, output);
    if s.At? && s.phase.Done? {
      ReadsIs(valid, INITIAL, Concat(chunks), s, o);
      var c := Accepted(valid, Concat(chunks));
    }
    forall c | GoodCandidate(valid, c) && CandidateText(c) == Concat(chunks)
      ensures s.At? && s.phase.Done?
    {
      CandidateDecoded(valid, c, chunks);
    }
  }

  // ---- The strings that are refused ----

  /** After the quote that opens the body of a candidate whose first member it is. */
  lemma OpensBody(valid: Str -> bool, lead: Str, m: Member) returns (s: State)
    requires Spaces(lead) && Spaces(m.pre) && Spaces(m.mid) && Spaces(m.gap) && Decode(m.name) == Some(BODY)
    ensures Reads(valid, INITIAL, lead + [LBRACE] + NameText(m) + [QUOTE], s, [])
    ensures s.At? && s.phase.Body? && s.escape == [] && s.high == []
  {
    NamesAgree();
    var s1 := INITIAL.(phase := Key);
    var s2 := Named(s1, {}, BODY);
    s := s2.(phase := Body);
    ReadsSpaces(valid, INITIAL, lead);
    ReadsUnit(valid, INITIAL, LBRACE);
    ReadsName(valid, s1, {}, BodyMember(m.pre, m.name, m.mid, m.gap, [], []));
    ReadsUnit(valid, s2, QUOTE);
    Silently(valid, INITIAL, lead, INITIAL, [LBRACE], s1);
    Silently(valid, INITIAL, lead + [LBRACE], s1, NameText(m), s2);
    Silently(valid, INITIAL, lead + [LBRACE] + NameText(m), s2, [QUOTE], s);
  }

  lemma BreaksAtQuote(valid: Str -> bool, s: State, literal: Str) returns (o: Str)
    requires s.At? && s.phase.Body? && s.escape == [] && s.high == []
    requires Decode(literal).Some? && Dangling(Decode(literal).value)
    ensures Reads(valid, s, literal + [QUOTE], Broken, o)
  {
    var d := Decode(literal).value;
    HeldBack(d);
    ReadsLiteral(valid, s, literal);
    var s1, o1 := s.(high := AppendUnits([], d).0), AppendUnits([], d).1;
    ReadsUnit(valid, s1, QUOTE);
    o := o1 + Step(valid, s1, [QUOTE]).1;
    Then(valid, s, literal, s1, o1, [QUOTE], Broken, Step(valid, s1, [QUOTE]).1);
  }

  /**
   * A body that ends in an odd run of high surrogates, which `JSON.parse` accepts, is refused, however the text is cut
   * and whatever follows.
   */
  lemma DanglingRefused(valid: Str -> bool, lead: Str, m: Member, rest: Str, chunks: seq<Str>)
    requires Spaces(lead) && Spaces(m.pre) && Spaces(m.mid) && Spaces(m.gap) && Decode(m.name) == Some(BODY)
    requires m.BodyMember? && Decode(m.literal).Some? && Dangling(Decode(m.literal).value)
    requires Concat(chunks) == (lead + [LBRACE] + NameText(m) + [QUOTE]) + (m.literal + [QUOTE]) + rest
    requires |Concat(chunks)| <= 256_000
    ensures PushAll(valid, 0, INITIAL, chunks).0.Broken?
  {
    var s, output, o := ChunksAgree(valid, 0, INITIAL, chunks);
    var opening := lead + [LBRACE] + NameText(m) + [QUOTE];
    var s1 := OpensBody(valid, lead, m);
    var o1 := BreaksAtQuote(valid, s1, m.literal);
    Then(valid, INITIAL, opening, s1, [], m.literal + [QUOTE], Broken, o1);
    FeedBroken(valid, rest);
    ReadsIs(valid, Broken, rest, Broken, []);
    Then(valid, INITIAL, opening + (m.literal + [QUOTE]), Broken, [] + o1, rest, Broken, []);
    SameReading(valid, INITIAL, Concat(chunks), s, o, Broken, [] + o1 + []);
    PushesIs(valid, 0, INITIAL, chunks, s, output);
  }

  lemma SameReading(valid: Str -> bool, s: State, text: Str, a: State, o: Str, b: State, p: Str)
    requires Reads(valid, s, text, a, o) && Reads(valid, s, text, b, p)
    ensures a == b && o == p
  {
    ReadsIs(valid, s, text, a, o);
    ReadsIs(valid, s, text, b, p);
  }

  /** One lone high surrogate is such a body, and two are not. */
  lemma OddOrEven(u: Unit)
    requires IsHigh(u)
    ensures Decode([u]) == Some([u]) && Dangling([u]) && Decode([u, u]) == Some([u, u]) && !Dangling([u, u])
  {
    var nothing: Str := [];
    assert [u][1..] == nothing && [u] + nothing == [u];
    assert FirstUnit([u]) == Some((u, 1)) && Decode(nothing) == Some(nothing);
    assert Decode([u]) == Some([u] + nothing);
    assert FirstUnit([u, u]) == Some((u, 1)) && [u, u][1..] == [u] && [u] + [u] == [u, u];
    assert TrailingHighs([u]) == 1 by { assert [u][..0] == [] && TrailingHighs([u][..0]) == 0; }
    assert [u, u][..1] == [u];
  }

  /** What is held back continues what was released. */
  predicate Released(s: State, output: Str) {
    s.At? ==> AppendUnits([], output + s.high) == (s.high, output)
  }

  /** The unit that a step inside the body appends, if it appends one. */
  function Appended(s: State, u: Unit): Option<Unit>
    requires Sane(s) && s.At? && s.phase.Body?
  {
    var e := s.escape + [u];
    if s.escape == [] then if u == BACKSLASH || u == QUOTE then None else Some(u)
    else if IsPendingEscape(e) || Decode(e).None? || |Decode(e).value| != 1 then None
    else Some(Decode(e).value[0])
  }

  lemma BodyAppends(valid: Str -> bool, s: State, u: Unit)
    requires Sane(s) && s.At? && s.phase.Body?
    ensures var (s', o) := Step(valid, s, [u]);
            s'.At? ==> (s'.high, o) == match Appended(s, u) case None => (s.high, []) case Some(c) => AppendChar(s.high, [c])
  {
    var (s', o) := Step(valid, s, [u]);
    var e := s.escape + [u];
    if s.escape == [] {
      if s'.At? && u != BACKSLASH && u != QUOTE { AppendOne(s.high, [u]); }
    } else if s'.At? && !IsPendingEscape(e) {
      assert e[..|e| - 1] == s.escape;
      DecodeSingle(e);
      var text := Decode(e).value;
      assert text == [text[0]];
      AppendOne(s.high, text);
    }
  }

  lemma StepReleases(valid: Str -> bool, s: State, u: Unit, output: Str)
    requires Sane(s) && Released(s, output)
    ensures var (s', o) := Step(valid, s, [u]);
            Released(s', output + o)
  {
    var (s', o) := Step(valid, s, [u]);
    if s'.At? {
      if s.phase.Body? {
        BodyAppends(valid, s, u);
        var c := Appended(s, u);
        if c.Some? { ReleaseUnit(s.high, c.value, output); }
      }
      assert o == [] ==> output + o == output;
    }
  }

  lemma ReleaseUnit(high: Str, u: Unit, output: Str)
    requires |high| <= 1 && AppendUnits([], output + high) == (high, output)
    ensures var (h, o) := AppendChar(high, [u]);
            AppendUnits([], (output + o) + h) == (h, output + o)
  {
    var (h, o) := AppendChar(high, [u]);
    AppendCharKeeps(high, u);
    AppendUnitsSnoc([], output + high, u);
    assert (output + o) + h == (output + high) + [u];
  }

  lemma {:induction false} FeedReleases(valid: Str -> bool, s: State, text: Str, output: Str)
    requires Sane(s) && Released(s, output)
    ensures var (s', o) := Feed(valid, s, text);
            Released(s', output + o)
    decreases |text|
  {
    if text == [] {
      assert output + [] == output;
    } else {
      assert text[..1] == [text[0]];
      var (s1, o1) := Step(valid, s, text[..1]);
      StepReleases(valid, s, text[0], output);
      StepSane(valid, s, text[..1]);
      FeedReleases(valid, s1, text[1..], output + o1);
      var o2 := Feed(valid, s1, text[1..]).1;
      assert (output + o1) + o2 == output + (o1 + o2);
    }
  }

  lemma {:induction false} NothingHeld(output: Str, h: Str)
    requires |h| <= 1 && AppendUnits([], output + h) == (h, output)
    ensures AppendUnits([], output).0 == []
  {
    if h == [] {
      assert output + h == output;
    } else {
      assert output + h == output + [h[0]];
      AppendUnitsSnoc([], output, h[0]);
    }
  }

  /** A prefix of a well-formed string that holds nothing back cuts no surrogate pair. */
  lemma {:induction false} CutsNoPair(output: Str, body: Str)
    requires output <= body && IsWellFormed(body) && AppendUnits([], output).0 == []
    ensures IsWellFormed(output)
    decreases |output|
  {
    if output != [] {
      if IsHigh(output[0]) {
        assert output[..1] == [output[0]];
        assert output[1..] == [] ==> |output| == 1;
        if |output| > 1 {
          assert output[1] == body[1];
          assert output[1..][1..] == output[2..];
          CutsNoPair(output[2..], body[2..]);
        }
      } else {
        CutsNoPair(output[1..], body[1..]);
      }
    }
  }

  /** What is out after some of the chunks is a prefix of the body. */
  lemma StreamsPrefix(valid: Str -> bool, c: Candidate, chunks: seq<Str>, later: seq<Str>)
    returns (s: State, output: Str)
    requires GoodCandidate(valid, c) && Concat(chunks + later) == CandidateText(c) && |CandidateText(c)| <= 256_000
    ensures Pushes(valid, 0, INITIAL, chunks, s, output) && Reads(valid, INITIAL, Concat(chunks), s, output)
    ensures s.At? && output <= BodyOf(c.members)
  {
    ConcatMore(chunks, later);
    var o;
    s, output, o := ChunksAgree(valid, 0, INITIAL, chunks);
    var s2, output2, o2 := ChunksAgree(valid, |Concat(chunks)|, s, later);
    PushesMore(valid, 0, INITIAL, chunks, s, output, later, s2, output2);
    var s3 := PushesCandidate(valid, c, chunks + later);
    PushesIs(valid, 0, INITIAL, chunks + later, s2, output + output2);
    PushesIs(valid, 0, INITIAL, chunks + later, s3, BodyOf(c.members));
    if s.Broken? {
      StaysBroken(valid, |Concat(chunks)|, later);
      PushesIs(valid, |Concat(chunks)|, s, later, s2, output2);
      PushesIs(valid, |Concat(chunks)|, s, later, Broken, []);
    }
  }

  /** Whatever arrived, what was released holds nothing back. */
  lemma ReleasedWhole(valid: Str -> bool, text: Str, s: State, output: Str)
    requires Reads(valid, INITIAL, text, s, output) && s.At?
    ensures AppendUnits([], output).0 == []
  {
    ReadsIs(valid, INITIAL, text, s, output);
    FeedReleases(valid, INITIAL, text, []);
    FeedSane(valid, INITIAL, text);
    assert [] + output == output;
    NothingHeld(output, s.high);
  }

  /** While a well-formed body streams, what is out so far is a prefix of it that splits no surrogate pair. */
  lemma {:induction false} StreamsWhole(valid: Str -> bool, c: Candidate, chunks: seq<Str>, later: seq<Str>)
    requires GoodCandidate(valid, c) && Concat(chunks + later) == CandidateText(c) && |CandidateText(c)| <= 256_000
    ensures var output := Concat(PushAll(valid, 0, INITIAL, chunks).1);
            && output <= BodyOf(c.members)
            && (IsWellFormed(BodyOf(c.members)) ==> IsWellFormed(output))
  {
    var s, output := StreamsPrefix(valid, c, chunks, later);
    ReleasedWhole(valid, Concat(chunks), s, output);
    if IsWellFormed(BodyOf(c.members)) { CutsNoPair(output, BodyOf(c.members)); }
    PushesIs(valid, 0, INITIAL, chunks, s, output);
  }

  lemma {:induction false} ConcatMore(chunks: seq<Str>, later: seq<Str>)
    ensures Concat(chunks + later) == Concat(chunks) + Concat(later)
    decreases |chunks|
  {
    if chunks == [] {
      assert chunks + later == later;
    } else {
      assert (chunks + later)[1..] == chunks[1..] + later;
      ConcatMore(chunks[1..], later);
    }
  }
}
