/** The incremental extractor of a candidate's body, `CandidateBodyParser`. */
module Preview {
  import opened Folding
  import opened Text
  import opened JsonString

  const MAX_SIZE := 256_000
  const BODY: Str := [98, 111, 100, 121]
  const STATUS: Str := [115, 116, 97, 116, 117, 115]
  const CHECKS: Str := [99, 104, 101, 99, 107, 115]
  const GAPS: Str := [103, 97, 112, 115]
  const TASK_REF: Str := [116, 97, 115, 107, 82, 101, 102]
  const ALLOWED: set<Str> := {BODY, STATUS, CHECKS, GAPS, TASK_REF}

  datatype Phase = Start | Key | Colon | Value | Body | Skip | Separator | Done | Invalid

  /** What the parser remembers between characters; nothing once it is invalid. */
  datatype State =
    | Broken
    | At(phase: Phase, token: Str, key: Str, quoted: bool, escaped: bool, depth: int, keys: set<Str>, escape: Str, high: Str)

  const INITIAL: State := At(Start, [], [], false, false, 0, {}, [], [])

  predicate IsSpaceChar(ch: Str) { |ch| == 1 && IsSpace(ch[0]) }

  predicate IsOpen(ch: Str) { ch == [LBRACE] || ch == [LBRACKET] }

  predicate IsClose(ch: Str) { ch == [RBRACE] || ch == [RBRACKET] }

  /** Held-back high surrogate and new output after one more body character. */
  function AppendChar(high: Str, ch: Str): (Str, Str)
    requires ch != []
  {
    if high != [] then ([], high + ch)
    else if |ch| == 1 && IsHigh(ch[0]) then (ch, [])
    else ([], ch)
  }

  function AppendText(high: Str, text: Str): (Str, Str)
    decreases |text|
  {
    if text == [] then (high, [])
    else
      var ch := FirstChar(text);
      var (h, o) := AppendChar(high, ch);
      var (h', o') := AppendText(h, text[|ch|..]);
      (h', o + o')
  }

  function StepBody(s: State, ch: Str): (State, Str)
    requires s.At? && IsChar(ch)
  {
    if s.escape != [] then
      var e := s.escape + ch;
      if [BACKSLASH, LETTER_U] <= e && |e| < 6 then (s.(escape := e), [])
      else match Decode(e)
        case None => (Broken, [])
        case Some(text) =>
          var (h, o) := AppendText(s.high, text);
          (s.(escape := [], high := h), o)
    else if ch == [BACKSLASH] then (s.(escape := ch), [])
    else if ch == [QUOTE] then
      if s.high != [] then (Broken, []) else (s.(phase := Separator), [])
    else if ch[0] < 32 then (Broken, [])
    else
      var (h, o) := AppendText(s.high, ch);
      (s.(high := h), o)
  }

  function StepKey(s: State, ch: Str): State
    requires s.At? && IsChar(ch)
  {
    if s.token == [] && IsSpaceChar(ch) then s
    else if s.token == [] && ch != [QUOTE] then Broken
    else
      var token := s.token + ch;
      if |token| == 1 then s.(token := token)
      else if s.escaped then s.(token := token, escaped := false)
      else if ch == [BACKSLASH] then s.(token := token, escaped := true)
      else if ch != [QUOTE] then s.(token := token)
      else match ParseString(token)
        case None => Broken
        case Some(key) =>
          if key !in ALLOWED || key in s.keys then Broken
          else s.(phase := Colon, token := [], key := key, keys := s.keys + {key})
  }

  function StepSkip(valid: Str -> bool, s: State, ch: Str): State
    requires s.At? && IsChar(ch)
  {
    if !s.quoted && s.depth == 0 && (ch == [COMMA] || ch == [RBRACE]) then
      if valid(s.token) then s.(token := [], phase := if ch == [COMMA] then Key else Done) else Broken
    else
      var t := s.(token := s.token + ch);
      if s.quoted then
        if s.escaped then t.(escaped := false)
        else if ch == [BACKSLASH] then t.(escaped := true)
        else if ch == [QUOTE] then t.(quoted := false)
        else t
      else if ch == [QUOTE] then t.(quoted := true)
      else if IsOpen(ch) then t.(depth := s.depth + 1)
      else if IsClose(ch) then if s.depth - 1 < 0 then Broken else t.(depth := s.depth - 1)
      else t
  }

  /** The characters between tokens. */
  function StepMark(s: State, ch: Str): State
    requires s.At? && IsChar(ch)
  {
    if IsSpaceChar(ch) then s
    else if s.phase == Start && ch == [LBRACE] then s.(phase := Key)
    else if s.phase == Colon && ch == [COLON] then s.(phase := Value)
    else if s.phase == Value then
      if s.key == BODY then if ch == [QUOTE] then s.(phase := Body) else Broken
      else s.(phase := Skip, token := ch, quoted := ch == [QUOTE], depth := if IsOpen(ch) then 1 else 0)
    else if s.phase == Separator && ch == [COMMA] then s.(phase := Key)
    else if s.phase == Separator && ch == [RBRACE] then s.(phase := Done)
    else Broken
  }

  /** One turn of the loop in `push`; `valid` says which skipped values JSON.parse accepts. */
  function Step(valid: Str -> bool, s: State, ch: Str): (State, Str)
    requires IsChar(ch)
  {
    if s.Broken? then (Broken, [])
    else if s.phase.Body? then StepBody(s, ch)
    else if s.phase.Key? then (StepKey(s, ch), [])
    else if s.phase.Skip? then (StepSkip(valid, s, ch), [])
    else (StepMark(s, ch), [])
  }

  /** The automaton over single code units. */
  function Feed(valid: Str -> bool, s: State, text: Str): (State, Str)
    decreases |text|
  {
    if text == [] then (s, [])
    else
      var (s1, o1) := Step(valid, s, text[..1]);
      var (s2, o2) := Feed(valid, s1, text[1..]);
      (s2, o1 + o2)
  }

  /** An escape is held back only while it is too short to decide. */
  predicate IsPendingEscape(escape: Str) {
    escape == [] || escape == [BACKSLASH] || ([BACKSLASH, LETTER_U] <= escape && |escape| < 6)
  }

  /** What every reachable state satisfies. */
  predicate Sane(s: State) {
    s.At? ==>
      && !s.phase.Invalid?
      && IsPendingEscape(s.escape)
      && (s.escape != [] ==> s.phase.Body?)
      && |s.high| <= 1
      && (s.high != [] ==> s.phase.Body? && IsHigh(s.high[0]))
  }

  lemma DecodeSingle(e: Str)
    requires [BACKSLASH] <= e && |e| <= 6 && IsPendingEscape(e[..|e| - 1]) && !IsPendingEscape(e)
    ensures Decode(e).Some? ==> |Decode(e).value| == 1
  {
    if Decode(e).Some? {
      var n := FirstUnit(e).value.1;
      assert n == |e|;
      assert e[n..] == [];
    }
  }

  lemma BadEscape(e: Str, hi: Unit, lo: Unit)
    requires IsPendingEscape(e) && e != [] && IsHigh(hi) && IsLow(lo)
    ensures !IsPendingEscape(e + [hi]) ==> Decode(e + [hi]).None?
    ensures !IsPendingEscape(e + [hi, lo]) ==> Decode(e + [hi, lo]).None?
    ensures !IsPendingEscape(e + [hi, lo]) && IsPendingEscape(e + [hi]) ==> Decode(e + [hi] + [lo]).None?
  {
    assert e + [hi] + [lo] == e + [hi, lo];
    assert (e + [hi, lo])[|e|] == hi;
    assert (e + [hi])[|e|] == hi;
  }

  lemma PairStepBody(s: State, hi: Unit, lo: Unit)
    requires s.At? && s.phase.Body? && Sane(s) && IsHigh(hi) && IsLow(lo)
    ensures var (s1, o1) := StepBody(s, [hi]);
            var (s2, o2) := if s1.At? then StepBody(s1, [lo]) else (Broken, []);
            StepBody(s, [hi, lo]) == (s2, o1 + o2)
  {
    if s.escape != [] {
      BadEscape(s.escape, hi, lo);
      assert s.escape + [hi] + [lo] == s.escape + [hi, lo];
    } else {
      AppendPair(s.high, hi, lo);
      AppendOne(s.high, [hi]);
    }
    var (s1, o1) := StepBody(s, [hi]);
    var (s2, o2) := if s1.At? then StepBody(s1, [lo]) else (Broken, []);
    assert o1 + o2 == StepBody(s, [hi, lo]).1;
  }

  lemma PairStepToken(valid: Str -> bool, s: State, hi: Unit, lo: Unit)
    requires s.At? && IsHigh(hi) && IsLow(lo)
    ensures var s1 := StepKey(s, [hi]);
            StepKey(s, [hi, lo]) == if s1.At? then StepKey(s1, [lo]) else Broken
    ensures var s1 := StepSkip(valid, s, [hi]);
            StepSkip(valid, s, [hi, lo]) == if s1.At? then StepSkip(valid, s1, [lo]) else Broken
  {
    assert s.token + [hi] + [lo] == s.token + [hi, lo];
  }

  lemma PairStepMark(s: State, hi: Unit, lo: Unit)
    requires s.At? && !s.phase.Skip? && IsHigh(hi) && IsLow(lo)
    ensures var s1 := StepMark(s, [hi]);
            StepMark(s, [hi, lo]) == if s1.Broken? then Broken else StepSkip(_ => true, s1, [lo])
    ensures StepMark(s, [hi]).At? ==> StepMark(s, [hi]).phase.Skip? && !StepMark(s, [hi]).quoted
  {
    assert [hi] + [lo] == [hi, lo];
  }

  /** A surrogate pair taken whole does what its two halves do one after the other. */
  lemma PairStep(valid: Str -> bool, s: State, hi: Unit, lo: Unit)
    requires Sane(s) && IsHigh(hi) && IsLow(lo)
    ensures var (s1, o1) := Step(valid, s, [hi]);
            var (s2, o2) := Step(valid, s1, [lo]);
            Step(valid, s, [hi, lo]) == (s2, o1 + o2)
  {
    var (s1, o1) := Step(valid, s, [hi]);
    var (s2, o2) := Step(valid, s1, [lo]);
    if s.At? {
      if s.phase.Body? {
        PairStepBody(s, hi, lo);
      } else if s.phase.Key? || s.phase.Skip? {
        PairStepToken(valid, s, hi, lo);
      } else {
        PairStepMark(s, hi, lo);
      }
    }
    assert o1 + o2 == Step(valid, s, [hi, lo]).1;
  }

  lemma AppendOne(high: Str, ch: Str)
    requires IsChar(ch)
    ensures AppendText(high, ch) == AppendChar(high, ch)
  {
    assert ch[..|ch|] == ch && ch[|ch|..] == [];
    var (h, o) := AppendChar(high, ch);
    assert o + [] == o;
  }

  lemma AppendPair(high: Str, hi: Unit, lo: Unit)
    requires IsHigh(hi) && IsLow(lo)
    ensures var (h1, o1) := AppendText(high, [hi]);
            var (h2, o2) := AppendText(h1, [lo]);
            AppendText(high, [hi, lo]) == (h2, o1 + o2)
  {
    assert high + [hi] + [lo] == high + [hi, lo];
    AppendOne(high, [hi, lo]);
    AppendOne(high, [hi]);
    AppendOne(AppendChar(high, [hi]).0, [lo]);
    var (h1, o1) := AppendText(high, [hi]);
    var (h2, o2) := AppendText(h1, [lo]);
    assert [hi] + [lo] == [hi, lo];
    assert o1 + o2 == AppendText(high, [hi, lo]).1;
  }

  lemma EscapeTakesUnits(e: Str, ch: Str)
    requires IsPendingEscape(e) && e != [] && IsChar(ch) && !IsPendingEscape(e + ch) && Decode(e + ch).Some?
    ensures |ch| == 1
  {
    if |ch| == 2 {
      assert e + ch == e + [ch[0], ch[1]];
      BadEscape(e, ch[0], ch[1]);
    }
  }

  lemma AppendKeepsHigh(high: Str, ch: Str)
    requires IsChar(ch) && |high| <= 1 && (high != [] ==> IsHigh(high[0]))
    ensures var h := AppendText(high, ch).0; |h| <= 1 && (h != [] ==> IsHigh(h[0]))
  {
    AppendOne(high, ch);
  }

  lemma EscapeSane(s: State, ch: Str)
    requires s.At? && s.phase.Body? && s.escape != [] && Sane(s) && IsChar(ch)
    ensures Sane(StepBody(s, ch).0)
  {
    var e := s.escape + ch;
    if !([BACKSLASH, LETTER_U] <= e && |e| < 6) && Decode(e).Some? {
      EscapeTakesUnits(s.escape, ch);
      assert e[..|e| - 1] == s.escape;
      DecodeSingle(e);
      AppendKeepsHigh(s.high, Decode(e).value);
    }
  }

  lemma StepBodySane(s: State, ch: Str)
    requires s.At? && s.phase.Body? && Sane(s) && IsChar(ch)
    ensures Sane(StepBody(s, ch).0)
  {
    if s.escape != [] { EscapeSane(s, ch); } else { AppendKeepsHigh(s.high, ch); }
  }

  lemma StepSane(valid: Str -> bool, s: State, ch: Str)
    requires Sane(s) && IsChar(ch)
    ensures Sane(Step(valid, s, ch).0)
  {
    if s.At? && s.phase.Body? { StepBodySane(s, ch); }
  }

  lemma FeedSane(valid: Str -> bool, s: State, text: Str)
    requires Sane(s)
    ensures Sane(Feed(valid, s, text).0)
    decreases |text|
  {
    if text != [] {
      StepSane(valid, s, text[..1]);
      FeedSane(valid, Step(valid, s, text[..1]).0, text[1..]);
    }
  }

  lemma FeedBroken(valid: Str -> bool, text: Str)
    ensures Feed(valid, Broken, text) == (Broken, [])
    decreases |text|
  {
    if text != [] { FeedBroken(valid, text[1..]); }
  }

  lemma {:induction false} FeedConcat(valid: Str -> bool, s: State, a: Str, b: Str)
    ensures var (s1, o1) := Feed(valid, s, a);
            var (s2, o2) := Feed(valid, s1, b);
            Feed(valid, s, a + b) == (s2, o1 + o2)
    decreases |a|
  {
    if a == [] {
      assert a + b == b;
      var o := Feed(valid, s, b).1;
      assert [] + o == o;
    } else {
      var (s1, o1) := Step(valid, s, a[..1]);
      assert (a + b)[..1] == a[..1] && (a + b)[1..] == a[1..] + b;
      FeedConcat(valid, s1, a[1..], b);
      var o2 := Feed(valid, s1, a[1..]).1;
      var o3 := Feed(valid, Feed(valid, s1, a[1..]).0, b).1;
      assert o1 + (o2 + o3) == (o1 + o2) + o3;
    }
  }

  lemma FeedUnit(valid: Str -> bool, s: State, u: Unit)
    ensures Feed(valid, s, [u]) == Step(valid, s, [u])
  {
    assert [u][..1] == [u] && [u][1..] == [];
    var (s1, o1) := Step(valid, s, [u]);
    assert o1 + [] == o1;
  }

  lemma FeedChar(valid: Str -> bool, s: State, ch: Str)
    requires Sane(s) && IsChar(ch)
    ensures Feed(valid, s, ch) == Step(valid, s, ch)
  {
    if |ch| == 1 {
      assert ch == [ch[0]];
      FeedUnit(valid, s, ch[0]);
    } else {
      assert ch == [ch[0]] + [ch[1]] == [ch[0], ch[1]];
      FeedConcat(valid, s, [ch[0]], [ch[1]]);
      FeedUnit(valid, s, ch[0]);
      FeedUnit(valid, Step(valid, s, [ch[0]]).0, ch[1]);
      PairStep(valid, s, ch[0], ch[1]);
    }
  }

  /** Feed turns s into s' and text into output. */
  ghost predicate Reads(valid: Str -> bool, s: State, text: Str, s': State, output: Str) {
    forall n: nat :: Unfolding(n) ==> Feed(valid, s, text) == (s', output)
  }

  lemma ReadsIs(valid: Str -> bool, s: State, text: Str, s': State, output: Str)
    ensures Reads(valid, s, text, s', output) <==> Feed(valid, s, text) == (s', output)
  {
    assert Unfolding(0);
  }

  /** What the loop of `push` knows after one more character. */
  lemma ReadsNext(valid: Str -> bool, s: State, chunk: Str, i: nat, ch: Str, s1: State, o1: Str)
    requires i + |ch| <= |chunk| && IsChar(ch) && chunk[i..i + |ch|] == ch
    requires Sane(s1) && Reads(valid, s, chunk[..i], s1, o1)
    ensures var (s2, o2) := Step(valid, s1, ch);
            && Reads(valid, s, chunk[..i + |ch|], s2, o1 + o2)
            && (s2.Broken? ==> Feed(valid, s, chunk).0.Broken?)
  {
    ReadsIs(valid, s, chunk[..i], s1, o1);
    FeedChar(valid, s1, ch);
    FeedConcat(valid, s, chunk[..i], ch);
    assert chunk[..i] + ch == chunk[..i + |ch|];
    assert chunk == chunk[..i + |ch|] + chunk[i + |ch|..];
    FeedConcat(valid, s, chunk[..i + |ch|], chunk[i + |ch|..]);
    FeedBroken(valid, chunk[i + |ch|..]);
  }

  lemma ReadsAll(valid: Str -> bool, s: State, chunk: Str, s1: State, o1: Str)
    requires Reads(valid, s, chunk[..|chunk|], s1, o1)
    ensures Feed(valid, s, chunk) == (s1, o1)
  {
    assert chunk[..|chunk|] == chunk;
    ReadsIs(valid, s, chunk, s1, o1);
  }

  /** After i units of text the loop of `append` holds high and output. */
  predicate AppendRest(start: Str, text: Str, high: Str, output: Str, i: nat)
    requires i <= |text|
  {
    var (h, o) := AppendText(high, text[i..]);
    AppendText(start, text) == (h, output + o)
  }

  lemma AppendStart(high: Str, text: Str)
    ensures AppendRest(high, text, high, [], 0)
  {
    assert text[0..] == text;
    var o := AppendText(high, text).1;
    assert [] + o == o;
  }

  lemma AppendNext(start: Str, text: Str, high: Str, output: Str, i: nat)
    requires i < |text| && AppendRest(start, text, high, output, i)
    ensures var ch := FirstChar(text[i..]);
            var (h, o) := AppendChar(high, ch);
            AppendRest(start, text, h, output + o, i + |ch|)
  {
    var ch := FirstChar(text[i..]);
    var (h, o) := AppendChar(high, ch);
    assert text[i..][|ch|..] == text[i + |ch|..];
    var o' := AppendText(h, text[i + |ch|..]).1;
    assert output + (o + o') == (output + o) + o';
  }

  /** What one call of `push` leaves behind and returns; a failing chunk returns nothing. */
  function Pushed(valid: Str -> bool, size: nat, s: State, chunk: Str): (State, Str) {
    if size + |chunk| > MAX_SIZE then (Broken, [])
    else
      var (s', o) := Feed(valid, s, chunk);
      (s', if s'.Broken? then [] else o)
  }

  class CandidateBodyParser {
    const valid: Str -> bool
    var state: Phase
    var token: Str
    var key: Str
    var quoted: bool
    var escaped: bool
    var depth: int
    var size: nat
    var keys: set<Str>
    var escape: Str
    var high: Str

    ghost function Abs(): State
      reads this
    {
      if state.Invalid? then Broken else At(state, token, key, quoted, escaped, depth, keys, escape, high)
    }

    ghost predicate Valid()
      reads this
    {
      Sane(Abs())
    }

    constructor (valid: Str -> bool)
      ensures Valid() && Abs() == INITIAL && size == 0 && this.valid == valid
    {
      this.valid := valid;
      state, token, key, quoted, escaped := Start, [], [], false, false;
      depth, size, keys, escape, high := 0, 0, {}, [], [];
    }

    /** The getter `complete`. */
    predicate Complete()
      reads this
    {
      state == Done && BODY in keys
    }

    method Append(text: Str) returns (output: Str)
      modifies this`high
      ensures (high, output) == AppendText(old(high), text)
    {
      output := [];
      var i := 0;
      AppendStart(high, text);
      while i < |text|
        invariant 0 <= i <= |text|
        invariant AppendRest(old(high), text, high, output, i)
      {
        var ch := FirstChar(text[i..]);
        AppendNext(old(high), text, high, output, i);
        if high != [] {
          output, high := output + (high + ch), [];
        } else if |ch| == 1 && IsHigh(ch[0]) {
          output, high := output + [], ch;
        } else {
          output := output + ch;
        }
        i := i + |ch|;
      }
      assert text[i..] == [] && output + [] == output;
    }

    /** A character inside the body; false when the source throws. */
    method TakeBody(ch: Str) returns (ok: bool, output: Str)
      requires Valid() && state.Body? && IsChar(ch)
      modifies this
      ensures unchanged(`size)
      ensures ok ==> Valid() && !state.Invalid? && (Abs(), output) == StepBody(old(Abs()), ch)
      ensures !ok ==> StepBody(old(Abs()), ch) == (Broken, [])
    {
      StepBodySane(Abs(), ch);
      output := [];
      if escape != [] {
        escape := escape + ch;
        if [BACKSLASH, LETTER_U] <= escape && |escape| < 6 { return true, []; }
        match Decode(escape) {
          case None => return false, [];
          case Some(text) => output := Append(text);
        }
        escape := [];
      } else if ch == [BACKSLASH] {
        escape := ch;
      } else if ch == [QUOTE] {
        if high != [] { return false, []; }
        state := Separator;
      } else {
        if ch[0] < 32 { return false, []; }
        output := Append(ch);
      }
      ok := true;
    }

    method TakeKey(ch: Str) returns (ok: bool)
      requires Valid() && state.Key? && IsChar(ch)
      modifies this
      ensures unchanged(`size)
      ensures ok ==> Valid() && !state.Invalid? && Abs() == StepKey(old(Abs()), ch)
      ensures !ok ==> StepKey(old(Abs()), ch).Broken?
    {
      if token == [] && IsSpaceChar(ch) { return true; }
      if token == [] && ch != [QUOTE] { return false; }
      token := token + ch;
      if |token| == 1 { return true; }
      if escaped { escaped := false; return true; }
      if ch == [BACKSLASH] { escaped := true; return true; }
      if ch != [QUOTE] { return true; }
      var parsed := ParseString(token);
      if parsed.None? { return false; }
      key := parsed.value;
      if key !in ALLOWED || key in keys { return false; }
      keys := keys + {key};
      token := [];
      state := Colon;
      return true;
    }

    method TakeSkip(ch: Str) returns (ok: bool)
      requires Valid() && state.Skip? && IsChar(ch)
      modifies this
      ensures unchanged(`size)
      ensures ok ==> Valid() && !state.Invalid? && Abs() == StepSkip(valid, old(Abs()), ch)
      ensures !ok ==> StepSkip(valid, old(Abs()), ch).Broken?
    {
      if !quoted && depth == 0 && (ch == [COMMA] || ch == [RBRACE]) {
        if !valid(token) { return false; }
        token := [];
        state := if ch == [COMMA] then Key else Done;
        return true;
      }
      token := token + ch;
      if quoted {
        if escaped { escaped := false; }
        else if ch == [BACKSLASH] { escaped := true; }
        else if ch == [QUOTE] { quoted := false; }
      } else if ch == [QUOTE] { quoted := true; }
      else if IsOpen(ch) { depth := depth + 1; }
      else if IsClose(ch) {
        depth := depth - 1;
        if depth < 0 { return false; }
      }
      return true;
    }

    method TakeMark(ch: Str) returns (ok: bool)
      requires Valid() && !state.Invalid? && !state.Body? && !state.Key? && !state.Skip? && IsChar(ch)
      modifies this
      ensures unchanged(`size)
      ensures ok ==> Valid() && !state.Invalid? && Abs() == StepMark(old(Abs()), ch)
      ensures !ok ==> StepMark(old(Abs()), ch).Broken?
    {
      if IsSpaceChar(ch) { return true; }
      if state == Start && ch == [LBRACE] { state := Key; }
      else if state == Colon && ch == [COLON] { state := Value; }
      else if state == Value {
        if key == BODY {
          if ch != [QUOTE] { return false; }
          state := Body;
        } else {
          token := ch;
          quoted := ch == [QUOTE];
          depth := if IsOpen(ch) then 1 else 0;
          state := Skip;
        }
      } else if state == Separator && ch == [COMMA] { state := Key; }
      else if state == Separator && ch == [RBRACE] { state := Done; }
      else { return false; }
      return true;
    }

    /** One turn of the loop; false when the source throws. */
    method Take(ch: Str) returns (ok: bool, output: Str)
      requires Valid() && !state.Invalid? && IsChar(ch)
      modifies this
      ensures unchanged(`size)
      ensures ok ==> Valid() && !state.Invalid? && (Abs(), output) == Step(valid, old(Abs()), ch)
      ensures !ok ==> Step(valid, old(Abs()), ch).0.Broken?
    {
      ok, output := true, [];
      if state.Body? { ok, output := TakeBody(ch); }
      else if state.Key? { ok := TakeKey(ch); }
      else if state.Skip? { ok := TakeSkip(ch); }
      else { ok := TakeMark(ch); }
    }

    /** The loop over the characters of a chunk. */
    method Consume(chunk: Str) returns (ok: bool, output: Str)
      requires Valid() && !state.Invalid?
      modifies this
      ensures unchanged(`size)
      ensures ok ==> Valid() && !state.Invalid? && (Abs(), output) == Feed(valid, old(Abs()), chunk)
      ensures !ok ==> Feed(valid, old(Abs()), chunk).0.Broken?
    {
      ok, output := true, [];
      ghost var s := Abs();
      var i := 0;
      assert chunk[..0] == [];
      while i < |chunk|
        invariant 0 <= i <= |chunk| && Valid() && size == old(size) && !state.Invalid?
        invariant Reads(valid, s, chunk[..i], Abs(), output)
      {
        var ch := FirstChar(chunk[i..]);
        ReadsNext(valid, s, chunk, i, ch, Abs(), output);
        var o;
        ok, o := Take(ch);
        if !ok { return; }
        output := output + o;
        i := i + |ch|;
      }
      ReadsAll(valid, s, chunk, Abs(), output);
    }

    method Push(chunk: Str) returns (output: Str)
      requires Valid()
      modifies this
      ensures Valid() && size == old(size) + |chunk|
      ensures (Abs(), output) == Pushed(valid, old(size), old(Abs()), chunk)
    {
      size := size + |chunk|;
      if size > MAX_SIZE { state := Invalid; return []; }
      if state.Invalid? { FeedBroken(valid, chunk); return []; }
      var ok;
      ok, output := Consume(chunk);
      if !ok {
        state := Invalid;
        return [];
      }
    }
  }
}
