/**
  The text of a candidate as a grammar: an object (section 4 of RFC 8259) whose members have distinct names, each from
  a fixed list, and whose body is a string. Nothing of the automaton is used here; every character is spelled out.
 */
module PreviewGrammar {
  import opened Text
  import opened JsonString

  const DOUBLE_QUOTE: Unit := '"' as int
  const COMMA_SIGN: Unit := ',' as int
  const COLON_SIGN: Unit := ':' as int
  const OPENING_BRACE: Unit := '{' as int
  const CLOSING_BRACE: Unit := '}' as int
  const OPENING_BRACKET: Unit := '[' as int
  const CLOSING_BRACKET: Unit := ']' as int

  const THE_BODY: Str := Spell("body")
  const NAMES: set<Str> := {THE_BODY, Spell("status"), Spell("checks"), Spell("gaps"), Spell("taskRef")}

  /** A value that is not the body, as brackets, strings and everything else. */
  datatype Segment = Plain(u: Unit) | Quoted(content: Str)

  datatype Member =
    | BodyMember(pre: Str, name: Str, mid: Str, gap: Str, literal: Str, post: Str)
    | OtherMember(pre: Str, name: Str, mid: Str, gap: Str, value: seq<Segment>)

  datatype Candidate = Candidate(lead: Str, members: seq<Member>, trail: Str)

  /** Tab, line feed, vertical tab, form feed, carriage return, the spaces of Unicode, its line and paragraph separator. */
  predicate White(u: Unit) {
    || u in {0x9, 0xA, 0xB, 0xC, 0xD, 0x20, 0xA0, 0x1680, 0x2028, 0x2029, 0x202F, 0x205F, 0x3000, 0xFEFF}
    || 0x2000 <= u <= 0x200A
  }

  predicate Spaces(text: Str) { forall u <- text :: White(u) }

  predicate GoodSegment(g: Segment) {
    if g.Plain? then g.u != DOUBLE_QUOTE else IsQuoted(g.content)
  }

  /** How much deeper the value is nested after the segment. */
  function Change(g: Segment): int {
    if g.Plain? && (g.u == OPENING_BRACE || g.u == OPENING_BRACKET) then 1
    else if g.Plain? && (g.u == CLOSING_BRACE || g.u == CLOSING_BRACKET) then -1
    else 0
  }

  /** Brackets outside strings balance, and no comma or closing brace stands outside brackets. */
  predicate Nested(value: seq<Segment>, depth: nat) {
    if value == [] then depth == 0
    else
      var g := value[0];
      && GoodSegment(g)
      && (g == Plain(COMMA_SIGN) || g == Plain(CLOSING_BRACE) ==> depth > 0)
      && depth + Change(g) >= 0
      && Nested(value[1..], depth + Change(g))
  }

  predicate GoodValue(value: seq<Segment>) {
    && value != [] && GoodSegment(value[0]) && (value[0].Plain? ==> !White(value[0].u))
    && Nested(value[1..], if Change(value[0]) == 1 then 1 else 0)
  }

  function SegmentText(g: Segment): Str {
    if g.Plain? then [g.u] else [DOUBLE_QUOTE] + g.content + [DOUBLE_QUOTE]
  }

  function ValueText(value: seq<Segment>): Str {
    if value == [] then [] else SegmentText(value[0]) + ValueText(value[1..])
  }

  function NameText(m: Member): Str {
    m.pre + ([DOUBLE_QUOTE] + m.name + [DOUBLE_QUOTE]) + m.mid + [COLON_SIGN] + m.gap
  }

  function RestText(m: Member): Str {
    if m.BodyMember? then [DOUBLE_QUOTE] + m.literal + [DOUBLE_QUOTE] + m.post else ValueText(m.value)
  }

  function MemberText(m: Member): Str {
    NameText(m) + RestText(m)
  }

  function MembersText(members: seq<Member>): Str
    requires members != []
  {
    if |members| == 1 then MemberText(members[0])
    else MemberText(members[0]) + [COMMA_SIGN] + MembersText(members[1..])
  }

  function CandidateText(c: Candidate): Str
    requires c.members != []
  {
    c.lead + [OPENING_BRACE] + MembersText(c.members) + [CLOSING_BRACE] + c.trail
  }

  /** The length of the run of high surrogates a string ends with. */
  function TrailingHighs(text: Str): nat {
    if text == [] || !(0xD800 <= text[|text| - 1] <= 0xDBFF) then 0 else 1 + TrailingHighs(text[..|text| - 1])
  }

  /** What the parser refuses although it is a string: a body that ends in an odd run of high surrogates. */
  predicate Dangling(text: Str) { TrailingHighs(text) % 2 == 1 }

  predicate GoodMember(valid: Str -> bool, m: Member, seen: set<Str>) {
    && Spaces(m.pre) && Spaces(m.mid) && Spaces(m.gap)
    && Decode(m.name).Some?
    && var name := Decode(m.name).value;
    && name in NAMES && name !in seen
    && m.BodyMember? == (name == THE_BODY)
    && (m.BodyMember? ==> Spaces(m.post) && Decode(m.literal).Some? && !Dangling(Decode(m.literal).value))
    && (m.OtherMember? ==> GoodValue(m.value) && valid(RestText(m)))
  }

  predicate GoodMembers(valid: Str -> bool, members: seq<Member>, seen: set<Str>) {
    && members != []
    && GoodMember(valid, members[0], seen)
    && (|members| > 1 ==> GoodMembers(valid, members[1..], seen + {Decode(members[0].name).value}))
  }

  predicate GoodCandidate(valid: Str -> bool, c: Candidate) {
    Spaces(c.lead) && Spaces(c.trail) && GoodMembers(valid, c.members, {})
  }

  predicate HasBody(members: seq<Member>) { exists m <- members :: m.BodyMember? }

  /** The decoded body; empty when the candidate has none. */
  function BodyOf(members: seq<Member>): Str {
    if members == [] then []
    else if members[0].BodyMember? && Decode(members[0].literal).Some? then Decode(members[0].literal).value
    else BodyOf(members[1..])
  }
}
