/** JSON values, and a reader of JSON texts (RFC 8259) without white space, which knows nothing of how they are written. */
module JsonReader {
  import opened Text
  import opened JsonString

  datatype Field = Field(key: Str, value: Json)

  /** A JSON value; an object keeps its keys in the order they were written. Numbers are safe integers. */
  datatype Json =
    | Null
    | Bool(b: bool)
    | Int(n: SafeInt)
    | String(s: Str)
    | Array(items: seq<Json>)
    | Object(fields: seq<Field>)

  type SafeInt = n: int | -0x1F_FFFF_FFFF_FFFF <= n <= 0x1F_FFFF_FFFF_FFFF

  /** The content of a string up to its closing quote, and what comes after it. */
  function CutString(text: Str): (r: Option<(Str, Str)>)
    ensures r.Some? ==> |r.value.0| + |r.value.1| < |text|
    decreases |text|
  {
    if text == [] then None
    else if text[0] == '"' as int then Some(([], text[1..]))
    else
      var n := if text[0] == '\\' as int then 2 else 1;
      if n > |text| then None
      else
        var rest := CutString(text[n..]);
        if rest.None? then None else Some((text[..n] + rest.value.0, rest.value.1))
  }

  /** How many decimal digits the text starts with. */
  function Run(text: Str): (n: nat)
    ensures n <= |text|
  {
    if text == [] || !('0' as int <= text[0] <= '9' as int) then 0 else 1 + Run(text[1..])
  }

  function Decimal(digits: Str): int {
    if digits == [] then 0 else 10 * Decimal(digits[..|digits| - 1]) + digits[|digits| - 1] - '0' as int
  }

  /** An integer has no superfluous zero and no negative one. */
  function ReadInt(text: Str): (r: Option<(Json, Str)>)
    requires text != []
    ensures r.Some? ==> |r.value.1| < |text|
  {
    var sign := if text[0] == '-' as int then 1 else 0;
    var n := Run(text[sign..]);
    var magnitude := Decimal(text[sign..sign + n]);
    var value := if sign == 1 then -magnitude else magnitude;
    if n == 0 || (text[sign] == '0' as int && (n > 1 || sign == 1)) then None
    else if !(-0x1F_FFFF_FFFF_FFFF <= value <= 0x1F_FFFF_FFFF_FFFF) then None
    else Some((Int(value), text[sign + n..]))
  }

  function ReadString(text: Str): (r: Option<(Str, Str)>)
    ensures r.Some? ==> |r.value.1| < |text|
  {
    if text == [] || text[0] != '"' as int then None
    else
      var cut := CutString(text[1..]);
      if cut.None? || Decode(cut.value.0).None? then None else Some((Decode(cut.value.0).value, cut.value.1))
  }

  /** The value that the text starts with, and what comes after it. */
  function Read(text: Str): (r: Option<(Json, Str)>)
    ensures r.Some? ==> |r.value.1| < |text|
    decreases |text|, 0
  {
    if text == [] then None
    else if Spell("null") <= text then Some((Null, text[4..]))
    else if Spell("true") <= text then Some((Bool(true), text[4..]))
    else if Spell("false") <= text then Some((Bool(false), text[5..]))
    else if text[0] == '"' as int then
      var s := ReadString(text);
      if s.None? then None else Some((String(s.value.0), s.value.1))
    else if Spell("[]") <= text then Some((Array([]), text[2..]))
    else if text[0] == '[' as int then
      var items := ReadItems(text[1..]);
      if items.None? then None else Some((Array(items.value.0), items.value.1))
    else if Spell("{}") <= text then Some((Object([]), text[2..]))
    else if text[0] == '{' as int then
      var fields := ReadFields(text[1..]);
      if fields.None? then None else Some((Object(fields.value.0), fields.value.1))
    else ReadInt(text)
  }

  /** Values with commas between them, up to the closing bracket. */
  function ReadItems(text: Str): (r: Option<(seq<Json>, Str)>)
    ensures r.Some? ==> |r.value.1| < |text|
    decreases |text|, 1
  {
    var first := Read(text);
    if first.None? || first.value.1 == [] then None
    else
      var (j, rest) := first.value;
      if rest[0] == ']' as int then Some(([j], rest[1..]))
      else if rest[0] != ',' as int then None
      else
        var others := ReadItems(rest[1..]);
        if others.None? then None else Some(([j] + others.value.0, others.value.1))
  }

  /** A name, a colon and a value. */
  function ReadField(text: Str): (r: Option<(Field, Str)>)
    ensures r.Some? ==> |r.value.1| < |text|
    decreases |text|, 1
  {
    var name := ReadString(text);
    if name.None? || name.value.1 == [] || name.value.1[0] != ':' as int then None
    else
      var value := Read(name.value.1[1..]);
      if value.None? then None else Some((Field(name.value.0, value.value.0), value.value.1))
  }

  function ReadFields(text: Str): (r: Option<(seq<Field>, Str)>)
    ensures r.Some? ==> |r.value.1| < |text|
    decreases |text|, 2
  {
    var first := ReadField(text);
    if first.None? || first.value.1 == [] then None
    else
      var (f, rest) := first.value;
      if rest[0] == '}' as int then Some(([f], rest[1..]))
      else if rest[0] != ',' as int then None
      else
        var others := ReadFields(rest[1..]);
        if others.None? then None else Some(([f] + others.value.0, others.value.1))
  }
}
