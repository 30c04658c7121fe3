/** `excerpt`: cutting a text at a bound of UTF-8 bytes (section 3 of RFC 3629), and chunking a body with it. */
module Excerpt {
  import opened Text

  type Byte = n: nat | n < 256

  const REPLACEMENT: Unit := 0xFFFD

  // ---- UTF-8 ----

  /** The scalar value of a character; a surrogate on its own counts as U+FFFD. */
  function Scalar(ch: Str): (c: nat)
    requires IsChar(ch)
    ensures c < 0x11_0000 && (0xD800 <= c < 0xE000 ==> false)
    ensures |ch| == 2 <==> c >= 0x1_0000
  {
    if |ch| == 2 then 0x1_0000 + (ch[0] - 0xD800) * 0x400 + (ch[1] - 0xDC00)
    else if IsHigh(ch[0]) || IsLow(ch[0]) then REPLACEMENT
    else ch[0]
  }

  function EncodeScalar(c: nat): (b: seq<Byte>)
    requires c < 0x11_0000
    ensures 1 <= |b| <= 4
  {
    if c < 0x80 then [c]
    else if c < 0x800 then [0xC0 + c / 0x40, 0x80 + c % 0x40]
    else if c < 0x1_0000 then [0xE0 + c / 0x1000, 0x80 + c / 0x40 % 0x40, 0x80 + c % 0x40]
    else [0xF0 + c / 0x4_0000, 0x80 + c / 0x1000 % 0x40, 0x80 + c / 0x40 % 0x40, 0x80 + c % 0x40]
  }

  /** `Buffer.from(text)`. */
  function Encode(text: Str): seq<Byte>
    decreases |text|
  {
    if text == [] then []
    else var ch := FirstChar(text); EncodeScalar(Scalar(ch)) + Encode(text[|ch|..])
  }

  /** `(b & 0xc0) === 0x80`. */
  predicate Continues(b: Byte) { 0x80 <= b < 0xC0 }

  function Units(c: nat): (ch: Str)
    requires c < 0x11_0000
    ensures 1 <= |ch| <= 2
  {
    if c < 0x1_0000 then [c] else [0xD800 + (c - 0x1_0000) / 0x400, 0xDC00 + (c - 0x1_0000) % 0x400]
  }

  /** The length that a leading byte announces; what never leads counts as 1. */
  function Announced(b: Byte): nat { if b < 0xC0 then 1 else if b < 0xE0 then 2 else if b < 0xF0 then 3 else 4 }

  function DecodeScalar(b: seq<Byte>): int
    requires b != [] && |b| == Announced(b[0])
  {
    if |b| == 1 then b[0]
    else if |b| == 2 then (b[0] as int - 0xC0) * 0x40 + (b[1] as int - 0x80)
    else if |b| == 3 then (b[0] as int - 0xE0) * 0x1000 + (b[1] as int - 0x80) * 0x40 + (b[2] as int - 0x80)
    else (b[0] as int - 0xF0) * 0x4_0000 + (b[1] as int - 0x80) * 0x1000 + (b[2] as int - 0x80) * 0x40 + (b[3] as int - 0x80)
  }

  predicate Decodable(b: seq<Byte>) {
    b != [] && |b| >= Announced(b[0]) && 0 <= DecodeScalar(b[..Announced(b[0])]) < 0x11_0000
  }

  /** `toString('utf8')`; a byte that decodes to nothing gives U+FFFD, which bytes cut between characters never do. */
  function Decode(b: seq<Byte>): Str
    decreases |b|
  {
    if b == [] then []
    else if !Decodable(b) then [REPLACEMENT] + Decode(b[1..])
    else
      var n := Announced(b[0]);
      Units(DecodeScalar(b[..n])) + Decode(b[n..])
  }

  /** The text with every lone surrogate replaced. */
  function Replaced(text: Str): (r: Str)
    ensures |r| == |text|
    decreases |text|
  {
    if text == [] then []
    else var ch := FirstChar(text); Units(Scalar(ch)) + Replaced(text[|ch|..])
  }

  lemma UnitsOfScalar(ch: Str)
    requires IsChar(ch)
    ensures |Units(Scalar(ch))| == |ch|
    ensures |ch| == 2 || !(IsHigh(ch[0]) || IsLow(ch[0])) ==> Units(Scalar(ch)) == ch
  {
    if |ch| == 2 { PairParts(ch[0], ch[1]); }
  }

  lemma PairParts(high: Unit, low: Unit)
    requires IsHigh(high) && IsLow(low)
    ensures var c: nat := 0x1_0000 + (high - 0xD800) * 0x400 + (low - 0xDC00);
            c < 0x11_0000 && Units(c) == [high, low]
  {
    var h, l := high as int - 0xD800, low as int - 0xDC00;
    assert (h * 0x400 + l) / 0x400 == h && (h * 0x400 + l) % 0x400 == l;
  }

  /** The bytes say how many they are, and give the scalar back. */
  predicate Reads(c: nat)
    requires c < 0x11_0000
  {
    var b := EncodeScalar(c);
    && |b| == Announced(b[0]) && DecodeScalar(b) == c && !Continues(b[0])
    && forall i :: 1 <= i < |b| ==> Continues(b[i])
  }

  /** Six bits at a time. */
  lemma SixBits(c: nat)
    ensures c / 0x1000 == c / 0x40 / 0x40 && c / 0x4_0000 == c / 0x1000 / 0x40
    ensures c == c / 0x40 * 0x40 + c % 0x40
    ensures c / 0x40 == c / 0x1000 * 0x40 + c / 0x40 % 0x40
    ensures c / 0x1000 == c / 0x4_0000 * 0x40 + c / 0x1000 % 0x40
  {
  }

  lemma TwoBytes(c: nat)
    requires 0x80 <= c < 0x800
    ensures Reads(c)
  {
  }

  lemma ThreeBytes(c: nat)
    requires 0x800 <= c < 0x1_0000
    ensures Reads(c)
  {
    SixBits(c);
    var high, middle, low := c / 0x1000, c / 0x40 % 0x40, c % 0x40;
    assert EncodeScalar(c) == [0xE0 + high, 0x80 + middle, 0x80 + low];
    assert high < 0x10 && c == (high * 0x40 + middle) * 0x40 + low;
  }

  lemma FourBytes(c: nat)
    requires 0x1_0000 <= c < 0x11_0000
    ensures Reads(c)
  {
    SixBits(c);
    var top, high, middle, low := c / 0x4_0000, c / 0x1000 % 0x40, c / 0x40 % 0x40, c % 0x40;
    assert EncodeScalar(c) == [0xF0 + top, 0x80 + high, 0x80 + middle, 0x80 + low];
    assert top < 5 && c == ((top * 0x40 + high) * 0x40 + middle) * 0x40 + low;
  }

  lemma EncodedScalar(c: nat)
    requires c < 0x11_0000
    ensures Reads(c)
  {
    if 0x80 <= c < 0x800 { TwoBytes(c); }
    if 0x800 <= c < 0x1_0000 { ThreeBytes(c); }
    if 0x1_0000 <= c { FourBytes(c); }
  }

  lemma DecodeFirst(c: nat, rest: seq<Byte>)
    requires c < 0x11_0000
    ensures Decode(EncodeScalar(c) + rest) == Units(c) + Decode(rest)
  {
    EncodedScalar(c);
    var b := EncodeScalar(c) + rest;
    assert b[..|EncodeScalar(c)|] == EncodeScalar(c);
    assert b[|EncodeScalar(c)|..] == rest;
  }

  /** Decoding gives the text back, but for lone surrogates. */
  lemma {:induction false} RoundTrip(text: Str)
    ensures Decode(Encode(text)) == Replaced(text)
    decreases |text|
  {
    if text != [] {
      var ch := FirstChar(text);
      DecodeFirst(Scalar(ch), Encode(text[|ch|..]));
      RoundTrip(text[|ch|..]);
    }
  }

  lemma {:induction false} WellFormedStays(text: Str)
    requires IsWellFormed(text)
    ensures Replaced(text) == text
    decreases |text|
  {
    if text != [] {
      var ch := FirstChar(text);
      UnitsOfScalar(ch);
      assert text == ch + text[|ch|..];
      WellFormedStays(text[|ch|..]);
    }
  }

  /** A surrogate that is not half of a pair. */
  predicate IsLone(text: Str, i: nat)
    requires i < |text|
  {
    || (0xD800 <= text[i] <= 0xDBFF && !(i + 1 < |text| && 0xDC00 <= text[i + 1] <= 0xDFFF))
    || (0xDC00 <= text[i] <= 0xDFFF && !(i > 0 && 0xD800 <= text[i - 1] <= 0xDBFF))
  }

  lemma LoneLater(text: Str, i: nat)
    requires text != [] && |FirstChar(text)| <= i < |text|
    ensures var n := |FirstChar(text)|; IsLone(text, i) <==> IsLone(text[n..], i - n)
  {
  }

  /** The replacement character stands exactly where a surrogate is on its own. */
  lemma {:induction false} ReplacedExactly(text: Str, i: nat)
    requires i < |text|
    ensures Replaced(text)[i] == if IsLone(text, i) then 0xFFFD else text[i]
    decreases |text|
  {
    var ch := FirstChar(text);
    UnitsOfScalar(ch);
    if i >= |ch| {
      LoneLater(text, i);
      ReplacedExactly(text[|ch|..], i - |ch|);
    }
  }

  /** Characters of the examples in section 7 of RFC 3629, one for each length. */
  lemma SamplesEncoded()
    ensures EncodeScalar(Scalar([0x41])) == [0x41] && EncodeScalar(Scalar([0x391])) == [0xCE, 0x91]
    ensures EncodeScalar(Scalar([0x2262])) == [0xE2, 0x89, 0xA2] && EncodeScalar(Scalar([0xFEFF])) == [0xEF, 0xBB, 0xBF]
    ensures EncodeScalar(Scalar([0xD84C, 0xDFB4])) == [0xF0, 0xA3, 0x8E, 0xB4]
  {
  }

  // ---- Where a text may be cut ----

  /** A place between two characters. */
  predicate IsCut(text: Str, k: nat)
    decreases |text|
  {
    k == 0 || (text != [] && var n := |FirstChar(text)|; k >= n && IsCut(text[n..], k - n))
  }

  /** The last place whose bytes fit. */
  function Fit(text: Str, bytes: nat): (k: nat)
    ensures k <= |text|
    decreases |text|
  {
    if text == [] then 0
    else
      var ch := FirstChar(text);
      var n := |EncodeScalar(Scalar(ch))|;
      if n > bytes then 0 else |ch| + Fit(text[|ch|..], bytes - n)
  }

  lemma CutFirst(text: Str, k: nat)
    requires IsCut(text, k) && 0 < k <= |text|
    ensures FirstChar(text[..k]) == FirstChar(text)
    ensures text[..k][|FirstChar(text)|..] == text[|FirstChar(text)|..][..k - |FirstChar(text)|]
    ensures Encode(text[..k]) == EncodeScalar(Scalar(FirstChar(text))) + Encode(text[|FirstChar(text)|..][..k - |FirstChar(text)|])
  {
  }

  /** No cut whose bytes fit lies beyond it. */
  lemma {:induction false} FitIsLongest(text: Str, bytes: nat, k: nat)
    requires IsCut(text, k) && k <= |text| && |Encode(text[..k])| <= bytes
    ensures k <= Fit(text, bytes)
    decreases |text|
  {
    if k > 0 {
      CutFirst(text, k);
      var ch := FirstChar(text);
      var n := |EncodeScalar(Scalar(ch))|;
      FitIsLongest(text[|ch|..], bytes - n, k - |ch|);
    }
  }

  lemma {:induction false} FitFits(text: Str, bytes: nat)
    ensures IsCut(text, Fit(text, bytes)) && |Encode(text[..Fit(text, bytes)])| <= bytes
    decreases |text|
  {
    var k := Fit(text, bytes);
    if k > 0 {
      var ch := FirstChar(text);
      FitFits(text[|ch|..], bytes - |EncodeScalar(Scalar(ch))|);
      CutFirst(text, k);
    }
  }

  predicate CutAt(text: Str, end: nat)
    requires end < |Encode(text)|
  {
    if Continues(Encode(text)[end]) then end > 0 && Fit(text, end) == Fit(text, end - 1)
    else Encode(text[..Fit(text, end)]) == Encode(text)[..end]
  }

  lemma InFirst(text: Str, end: nat)
    requires text != [] && end < |EncodeScalar(Scalar(FirstChar(text)))|
    ensures end < |Encode(text)| && CutAt(text, end)
  {
    EncodedScalar(Scalar(FirstChar(text)));
    assert text[..0] == [];
  }

  lemma FitPast(text: Str, end: nat)
    requires text != [] && end >= |EncodeScalar(Scalar(FirstChar(text)))|
    ensures var ch := FirstChar(text); var n := |EncodeScalar(Scalar(ch))|;
            Fit(text, end) == |ch| + Fit(text[|ch|..], end - n)
  {
  }

  lemma BytesPast(first: seq<Byte>, rest: seq<Byte>, end: nat)
    requires |first| <= end < |first + rest|
    ensures (first + rest)[end] == rest[end - |first|] && (first + rest)[..end] == first + rest[..end - |first|]
  {
  }

  lemma PastFirst(text: Str, end: nat)
    requires text != [] && end < |Encode(text)| && end >= |EncodeScalar(Scalar(FirstChar(text)))|
    requires var n := |EncodeScalar(Scalar(FirstChar(text)))|; CutAt(text[|FirstChar(text)|..], end - n)
    ensures CutAt(text, end)
  {
    var ch := FirstChar(text);
    var first, rest := EncodeScalar(Scalar(ch)), text[|ch|..];
    FitPast(text, end);
    BytesPast(first, Encode(rest), end);
    if Continues(Encode(text)[end]) {
      if end - 1 >= |first| { FitPast(text, end - 1); }
    } else {
      FitFits(text, end);
      CutFirst(text, Fit(text, end));
    }
  }

  /** Reading the bytes from the bound backwards: a continuation byte is inside a character, any other starts one. */
  lemma {:induction false} ByteAt(text: Str, end: nat)
    requires end < |Encode(text)|
    ensures CutAt(text, end)
    decreases |text|
  {
    var ch := FirstChar(text);
    var n := |EncodeScalar(Scalar(ch))|;
    if end < n {
      InFirst(text, end);
    } else {
      ByteAt(text[|ch|..], end - n);
      PastFirst(text, end);
    }
  }

  // ---- excerpt ----

  function Excerpt(text: Str, bytes: nat): Str {
    if |Encode(text)| <= bytes then text else Replaced(text[..Fit(text, bytes)])
  }

  method ExcerptOf(text: Str, bytes: nat) returns (r: Str)
    ensures r == Excerpt(text, bytes)
  {
    var buffer := Encode(text);
    if |buffer| <= bytes { return text; }
    var end: nat := bytes;
    while end > 0 && Continues(buffer[end])
      invariant end <= bytes && Fit(text, end) == Fit(text, bytes)
    {
      ByteAt(text, end);
      end := end - 1;
    }
    ByteAt(text, end);
    RoundTrip(text[..Fit(text, bytes)]);
    return Decode(buffer[..end]);
  }

  /**
   * The excerpt is the longest prefix that ends between two characters and whose bytes fit; lone surrogates come out
   * as U+FFFD when anything was cut off.
   */
  lemma ExcerptIsLongest(text: Str, bytes: nat)
    ensures var r := Excerpt(text, bytes);
            && |r| <= |text| && IsCut(text, |r|) && |Encode(text[..|r|])| <= bytes
            && (forall k :: 0 <= k <= |text| && IsCut(text, k) && |Encode(text[..k])| <= bytes ==> k <= |r|)
            && r == (if |r| == |text| then text else Replaced(text[..|r|]))
  {
    FitFits(text, bytes);
    if |Encode(text)| <= bytes {
      WholeIsCut(text);
      assert text[..|text|] == text;
    } else {
      forall k | 0 <= k <= |text| && IsCut(text, k) && |Encode(text[..k])| <= bytes
        ensures k <= Fit(text, bytes)
      {
        FitIsLongest(text, bytes, k);
      }
      assert text[..|text|] == text;
    }
  }

  lemma {:induction false} WholeIsCut(text: Str)
    ensures IsCut(text, |text|)
    decreases |text|
  {
    if text != [] { WholeIsCut(text[|FirstChar(text)|..]); }
  }

  // ---- The chunks of a body ----

  /** With four bytes to spend there is always room for a character. */
  lemma Progress(text: Str, bytes: nat)
    requires text != [] && bytes >= 4
    ensures Excerpt(text, bytes) != []
  {
  }

  function ChunksOf(text: Str, bytes: nat): seq<Str>
    requires bytes >= 4
    decreases |text|
  {
    if text == [] then []
    else
      Progress(text, bytes);
      ExcerptIsLongest(text, bytes);
      var chunk := Excerpt(text, bytes);
      [chunk] + ChunksOf(text[|chunk|..], bytes)
  }

  /** The loop of `refresh`, whose bound is 8000. */
  method Chunks(body: Str, bytes: nat) returns (chunks: seq<Str>)
    requires bytes >= 4
    ensures chunks == ChunksOf(body, bytes)
  {
    chunks := [];
    var remaining := body;
    while remaining != []
      invariant chunks + ChunksOf(remaining, bytes) == ChunksOf(body, bytes)
      decreases |remaining|
    {
      var chunk := ExcerptOf(remaining, bytes);
      Progress(remaining, bytes);
      ExcerptIsLongest(remaining, bytes);
      chunks := chunks + [chunk];
      remaining := remaining[|chunk|..];
    }
  }

  function Joined(chunks: seq<Str>): Str { if chunks == [] then [] else chunks[0] + Joined(chunks[1..]) }

  lemma Regroup(a: Str, b: Str, c: Str)
    ensures a + (b + c) == (a + b) + c
  {
  }

  lemma {:induction false} ReplacedCut(text: Str, k: nat)
    requires IsCut(text, k) && k <= |text|
    ensures Replaced(text) == Replaced(text[..k]) + Replaced(text[k..])
    decreases |text|
  {
    if k == 0 {
      assert text[..0] == [] && text[0..] == text;
    } else {
      var ch := FirstChar(text);
      var front, rest := text[..k], text[|ch|..];
      CutFirst(text, k);
      ReplacedCut(rest, k - |ch|);
      assert rest[k - |ch|..] == text[k..];
      var a, b, c := Units(Scalar(ch)), Replaced(rest[..k - |ch|]), Replaced(text[k..]);
      assert Replaced(front) == a + b;
      assert Replaced(text) == a + Replaced(rest);
      Regroup(a, b, c);
    }
  }

  lemma {:induction false} EncodeReplaced(text: Str)
    ensures Encode(Replaced(text)) == Encode(text)
    decreases |text|
  {
    if text != [] {
      var ch := FirstChar(text);
      var rest := text[|ch|..];
      EncodeReplaced(rest);
      UnitsOfScalar(ch);
      var units := Units(Scalar(ch));
      var r := units + Replaced(rest);
      assert FirstChar(r) == units;
      assert r[|units|..] == Replaced(rest);
      assert Scalar(units) == Scalar(ch);
    }
  }

  /** The text, except that lone surrogates may have been replaced. */
  predicate Keeps(text: Str, r: Str) {
    |r| == |text| && forall i :: 0 <= i < |text| ==> r[i] == text[i] || r[i] == Replaced(text)[i]
  }

  /** The chunks fit the bound, none is empty, and joined they are the body again, but for lone surrogates. */
  lemma {:induction false} ChunksJoin(text: Str, bytes: nat)
    requires bytes >= 4
    ensures Keeps(text, Joined(ChunksOf(text, bytes)))
    ensures forall c <- ChunksOf(text, bytes) :: c != [] && |Encode(c)| <= bytes
    decreases |text|
  {
    if text != [] {
      var chunk := Excerpt(text, bytes);
      Progress(text, bytes);
      ExcerptIsLongest(text, bytes);
      var rest := text[|chunk|..];
      ChunksJoin(rest, bytes);
      ReplacedCut(text, |chunk|);
      EncodeReplaced(text[..|chunk|]);
      assert text[..|text|] == text;
      var chunks := ChunksOf(text, bytes);
      assert chunks[1..] == ChunksOf(rest, bytes);
      assert Joined(chunks) == chunk + Joined(ChunksOf(rest, bytes));
    }
  }

  /** A well-formed body is the concatenation of its chunks. */
  lemma ChunksConcatenate(body: Str, bytes: nat)
    requires bytes >= 4 && IsWellFormed(body)
    ensures Joined(ChunksOf(body, bytes)) == body
  {
    ChunksJoin(body, bytes);
    WellFormedStays(body);
  }

  /** Under four bytes the loop may make no progress: exactly when the next character does not fit. */
  lemma StuckExactly(text: Str, bytes: nat)
    requires text != []
    ensures Excerpt(text, bytes) == [] <==> |EncodeScalar(Scalar(FirstChar(text)))| > bytes
  {
  }
}
