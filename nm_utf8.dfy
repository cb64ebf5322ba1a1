/** `toUtf8Bytes` of lib/NetworkManager.js (written out twice, for a new
    connection's SSID and for a hotspot's): a hand-written encoder from the
    UTF-16 code units of a JavaScript string to the bytes of UTF-8
    (section 3 of RFC 3629).

    The source's bitwise operators are written arithmetically: every `|` in
    it combines a prefix with bits that lie wholly below the prefix's bits,
    so it is `+`; `x >> k` on these non-negative values is `x / 2^k`; and
    `x & 0x3F` is `x % 64`. Reading `s.charCodeAt(i)` past the end gives NaN,
    and `NaN & 0x3FF` is 0. */
module Utf8 {
  import opened Common
  import opened JsValue

  /** A UTF-16 code unit, what `charCodeAt` returns inside the string. */
  type CodeUnit = x: int | 0 <= x < 0x1_0000

  predicate IsSurrogate(u: int) { 0xD800 <= u < 0xE000 }
  predicate IsHighSurrogate(u: int) { 0xD800 <= u < 0xDC00 }
  predicate IsLowSurrogate(u: int) { 0xDC00 <= u < 0xE000 }

  /** A Unicode scalar value: a code point that is not a surrogate. */
  predicate IsScalar(cp: int) { 0 <= cp < 0x11_0000 && !IsSurrogate(cp) }

  predicate IsContinuation(b: Byte) { 0x80 <= b < 0xC0 }

  // ---------------------------------------------------------------------
  // The encoder as the source computes it
  // ---------------------------------------------------------------------

  /** `s.charCodeAt(i) & 0x3FF`, which is 0 past the end of the string. */
  function LowBitsAt(s: seq<CodeUnit>, i: nat): (r: int)
    ensures 0 <= r < 0x400
    ensures i < |s| ==> r == s[i] % 0x400
  {
    if i < |s| then s[i] % 0x400 else 0
  }

  /** The code point the encoder assembles when it meets a unit in
      0xD800..0xDFFF at i: that unit's low ten bits above the next unit's,
      whatever the two units are. */
  function PairCodePoint(s: seq<CodeUnit>, i: nat): (cp: int)
    requires i < |s|
    ensures 0x1_0000 <= cp < 0x11_0000
  {
    0x1_0000 + (s[i] % 0x400) * 0x400 + LowBitsAt(s, i + 1)
  }

  /** The bytes the encoder pushes for one code point (a unit that is not a
      surrogate, or the code point of a pair): one byte below 0x80, two below
      0x800, three below 0x10000 and four above. */
  function CodePointBytes(cp: int): (r: seq<Byte>)
    requires 0 <= cp < 0x11_0000
    ensures cp < 0x80 ==> |r| == 1
    ensures 0x80 <= cp < 0x800 ==> |r| == 2
    ensures 0x800 <= cp < 0x1_0000 ==> |r| == 3
    ensures 0x1_0000 <= cp ==> |r| == 4
  {
    if cp < 0x80 then [cp]
    else if cp < 0x800 then [0xC0 + cp / 64, 0x80 + cp % 64]
    else if cp < 0x1_0000 then [0xE0 + cp / 0x1000, 0x80 + (cp / 64) % 64, 0x80 + cp % 64]
    else [0xF0 + cp / 0x4_0000, 0x80 + (cp / 0x1000) % 64, 0x80 + (cp / 64) % 64, 0x80 + cp % 64]
  }

  /** The bytes produced from position i of s on: a surrogate unit and the
      unit after it (if any) give one four-byte sequence; any other unit
      gives its own sequence. */
  function EncodeFrom(s: seq<CodeUnit>, i: nat): seq<Byte>
    decreases |s| - i
  {
    if i >= |s| then []
    else if IsSurrogate(s[i]) then CodePointBytes(PairCodePoint(s, i)) + EncodeFrom(s, i + 2)
    else CodePointBytes(s[i]) + EncodeFrom(s, i + 1)
  }

  function Encode(s: seq<CodeUnit>): seq<Byte> { EncodeFrom(s, 0) }

  /** `toUtf8Bytes(s)`: the loop that pushes bytes into `out`, advancing `i`
      a second time inside the body when it meets a surrogate. */
  method ToUtf8Bytes(s: seq<CodeUnit>) returns (out: seq<Byte>)
    ensures out == Encode(s)
  {
    out := [];
    var i := 0;
    while i < |s|
      invariant 0 <= i <= |s| + 1
      invariant out + EncodeFrom(s, i) == Encode(s)
      decreases |s| + 1 - i
    {
      var code: int := s[i];
      ghost var before := out;
      ghost var start := i;
      if code < 0x80 {
        out := out + [code];
      } else if code < 0x800 {
        out := out + [0xC0 + code / 64, 0x80 + code % 64];
      } else if code < 0xD800 || code >= 0xE000 {
        out := out + [0xE0 + code / 0x1000, 0x80 + (code / 64) % 64, 0x80 + code % 64];
      } else {
        i := i + 1;
        var next: int := if i < |s| then s[i] % 0x400 else 0;
        var cp := 0x1_0000 + (code % 0x400) * 0x400 + next;
        assert cp == PairCodePoint(s, start);
        out := out + [0xF0 + cp / 0x4_0000, 0x80 + (cp / 0x1000) % 64, 0x80 + (cp / 64) % 64, 0x80 + cp % 64];
      }
      ghost var pushed := if IsSurrogate(code) then CodePointBytes(PairCodePoint(s, start)) else CodePointBytes(code);
      ghost var tail := EncodeFrom(s, i + 1);
      assert out == before + pushed;
      assert EncodeFrom(s, start) == pushed + tail;
      AppendAssoc(before, pushed, tail);
      i := i + 1;
    }
  }

  lemma AppendAssoc(a: seq<Byte>, b: seq<Byte>, c: seq<Byte>)
    ensures (a + b) + c == a + (b + c)
  {
  }

  // ---------------------------------------------------------------------
  // Reference definitions: UTF-16 decoding and UTF-8 decoding
  // ---------------------------------------------------------------------

  /** Well-formed UTF-16 from position i on (section 2.2 of RFC 2781): every
      high surrogate is followed by a low one, and no low surrogate stands
      alone. */
  predicate WellFormedFrom(s: seq<CodeUnit>, i: nat)
    decreases |s| - i
  {
    if i >= |s| then true
    else if IsHighSurrogate(s[i]) then
      i + 1 < |s| && IsLowSurrogate(s[i + 1]) && WellFormedFrom(s, i + 2)
    else !IsLowSurrogate(s[i]) && WellFormedFrom(s, i + 1)
  }

  /** The code points a well-formed UTF-16 string stands for. */
  function CodePointsFrom(s: seq<CodeUnit>, i: nat): seq<int>
    decreases |s| - i
  {
    if i >= |s| then []
    else if IsHighSurrogate(s[i]) && i + 1 < |s| then
      [0x1_0000 + (s[i] as int - 0xD800) * 0x400 + (s[i + 1] as int - 0xDC00)] + CodePointsFrom(s, i + 2)
    else [s[i]] + CodePointsFrom(s, i + 1)
  }

  /** The first character of a UTF-8 byte string, checked against the
      patterns of section 4 of RFC 3629: the code point and how many bytes it
      takes, or None for an ill-formed, overlong or surrogate sequence. */
  function DecodeFirst(b: seq<Byte>): (r: Option<(int, nat)>)
    requires |b| >= 1
    ensures r.Some? ==> 1 <= r.value.1 <= 4 && r.value.1 <= |b| && IsScalar(r.value.0)
  {
    var b0: int := b[0];
    if b0 < 0x80 then Some((b0, 1))
    else if 0xC2 <= b0 < 0xE0 && |b| >= 2 && IsContinuation(b[1]) then
      Some(((b0 - 0xC0) * 64 + (b[1] as int - 0x80), 2))
    else if 0xE0 <= b0 < 0xF0 && |b| >= 3 && IsContinuation(b[1]) && IsContinuation(b[2]) then
      var cp := (b0 - 0xE0) * 0x1000 + (b[1] as int - 0x80) * 64 + (b[2] as int - 0x80);
      if cp < 0x800 || IsSurrogate(cp) then None else Some((cp, 3))
    else if 0xF0 <= b0 < 0xF5 && |b| >= 4 && IsContinuation(b[1]) && IsContinuation(b[2]) && IsContinuation(b[3]) then
      var cp := (b0 - 0xF0) * 0x4_0000 + (b[1] as int - 0x80) * 0x1000 + (b[2] as int - 0x80) * 64 + (b[3] as int - 0x80);
      if cp < 0x1_0000 || cp >= 0x11_0000 then None else Some((cp, 4))
    else None
  }

  /** The code points of a UTF-8 byte string, or None if it is ill-formed. */
  function Decode(b: seq<Byte>): Option<seq<int>>
    decreases |b|
  {
    if b == [] then Some([])
    else match DecodeFirst(b)
      case None => None
      case Some((cp, n)) =>
        match Decode(b[n..])
        case None => None
        case Some(rest) => Some([cp] + rest)
  }

  // ---------------------------------------------------------------------
  // Properties
  // ---------------------------------------------------------------------

  /** cp splits into a 3-bit, and three 6-bit groups. */
  lemma SixBitGroups(cp: int)
    requires 0 <= cp < 0x20_0000
    ensures cp == (cp / 0x4_0000) * 0x4_0000 + ((cp / 0x1000) % 64) * 0x1000 + ((cp / 64) % 64) * 64 + cp % 64
    ensures cp < 0x1_0000 ==> cp == (cp / 0x1000) * 0x1000 + ((cp / 64) % 64) * 64 + cp % 64
  {
    var a := cp / 64;
    var b := a / 64;
    var c := b / 64;
    assert cp == 64 * a + cp % 64;
    assert a == 64 * b + a % 64;
    assert b == 64 * c + b % 64;
    assert cp / 0x1000 == b;
    assert cp / 0x4_0000 == c;
  }

  /** Decoding the bytes of one code point gives it back and consumes exactly
      those bytes, whatever follows. */
  lemma DecodeFirstOfCodePoint(cp: int, rest: seq<Byte>)
    requires IsScalar(cp)
    ensures DecodeFirst(CodePointBytes(cp) + rest) == Some((cp, |CodePointBytes(cp)|))
  {
    SixBitGroups(cp);
    var b := CodePointBytes(cp) + rest;
    if cp < 0x80 {
    } else if cp < 0x800 {
      assert b[0] == 0xC0 + cp / 64 && b[1] == 0x80 + cp % 64;
    } else if cp < 0x1_0000 {
      assert b[0] == 0xE0 + cp / 0x1000 && b[1] == 0x80 + (cp / 64) % 64 && b[2] == 0x80 + cp % 64;
    } else {
      assert b[0] == 0xF0 + cp / 0x4_0000;
      assert b[1] == 0x80 + (cp / 0x1000) % 64 && b[2] == 0x80 + (cp / 64) % 64 && b[3] == 0x80 + cp % 64;
    }
  }

  lemma DecodeCons(cp: int, rest: seq<Byte>)
    requires IsScalar(cp)
    ensures Decode(rest).Some? ==> Decode(CodePointBytes(cp) + rest) == Some([cp] + Decode(rest).value)
    ensures Decode(rest).None? ==> Decode(CodePointBytes(cp) + rest).None?
  {
    var x := CodePointBytes(cp);
    DecodeFirstOfCodePoint(cp, rest);
    assert (x + rest)[|x|..] == rest;
  }

  /** On well-formed UTF-16 the encoder produces exactly the UTF-8 of the
      string's code points: decoding its output by the rules of RFC 3629
      succeeds and gives back the code points. */
  lemma {:induction false} EncodeFromIsUtf8(s: seq<CodeUnit>, i: nat)
    requires WellFormedFrom(s, i)
    ensures Decode(EncodeFrom(s, i)) == Some(CodePointsFrom(s, i))
    decreases |s| - i
  {
    if i < |s| {
      if IsHighSurrogate(s[i]) {
        EncodeFromIsUtf8(s, i + 2);
        var cp := PairCodePoint(s, i);
        assert cp == 0x1_0000 + (s[i] as int - 0xD800) * 0x400 + (s[i + 1] as int - 0xDC00);
        DecodeCons(cp, EncodeFrom(s, i + 2));
      } else {
        EncodeFromIsUtf8(s, i + 1);
        DecodeCons(s[i], EncodeFrom(s, i + 1));
      }
    }
  }

  lemma EncodeIsUtf8(s: seq<CodeUnit>)
    requires WellFormedFrom(s, 0)
    ensures Decode(Encode(s)) == Some(CodePointsFrom(s, 0))
  {
    EncodeFromIsUtf8(s, 0);
  }

  /** ASCII text comes out byte for byte. */
  lemma {:induction false} AsciiUnchanged(s: seq<CodeUnit>, i: nat)
    requires i <= |s|
    requires forall k :: 0 <= k < |s| ==> s[k] < 0x80
    ensures |EncodeFrom(s, i)| == |s| - i
    ensures forall k :: 0 <= k < |s| - i ==> EncodeFrom(s, i)[k] == s[i + k]
    decreases |s| - i
  {
    if i < |s| {
      AsciiUnchanged(s, i + 1);
      var rest := EncodeFrom(s, i + 1);
      assert !IsSurrogate(s[i]) && CodePointBytes(s[i]) == [s[i]];
      assert EncodeFrom(s, i) == [s[i]] + rest;
    }
  }

  /** A unit in 0xD800..0xDFFF always swallows the unit after it, even when
      that unit is not a low surrogate: both come out as one four-byte
      sequence, and the next unit encoded on its own is the one two places
      on. */
  lemma SurrogateSwallowsNext(s: seq<CodeUnit>, i: nat)
    requires i < |s| && IsSurrogate(s[i])
    ensures |EncodeFrom(s, i)| == 4 + |EncodeFrom(s, i + 2)|
    ensures EncodeFrom(s, i)[4..] == EncodeFrom(s, i + 2)
    ensures EncodeFrom(s, i)[0] >= 0xF0
  {
    var cp := PairCodePoint(s, i);
    assert EncodeFrom(s, i) == CodePointBytes(cp) + EncodeFrom(s, i + 2);
  }

  /** A low surrogate followed by 'A' (0x41): the 'A' is lost inside the
      four bytes of U+10041. */
  lemma LoneLowSurrogateExample()
    ensures Encode([0xDC00, 0x41]) == [0xF0, 0x90, 0x81, 0x81]
  {
    assert PairCodePoint([0xDC00, 0x41], 0) == 0x1_0041;
  }

  /** A high surrogate at the very end pairs with NaN, read as 0. */
  lemma TrailingHighSurrogateExample()
    ensures Encode([0xD83D]) == [0xF0, 0x9F, 0x90, 0x80]
  {
    assert PairCodePoint([0xD83D], 0) == 0x1_F400;
  }
}
