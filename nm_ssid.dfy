/** `decodeSsidBytes` of lib/NetworkManager.js: the text of a Wi-Fi SSID,
    which the bus delivers as a byte array (`ay`), a plain array of numbers,
    or already as a string.

    The two `TextDecoder`s the source constructs are parameters: each is a
    function from bytes to the decoded text, or None where it throws. */
module Ssid {
  import opened Common
  import opened JsValue

  /** `typeof n === 'number' ? (n & 0xff) : 0`. For an integer, `& 0xff`
      keeps the low eight bits of its two's-complement form, which is its
      residue modulo 256, also for negative numbers. */
  function MaskByte(v: Value): (b: Byte)
    ensures v.Num? ==> (v.n - b) % 256 == 0
    ensures v.Num? && 0 <= v.n < 256 ==> b == v.n
    ensures !v.Num? ==> b == 0
  {
    if v.Num? then v.n % 256 else 0
  }

  /** `bytes.map(MaskByte)`. */
  function MaskBytes(items: seq<Value>): (r: seq<Byte>)
    ensures |r| == |items|
    ensures forall k :: 0 <= k < |items| ==> r[k] == MaskByte(items[k])
  {
    seq(|items|, k requires 0 <= k < |items| => MaskByte(items[k]))
  }

  predicate AllZero(b: seq<Byte>) { forall k :: 0 <= k < |b| ==> b[k] == 0 }

  /** The bytes with every trailing NUL removed: the longest prefix that
      leaves only zeros behind it and does not itself end in a zero. */
  function TrimNuls(b: seq<Byte>): (r: seq<Byte>)
    ensures |r| <= |b| && r == b[..|r|]
    ensures AllZero(b[|r|..])
    ensures r == [] || r[|r| - 1] != 0
    decreases |b|
  {
    if b == [] || b[|b| - 1] != 0 then b
    else
      var r := TrimNuls(b[..|b| - 1]);
      assert b[|r|..] == b[..|b| - 1][|r|..] + [0];
      r
  }

  /** The `while(end > 0 && bytes[end-1] === 0) end--` loop: the length of
      the part of the buffer that is kept. */
  method TrimEnd(bytes: seq<Byte>) returns (end: nat)
    ensures end <= |bytes| && bytes[..end] == TrimNuls(bytes)
  {
    end := |bytes|;
    assert bytes[..end] == bytes;
    while end > 0 && bytes[end - 1] == 0
      invariant end <= |bytes|
      invariant TrimNuls(bytes[..end]) == TrimNuls(bytes)
    {
      assert bytes[..end][..end - 1] == bytes[..end - 1];
      end := end - 1;
    }
  }

  /** Trailing NULs never reach the decoder: padding a buffer with zeros
      leaves the trimmed bytes as they were. */
  lemma {:induction false} TrimIgnoresPadding(b: seq<Byte>, zeros: seq<Byte>)
    requires AllZero(zeros)
    ensures TrimNuls(b + zeros) == TrimNuls(b)
    decreases |zeros|
  {
    if zeros != [] {
      var shorter := zeros[..|zeros| - 1];
      assert (b + zeros)[..|b + zeros| - 1] == b + shorter;
      TrimIgnoresPadding(b, shorter);
    } else {
      assert b + zeros == b;
    }
  }

  lemma TrimIdempotent(b: seq<Byte>)
    ensures TrimNuls(TrimNuls(b)) == TrimNuls(b)
  {
  }

  // ---------------------------------------------------------------------
  // The last resort: '0x' and two lower-case hex digits per byte
  // ---------------------------------------------------------------------

  function HexDigit(d: nat): (c: char)
    requires d < 16
  {
    if d < 10 then DigitChar(d) else ('a' as int + d - 10) as char
  }

  /** The value of a lower-case hex digit. */
  function HexValue(c: char): int
  {
    if '0' <= c <= '9' then c as int - '0' as int
    else if 'a' <= c <= 'f' then c as int - 'a' as int + 10
    else 0
  }

  /** `b.toString(16).padStart(2, '0')`. */
  function HexByte(b: Byte): (r: string)
    ensures |r| == 2 && 16 * HexValue(r[0]) + HexValue(r[1]) == b
  {
    var digits := if b < 16 then [HexDigit(b)] else [HexDigit(b / 16), HexDigit(b % 16)];
    PadStart(digits, 2, '0')
  }

  function HexDigits(bytes: seq<Byte>): (r: string)
    ensures |r| == 2 * |bytes|
  {
    if bytes == [] then "" else HexByte(bytes[0]) + HexDigits(bytes[1..])
  }

  /** The hex text holds every byte, in order. */
  lemma {:induction false} HexDigitsRoundTrip(bytes: seq<Byte>)
    ensures forall k :: 0 <= k < |bytes| ==>
      16 * HexValue(HexDigits(bytes)[2 * k]) + HexValue(HexDigits(bytes)[2 * k + 1]) == bytes[k]
  {
    if bytes != [] {
      HexDigitsRoundTrip(bytes[1..]);
      var h := HexDigits(bytes);
      assert h == HexByte(bytes[0]) + HexDigits(bytes[1..]);
      forall k | 1 <= k < |bytes|
        ensures 16 * HexValue(h[2 * k]) + HexValue(h[2 * k + 1]) == bytes[k]
      {
        assert h[2 * k] == HexDigits(bytes[1..])[2 * (k - 1)];
        assert h[2 * k + 1] == HexDigits(bytes[1..])[2 * (k - 1) + 1];
      }
    }
  }

  // ---------------------------------------------------------------------
  // decodeSsidBytes
  // ---------------------------------------------------------------------

  /** The trimmed bytes through the UTF-8 decoder, else the Latin-1 one,
      else as '0x' and hex digits. */
  function DecodeTrimmed(t: seq<Byte>, utf8: seq<Byte> -> Option<string>, latin1: seq<Byte> -> Option<string>): (r: string)
    ensures utf8(t).Some? ==> r == utf8(t).value
    ensures utf8(t).None? && latin1(t).Some? ==> r == latin1(t).value
    ensures utf8(t).None? && latin1(t).None? ==> r == "0x" + HexDigits(t) && |r| == 2 + 2 * |t|
  {
    match utf8(t)
    case Some(s) => s
    case None =>
      match latin1(t)
      case Some(s) => s
      case None => "0x" + HexDigits(t)
  }

  /** `decodeSsidBytes(bytes)`; None stands for `undefined`. An array is
      masked into a byte buffer first; a byte buffer is trimmed and
      decoded; a string is returned as it is; anything else has no SSID. */
  function DecodeSsidBytes(v: Value, utf8: seq<Byte> -> Option<string>, latin1: seq<Byte> -> Option<string>): (r: Option<string>)
    ensures v.Str? ==> r == Some(v.s)
    ensures r.Some? <==> v.Str? || v.Arr? || v.Octets?
    ensures v.Octets? ==> r == Some(DecodeTrimmed(TrimNuls(v.bytes), utf8, latin1))
    ensures v.Arr? ==> r == Some(DecodeTrimmed(TrimNuls(MaskBytes(v.items)), utf8, latin1))
  {
    match v
    case Arr(items) => Some(DecodeTrimmed(TrimNuls(MaskBytes(items)), utf8, latin1))
    case Octets(bytes) => Some(DecodeTrimmed(TrimNuls(bytes), utf8, latin1))
    case Str(s) => Some(s)
    case _ => None
  }

  /** A plain array decodes exactly as the byte buffer its masked
      elements make. */
  lemma ArrayDecodesAsMaskedBuffer(items: seq<Value>, utf8: seq<Byte> -> Option<string>, latin1: seq<Byte> -> Option<string>)
    ensures DecodeSsidBytes(Arr(items), utf8, latin1) == DecodeSsidBytes(Octets(MaskBytes(items)), utf8, latin1)
  {
  }

  /** An SSID padded with NULs decodes as the unpadded one. */
  lemma PaddingDoesNotChangeSsid(b: seq<Byte>, zeros: seq<Byte>, utf8: seq<Byte> -> Option<string>, latin1: seq<Byte> -> Option<string>)
    requires AllZero(zeros)
    ensures DecodeSsidBytes(Octets(b + zeros), utf8, latin1) == DecodeSsidBytes(Octets(b), utf8, latin1)
  {
    TrimIgnoresPadding(b, zeros);
  }

  /** When both decoders throw, the text is '0x' followed by two hex digits
      for each kept byte, from which every byte reads back. */
  lemma HexFallbackHoldsBytes(bytes: seq<Byte>, utf8: seq<Byte> -> Option<string>, latin1: seq<Byte> -> Option<string>)
    requires utf8(TrimNuls(bytes)).None? && latin1(TrimNuls(bytes)).None?
    ensures DecodeSsidBytes(Octets(bytes), utf8, latin1) == Some("0x" + HexDigits(TrimNuls(bytes)))
    ensures |HexDigits(TrimNuls(bytes))| == 2 * |TrimNuls(bytes)|
    ensures forall k :: 0 <= k < |TrimNuls(bytes)| ==>
      16 * HexValue(HexDigits(TrimNuls(bytes))[2 * k]) + HexValue(HexDigits(TrimNuls(bytes))[2 * k + 1]) == TrimNuls(bytes)[k]
  {
    HexDigitsRoundTrip(TrimNuls(bytes));
  }
}
