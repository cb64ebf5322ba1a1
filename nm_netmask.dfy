/** `toNetmaskFromPrefix` of lib/NetworkManager.js: a CIDR prefix length
    (section 3.1 of RFC 4632) turned into a dotted-quad netmask, with the
    JavaScript shift semantics written out: `0xffffffff << n` works on a
    32-bit integer and takes the shift count modulo 32, and `>>>` reads the
    result as an unsigned 32-bit value. */
module Netmask {
  import opened Common

  const Two32: int := 0x1_0000_0000

  function Pow2(n: nat): (r: nat)
    ensures r >= 1
  {
    if n == 0 then 1 else 2 * Pow2(n - 1)
  }

  lemma {:induction false} Pow2Add(a: nat, b: nat)
    ensures Pow2(a + b) == Pow2(a) * Pow2(b)
    decreases a
  {
    if a > 0 { Pow2Add(a - 1, b); }
  }

  lemma {:induction false} Pow2Monotone(a: nat, b: nat)
    requires a <= b
    ensures Pow2(a) <= Pow2(b)
    decreases b
  {
    if a < b { Pow2Monotone(a, b - 1); }
  }

  /** The powers of two the mask arithmetic needs. */
  lemma Pow2Table()
    ensures Pow2(0) == 1 && Pow2(1) == 2 && Pow2(7) == 128 && Pow2(8) == 0x100
    ensures Pow2(16) == 0x1_0000 && Pow2(24) == 0x100_0000
    ensures Pow2(31) == 0x8000_0000 && Pow2(32) == Two32
  {
    assert Pow2(1) == 2;
    assert Pow2(2) == 4;
    assert Pow2(3) == 8;
    assert Pow2(4) == 16;
    assert Pow2(5) == 32;
    assert Pow2(6) == 64;
    assert Pow2(7) == 128;
    assert Pow2(8) == 256;
    Pow2Add(8, 8);
    Pow2Add(16, 8);
    Pow2Add(24, 7);
    Pow2Add(24, 8);
  }

  /** The unsigned view of `0xffffffff << (32 - p)`. */
  function ShiftedMask(p: int): (m: int)
    requires 0 <= p <= 32
    ensures 0 <= m < Two32
  {
    var count := (32 - p) % 32;
    ((Two32 - 1) * Pow2(count)) % Two32
  }

  /** `(mask >>> shift) & 0xff`. */
  function OctetAt(m: int, shift: nat): (o: nat)
    requires 0 <= m
    ensures o < 256
  {
    (m / Pow2(shift)) % 256
  }

  function DottedQuad(a: nat, b: nat, c: nat, d: nat): string
  {
    Join([NatToString(a), NatToString(b), NatToString(c), NatToString(d)], ".")
  }

  /** The netmask for a parsed prefix (`p` is `None` when `parseInt` gives
      NaN); `None` stands for `undefined`. */
  function ToNetmaskFromPrefix(p: Option<int>): (r: Option<string>)
    ensures r.Some? <==> p.Some? && 0 <= p.value <= 32
  {
    if p.None? || !(0 <= p.value <= 32) then None
    else
      var m := ShiftedMask(p.value);
      Some(DottedQuad(OctetAt(m, 24), OctetAt(m, 16), OctetAt(m, 8), m % 256))
  }

  // ---------------------------------------------------------------------
  // Specification: an octet of a mask with `p` leading one bits
  // ---------------------------------------------------------------------

  /** Octet k (0 = most significant) of the 32-bit mask whose top p bits are
      one: 255 when the octet lies wholly inside the prefix, 0 when wholly
      outside, and otherwise the byte with `p - 8k` leading ones. */
  function LeadingOnesOctet(p: int, k: nat): (o: nat)
    requires k < 4
    ensures o < 256
  {
    if p >= 8 * (k + 1) then 255
    else if p <= 8 * k then 0
    else
      Pow2Monotone(8 * (k + 1) - p, 8);
      Pow2Table();
      256 - Pow2(8 * (k + 1) - p)
  }

  /** For 1 <= p <= 32 the shift count is 32 - p and the mask is
      2^32 - 2^(32-p), the value whose top p bits are one. */
  lemma ShiftedMaskValue(p: int)
    requires 1 <= p <= 32
    ensures ShiftedMask(p) == Two32 - Pow2(32 - p)
  {
    var c := 32 - p;
    assert (32 - p) % 32 == c;
    Pow2Monotone(c, 31);
    Pow2Table();
    AllOnesTimes(Pow2(c));
  }

  /** (2^32 - 1) * q wraps to 2^32 - q for a shift factor q <= 2^31. */
  lemma AllOnesTimes(q: int)
    requires 1 <= q <= 0x8000_0000
    ensures ((Two32 - 1) * q) % Two32 == Two32 - q
  {
    assert (Two32 - 1) * q == Two32 * (q - 1) + (Two32 - q);
  }

  /** 2^(24 - 8k), the divisor behind `>>> (24 - 8k)`, as a literal. */
  function OctetScale(k: nat): int
    requires k < 4
  {
    [0x100_0000, 0x1_0000, 0x100, 1][k]
  }

  lemma OctetScaleIsPow2(k: nat)
    requires k < 4
    ensures Pow2(24 - 8 * k) == OctetScale(k)
    ensures Pow2(32 - 8 * k) == 256 * OctetScale(k)
  {
    Pow2Table();
  }

  /** An octet lying wholly above the zero bits reads 255. */
  lemma FullOctet(k: nat, q: int)
    requires k < 4 && 1 <= q <= OctetScale(k)
    ensures ((Two32 - q) / OctetScale(k)) % 256 == 255
  {
    if k == 0 {} else if k == 1 {} else if k == 2 {} else {}
  }

  /** An octet lying wholly inside the zero bits reads 0. */
  lemma EmptyOctet(k: nat, e: int)
    requires 1 <= k < 4 && 1 <= e && 256 * OctetScale(k) * e <= Two32
    ensures ((Two32 - 256 * OctetScale(k) * e) / OctetScale(k)) % 256 == 0
  {
    if k == 1 {} else if k == 2 {} else {}
  }

  /** The octet where the prefix ends reads 256 - f, f = 2^(zero bits in it). */
  lemma PartialOctet(k: nat, f: int)
    requires k < 4 && 2 <= f <= 128
    ensures ((Two32 - OctetScale(k) * f) / OctetScale(k)) % 256 == 256 - f
  {
    if k == 0 {} else if k == 1 {} else if k == 2 {} else {}
  }

  /** Octet k of 2^32 - 2^(32-p) is LeadingOnesOctet(p, k). */
  lemma OctetOfPrefixMask(p: int, k: nat)
    requires 1 <= p <= 32 && k < 4
    ensures Pow2(32 - p) < Two32
    ensures OctetAt(Two32 - Pow2(32 - p), 24 - 8 * k) == LeadingOnesOctet(p, k)
  {
    Pow2Monotone(32 - p, 31);
    Pow2Table();
    if p >= 8 * (k + 1) {
      OctetInsidePrefix(p, k);
    } else if p <= 8 * k {
      OctetOutsidePrefix(p, k);
    } else {
      OctetWherePrefixEnds(p, k);
    }
  }

  lemma Pow2BelowTwo32(n: nat)
    requires n <= 31
    ensures Pow2(n) < Two32
  {
    Pow2Monotone(n, 31);
    Pow2Table();
  }

  lemma OctetInsidePrefix(p: int, k: nat)
    requires 1 <= p <= 32 && k < 4 && p >= 8 * (k + 1)
    ensures Pow2(32 - p) < Two32
    ensures OctetAt(Two32 - Pow2(32 - p), 24 - 8 * k) == 255
  {
    Pow2BelowTwo32(32 - p);
    var q := Pow2(32 - p);
    assert Pow2(24 - 8 * k) == OctetScale(k) by { OctetScaleIsPow2(k); }
    assert q <= OctetScale(k) by {
      OctetScaleIsPow2(k);
      Pow2Monotone(32 - p, 24 - 8 * k);
    }
    FullOctet(k, q);
  }

  lemma OctetOutsidePrefix(p: int, k: nat)
    requires 1 <= p <= 32 && k < 4 && p <= 8 * k
    ensures Pow2(32 - p) < Two32
    ensures OctetAt(Two32 - Pow2(32 - p), 24 - 8 * k) == 0
  {
    Pow2BelowTwo32(32 - p);
    var c := 32 - p;
    var q := Pow2(c);
    var e := Pow2(c - (32 - 8 * k));
    assert Pow2(24 - 8 * k) == OctetScale(k) by { OctetScaleIsPow2(k); }
    assert q == 256 * OctetScale(k) * e by {
      OctetScaleIsPow2(k);
      Pow2Add(32 - 8 * k, c - (32 - 8 * k));
    }
    assert q <= Two32;
    EmptyOctet(k, e);
  }

  lemma OctetWherePrefixEnds(p: int, k: nat)
    requires 1 <= p <= 32 && k < 4 && 8 * k < p < 8 * (k + 1)
    ensures Pow2(32 - p) < Two32
    ensures OctetAt(Two32 - Pow2(32 - p), 24 - 8 * k) == LeadingOnesOctet(p, k)
  {
    Pow2BelowTwo32(32 - p);
    var f := PartialOctetFactor(p, k);
    PartialOctet(k, f);
    assert Pow2(24 - 8 * k) == OctetScale(k) by { OctetScaleIsPow2(k); }
  }

  /** Where the prefix ends inside octet k, the mask is OctetScale(k) * f
      for f = 2^(zero bits in that octet), and the octet reads 256 - f. */
  lemma PartialOctetFactor(p: int, k: nat) returns (f: int)
    requires 1 <= p <= 32 && k < 4 && 8 * k < p < 8 * (k + 1)
    ensures 2 <= f <= 128
    ensures Pow2(32 - p) == OctetScale(k) * f
    ensures LeadingOnesOctet(p, k) == 256 - f
  {
    var j := 8 * (k + 1) - p;
    f := Pow2(j);
    OctetScaleIsPow2(k);
    Pow2Add(24 - 8 * k, j);
    Pow2Table();
    Pow2Monotone(1, j);
    Pow2Monotone(j, 7);
  }

  /** Every prefix from 1 to 32 gives the dotted quad whose four octets hold
      exactly p leading one bits. */
  lemma NetmaskHasLeadingOnes(p: int)
    requires 1 <= p <= 32
    ensures ToNetmaskFromPrefix(Some(p)) == Some(DottedQuad(
      LeadingOnesOctet(p, 0), LeadingOnesOctet(p, 1), LeadingOnesOctet(p, 2), LeadingOnesOctet(p, 3)))
  {
    OctetsOfShiftedMask(p);
  }

  /** The four octets `toNetmaskFromPrefix` reads off the shifted mask. */
  lemma OctetsOfShiftedMask(p: int)
    requires 1 <= p <= 32
    ensures OctetAt(ShiftedMask(p), 24) == LeadingOnesOctet(p, 0)
    ensures OctetAt(ShiftedMask(p), 16) == LeadingOnesOctet(p, 1)
    ensures OctetAt(ShiftedMask(p), 8) == LeadingOnesOctet(p, 2)
    ensures ShiftedMask(p) % 256 == LeadingOnesOctet(p, 3)
  {
    OctetOfShiftedMask(p, 0);
    OctetOfShiftedMask(p, 1);
    OctetOfShiftedMask(p, 2);
    OctetOfShiftedMask(p, 3);
    assert Pow2(0) == 1;
  }

  lemma OctetOfShiftedMask(p: int, k: nat)
    requires 1 <= p <= 32 && k < 4
    ensures OctetAt(ShiftedMask(p), 24 - 8 * k) == LeadingOnesOctet(p, k)
  {
    ShiftedMaskValue(p);
    OctetOfPrefixMask(p, k);
  }

  /** The text of the all-ones mask. */
  lemma AllOnesText()
    ensures DottedQuad(255, 255, 255, 255) == "255.255.255.255"
  {
    var t := NatToString(255);
    assert NatToString(25) == "25";
    assert t == "255";
    assert Join([t, t, t, t], ".") == t + "." + Join([t, t, t], ".");
    assert Join([t, t, t], ".") == t + "." + Join([t, t], ".");
    assert Join([t, t], ".") == t + "." + Join([t], ".");
  }

  /** Prefix 0 shifts by 32, which JavaScript reduces to a shift by 0: the
      mask is all ones, the same as for prefix 32. */
  lemma NetmaskZeroIsAllOnes()
    ensures ToNetmaskFromPrefix(Some(0)) == Some("255.255.255.255")
    ensures ToNetmaskFromPrefix(Some(0)) == ToNetmaskFromPrefix(Some(32))
  {
    Pow2Table();
    var m := ShiftedMask(0);
    assert m == Two32 - 1;
    assert OctetAt(m, 24) == 255 && OctetAt(m, 16) == 255 && OctetAt(m, 8) == 255;
    assert m % 256 == 255;
    AllOnesText();
  }
}
