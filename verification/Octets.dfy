/** Octet strings and the integers they stand for, big-endian. */
module Octets {
  import opened NumberTheory

  type Octet = x: int | 0 <= x < 256
  type Octets = seq<Octet>

  /** `int.from_bytes(s, "big")`. */
  function ToInt(s: Octets): nat {
    if s == [] then 0 else ToInt(s[..|s| - 1]) * 256 + s[|s| - 1]
  }

  /** The k low-order octets of x: what `x.to_bytes(k, "big")` gives when it does not overflow. */
  function ToOctets(x: nat, k: nat): (s: Octets)
    ensures |s| == k
  {
    if k == 0 then [] else ToOctets(x / 256, k - 1) + [x % 256]
  }

  /** The bound below which `to_bytes` does not overflow is the one at which it loses nothing. */
  lemma {:induction false} ToIntInvertsToOctets(x: nat, k: nat)
    ensures ToInt(ToOctets(x, k)) == x <==> x < Pow(256, k)
  {
    ToIntBounded(ToOctets(x, k));
    if x < Pow(256, k) {
      ToIntOfFitting(x, k);
    }
  }

  lemma {:induction false} ToIntOfFitting(x: nat, k: nat)
    requires x < Pow(256, k)
    ensures ToInt(ToOctets(x, k)) == x
  {
    if k > 0 {
      var y, b := x / 256, x % 256;
      assert x == y * 256 + b;
      assert y < Pow(256, k - 1);
      ToIntOfFitting(y, k - 1);
      ToIntAppend(ToOctets(y, k - 1), b);
    }
  }

  lemma ToIntAppend(s: Octets, b: Octet)
    ensures ToInt(s + [b]) == ToInt(s) * 256 + b
  {
    assert (s + [b])[..|s|] == s;
  }

  lemma {:induction false} ToOctetsInvertsToInt(s: Octets)
    ensures ToOctets(ToInt(s), |s|) == s
  {
    if s != [] {
      var last := s[|s| - 1];
      DivModUnique(ToInt(s), ToInt(s[..|s| - 1]), last, 256);
      ToOctetsInvertsToInt(s[..|s| - 1]);
      assert s == s[..|s| - 1] + [last];
    }
  }

  lemma {:induction false} ToIntBounded(s: Octets)
    ensures ToInt(s) < Pow(256, |s|)
  {
    if s != [] {
      ToIntBounded(s[..|s| - 1]);
    }
  }

  lemma ToIntInjective(s: Octets, t: Octets)
    requires |s| == |t| && ToInt(s) == ToInt(t)
    ensures s == t
  {
    ToOctetsInvertsToInt(s);
    ToOctetsInvertsToInt(t);
  }

  /** A small leading octet makes a small integer. */
  lemma {:induction false} LeadingOctetBounds(s: Octets, bound: nat)
    requires s != [] && s[0] < bound
    ensures ToInt(s) < bound * Pow(256, |s| - 1)
  {
    if |s| == 1 {
      assert ToInt(s[..0]) == 0;
      assert s[|s| - 1] == s[0];
    } else {
      var t := s[..|s| - 1];
      LeadingOctetBounds(t, bound);
      var w := Pow(256, |s| - 2);
      MulAssociative(bound, w, 256);
    }
  }

  lemma DivideTwice(x: nat, m: nat)
    requires m > 0
    ensures 256 * m > 0 && (x / 256) / m == x / (256 * m)
  {
    var y, b := x / 256, x % 256;
    var q, r := y / m, y % m;
    assert y == q * m + r;
    assert q * (256 * m) == 256 * (q * m) by {
      MulAssociative(q, 256, m);
      MulAssociative(256, q, m);
    }
    DivModUnique(x, q, 256 * r + b, 256 * m);
  }

  /** The octets are the digits to the base 256, the highest first. */
  lemma {:induction false} OctetAt(x: nat, k: nat, i: nat)
    requires i < k
    ensures Pow(256, k - 1 - i) > 0 && ToOctets(x, k)[i] == (x / Pow(256, k - 1 - i)) % 256
  {
    PowPositive(256, k - 1 - i);
    if i < k - 1 {
      var m := Pow(256, k - 2 - i);
      OctetAt(x / 256, k - 1, i);
      DivideTwice(x, m);
    }
  }

  // ---- bit length ----------------------------------------------------------

  /** `int.bit_length`. */
  function BitLength(n: nat): nat {
    if n == 0 then 0 else 1 + BitLength(n / 2)
  }

  lemma {:induction false} BitLengthBounds(n: nat)
    requires n > 0
    ensures BitLength(n) >= 1
    ensures Pow(2, BitLength(n) - 1) <= n < Pow(2, BitLength(n))
  {
    if n > 1 {
      BitLengthBounds(n / 2);
    } else {
      assert BitLength(1) == 1 + BitLength(0);
    }
  }

  /** The octets needed for a number of this many bits. */
  function OctetsFor(bits: nat): nat { (bits + 7) / 8 }

  lemma Pow256(k: nat)
    ensures Pow(256, k) == Pow(2, 8 * k)
  {
    PowPow(2, 8, k);
    assert Pow(2, 8) == 256 by {
      assert Pow(2, 4) == 16;
      PowAdd(2, 4, 4);
    }
  }

  /** Octets whose leading octet has `bits` zero bits on the left stand for 8 * |s| - bits bits. */
  lemma LeadingBitsBound(s: Octets, bits: nat)
    requires s != [] && bits < 8 && s[0] < Pow(2, 8 - bits)
    ensures ToInt(s) < Pow(2, 8 * |s| - bits)
  {
    LeadingOctetBounds(s, Pow(2, 8 - bits));
    Pow256(|s| - 1);
    PowAdd(2, 8 - bits, 8 * (|s| - 1));
    assert (8 - bits) + 8 * (|s| - 1) == 8 * |s| - bits;
  }

  /** A modulus fits in its own octets. */
  lemma ModulusFits(n: nat)
    requires n > 0
    ensures n < Pow(256, OctetsFor(BitLength(n)))
  {
    BitLengthBounds(n);
    Pow256(OctetsFor(BitLength(n)));
    PowMonotone(2, BitLength(n), 8 * OctetsFor(BitLength(n)));
  }
}
