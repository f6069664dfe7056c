/** EMSA-PSS with SHA-384 and a 48-octet salt: the encoder of the blind-signature module,
    and the decoder of section 9.1.2 of RFC 8017 that it must agree with. The hash is a
    parameter, of which only the output length is used. */
module PssEncoding {
  import opened NumberTheory
  import opened Octets

  const H_LEN := 48
  const SALT_LEN := 48
  const TRAILER: Octet := 0xBC

  type HashFunction = Octets -> Octets

  ghost predicate IsHash(hash: HashFunction) {
    forall x: Octets :: |hash(x)| == H_LEN
  }

  datatype Error =
    | ModulusTooSmall
    | Overflow
    | NotReduced
    | ModulusCompromised
    | WrongLength
    | OutOfRange
    | DoesNotVerify

  datatype Result<T> = Ok(value: T) | Err(error: Error)

  // ---- MGF1 ----------------------------------------------------------------

  /** The first `blocks` hash blocks of the mask generation function. */
  function MaskBlocks(hash: HashFunction, seed: Octets, blocks: nat): Octets {
    if blocks == 0 then []
    else MaskBlocks(hash, seed, blocks - 1) + hash(seed + ToOctets(blocks - 1, 4))
  }

  function BlocksFor(length: nat): nat { (length + H_LEN - 1) / H_LEN }

  lemma {:induction false} MaskBlocksLength(hash: HashFunction, seed: Octets, blocks: nat)
    requires IsHash(hash)
    ensures |MaskBlocks(hash, seed, blocks)| == H_LEN * blocks
  {
    if blocks > 0 {
      MaskBlocksLength(hash, seed, blocks - 1);
    }
  }

  /** Octet i of the mask is octet i mod 48 of the hash of the seed followed by i div 48. */
  lemma {:induction false} MaskBlocksAt(hash: HashFunction, seed: Octets, blocks: nat, i: nat)
    requires IsHash(hash) && i < 48 * blocks
    ensures |MaskBlocks(hash, seed, blocks)| == 48 * blocks
    ensures MaskBlocks(hash, seed, blocks)[i] == hash(seed + ToOctets(i / 48, 4))[i % 48]
  {
    MaskBlocksLength(hash, seed, blocks);
    MaskBlocksLength(hash, seed, blocks - 1);
    if i < 48 * (blocks - 1) {
      MaskBlocksAt(hash, seed, blocks - 1, i);
    }
  }

  lemma MaskAt(hash: HashFunction, seed: Octets, length: nat, i: nat)
    requires IsHash(hash) && i < length
    ensures Mask(hash, seed, length)[i] == hash(seed + ToOctets(i / 48, 4))[i % 48]
  {
    MaskBlocksAt(hash, seed, BlocksFor(length), i);
  }

  function Mask(hash: HashFunction, seed: Octets, length: nat): (mask: Octets)
    requires IsHash(hash)
    ensures |mask| == length
  {
    MaskBlocksLength(hash, seed, BlocksFor(length));
    MaskBlocks(hash, seed, BlocksFor(length))[..length]
  }

  /** The loop of `_mgf1`: it stops after exactly the blocks the length needs, and its counter
      stays below 2^32 so that the four counter octets are all different. */
  method Mgf1(hash: HashFunction, seed: Octets, length: nat) returns (mask: Octets)
    requires IsHash(hash) && length <= H_LEN * 0x1_0000_0000
    ensures |mask| == length
    ensures forall i :: 0 <= i < length ==> mask[i] == hash(seed + ToOctets(i / 48, 4))[i % 48]
    ensures mask == Mask(hash, seed, length)
  {
    var out: Octets := [];
    var counter := 0;
    while |out| < length
      invariant 0 <= counter <= BlocksFor(length) && counter <= 0x1_0000_0000
      invariant out == MaskBlocks(hash, seed, counter) && |out| == H_LEN * counter
    {
      out := out + hash(seed + ToOctets(counter, 4));
      counter := counter + 1;
    }
    mask := out[..length];
    forall i | 0 <= i < length ensures mask[i] == hash(seed + ToOctets(i / 48, 4))[i % 48] {
      MaskAt(hash, seed, length, i);
    }
  }

  // ---- encoding ------------------------------------------------------------

  function Zeros(k: nat): (s: Octets)
    ensures |s| == k
  {
    seq(k, _ => 0)
  }

  /** Exclusive or of the k low-order bits. */
  function XorBits(a: nat, b: nat, k: nat): nat {
    if k == 0 then 0 else (a + b) % 2 + 2 * XorBits(a / 2, b / 2, k - 1)
  }

  /** The k low-order bits. */
  function LowBits(a: nat, k: nat): nat {
    if k == 0 then 0 else a % 2 + 2 * LowBits(a / 2, k - 1)
  }

  lemma {:induction false} BitsBounded(a: nat, b: nat, k: nat)
    ensures XorBits(a, b, k) < Pow(2, k)
    ensures LowBits(a, k) < Pow(2, k) && LowBits(a, k) <= a
  {
    if k > 0 {
      BitsBounded(a / 2, b / 2, k - 1);
    }
  }

  lemma Halves(b: nat, r: nat)
    requires b < 2
    ensures (b + 2 * r) % 2 == b && (b + 2 * r) / 2 == r
  {
  }

  lemma ParityTwice(a: nat, m: nat)
    ensures forall x: nat :: x % 2 == (a + m) % 2 ==> (x + m) % 2 == a % 2
  {
  }

  lemma ParityOfLow(a: nat, low: nat, m: nat)
    requires low % 2 == a % 2
    ensures (low + m) % 2 == (a + m) % 2
  {
  }

  lemma {:induction false} XorTwice(a: nat, m: nat, k: nat)
    requires a < Pow(2, k)
    ensures XorBits(XorBits(a, m, k), m, k) == a
  {
    if k > 0 {
      Halves((a + m) % 2, XorBits(a / 2, m / 2, k - 1));
      ParityTwice(a, m);
      XorTwice(a / 2, m / 2, k - 1);
    }
  }

  lemma {:induction false} LowBitsXor(a: nat, m: nat, j: nat, k: nat)
    requires j <= k
    ensures LowBits(XorBits(LowBits(a, j), m, k), j) == LowBits(XorBits(a, m, k), j)
  {
    if j > 0 {
      Halves(a % 2, LowBits(a / 2, j - 1));
      Halves((LowBits(a, j) + m) % 2, XorBits(LowBits(a / 2, j - 1), m / 2, k - 1));
      Halves((a + m) % 2, XorBits(a / 2, m / 2, k - 1));
      ParityOfLow(a, LowBits(a, j), m);
      LowBitsXor(a / 2, m / 2, j - 1, k - 1);
    }
  }

  lemma {:induction false} LowBitsIdempotent(a: nat, k: nat)
    ensures LowBits(LowBits(a, k), k) == LowBits(a, k)
    ensures a <= 1 && k > 0 ==> LowBits(a, k) == a
    ensures LowBits(0, k) == 0
  {
    if k > 0 {
      LowBitsIdempotent(a / 2, k - 1);
    }
  }

  lemma EightBits()
    ensures Pow(2, 8) == 256
  {
    PowAdd(2, 4, 4);
    assert Pow(2, 4) == 16;
  }

  function XorOctet(a: Octet, b: Octet): Octet {
    EightBits();
    BitsBounded(a, b, 8);
    XorBits(a, b, 8)
  }

  function Xor(a: Octets, b: Octets): (s: Octets)
    requires |a| == |b|
    ensures |s| == |a|
  {
    seq(|a|, i requires 0 <= i < |a| => XorOctet(a[i], b[i]))
  }

  /** Bit k of a number. */
  function Bit(x: nat, k: nat): nat {
    PowPositive(2, k);
    x / Pow(2, k) % 2
  }

  lemma BitOfHalf(x: nat, k: nat)
    requires k > 0
    ensures Bit(x, k) == Bit(x / 2, k - 1)
  {
    var p := Pow(2, k - 1);
    PowPositive(2, k - 1);
    var q, r := x / 2 / p, x / 2 % p;
    DivModUnique(x, q, 2 * r + x % 2, 2 * p);
  }

  /** Each bit is the exclusive or of the two. */
  lemma {:induction false} XorBitsAt(a: nat, b: nat, n: nat, k: nat)
    requires k < n
    ensures Bit(XorBits(a, b, n), k) == (Bit(a, k) + Bit(b, k)) % 2
  {
    Halves((a + b) % 2, XorBits(a / 2, b / 2, n - 1));
    if k > 0 {
      XorBitsAt(a / 2, b / 2, n - 1, k - 1);
      BitOfHalf(XorBits(a, b, n), k);
      BitOfHalf(a, k);
      BitOfHalf(b, k);
    } else {
      assert Pow(2, 0) == 1;
    }
  }

  lemma XorOctetBits(a: Octet, b: Octet, k: nat)
    requires k < 8
    ensures Bit(XorOctet(a, b), k) == (Bit(a, k) + Bit(b, k)) % 2
  {
    XorBitsAt(a, b, 8, k);
  }

  /** The remainder modulo 2^k. */
  function LowPart(x: nat, k: nat): nat {
    PowPositive(2, k);
    x % Pow(2, k)
  }

  lemma {:induction false} LowBitsRemain(a: nat, k: nat)
    ensures LowBits(a, k) == LowPart(a, k)
  {
    if k > 0 {
      LowBitsRemain(a / 2, k - 1);
      var p := Pow(2, k - 1);
      PowPositive(2, k - 1);
      DivModUnique(a, a / 2 / p, a % 2 + 2 * (a / 2 % p), 2 * p);
    }
  }

  /** The octet with its `bits` leftmost bits zeroed: `a & (0xFF >> bits)`. */
  function ClearLeft(a: Octet, bits: nat): Octet
    requires bits < 8
  {
    BitsBounded(a, 0, 8 - bits);
    LowBits(a, 8 - bits)
  }

  /** Zero the `bits` leftmost bits of the first octet. */
  function ClearTop(s: Octets, bits: nat): (t: Octets)
    requires s != [] && bits < 8
    ensures |t| == |s|
  {
    [ClearLeft(s[0], bits)] + s[1..]
  }

  function MessagePrime(hash: HashFunction, msg: Octets, salt: Octets): Octets {
    Zeros(8) + hash(msg) + salt
  }

  function DataBlock(emLen: nat, salt: Octets): (db: Octets)
    requires emLen >= H_LEN + SALT_LEN + 2 && |salt| == SALT_LEN
    ensures |db| == emLen - H_LEN - 1
  {
    Zeros(emLen - SALT_LEN - H_LEN - 2) + [1] + salt
  }

  /** What the encoder puts before the hash value. */
  function MaskedBlock(hash: HashFunction, emLen: nat, salt: Octets, h: Octets, bits: nat): (masked: Octets)
    requires IsHash(hash) && emLen >= H_LEN + SALT_LEN + 2 && |salt| == SALT_LEN && bits < 8
    ensures |masked| == emLen - H_LEN - 1
  {
    ClearTop(Xor(DataBlock(emLen, salt), Mask(hash, h, emLen - H_LEN - 1)), bits)
  }

  /** `emsa_pss_encode` with the salt as an argument. */
  function Encode(hash: HashFunction, msg: Octets, emBits: nat, salt: Octets): Result<Octets>
    requires IsHash(hash) && |salt| == SALT_LEN
  {
    var emLen := OctetsFor(emBits);
    if emLen < H_LEN + SALT_LEN + 2 then Err(ModulusTooSmall)
    else if emLen - H_LEN - 1 > H_LEN * 0x1_0000_0000 then Err(Overflow)
    else
      var h := hash(MessagePrime(hash, msg, salt));
      Ok(MaskedBlock(hash, emLen, salt, h, 8 * emLen - emBits) + (h + [TRAILER]))
  }

  // ---- decoding, section 9.1.2 of RFC 8017 ----------------------------------

  datatype Decoded = Consistent(salt: Octets) | Inconsistent

  function Unmask(hash: HashFunction, masked: Octets, h: Octets, zeroBits: nat): (db: Octets)
    requires IsHash(hash) && masked != [] && zeroBits < 8
    ensures |db| == |masked|
  {
    ClearTop(Xor(masked, Mask(hash, h, |masked|)), zeroBits)
  }

  /** Padding zeros, then 0x01, then the salt. */
  predicate WellPadded(db: Octets) {
    && |db| > SALT_LEN
    && db[..|db| - SALT_LEN - 1] == Zeros(|db| - SALT_LEN - 1)
    && db[|db| - SALT_LEN - 1] == 1
  }

  function Decode(hash: HashFunction, msg: Octets, em: Octets, emBits: nat): Decoded
    requires IsHash(hash)
  {
    var emLen := OctetsFor(emBits);
    if |em| != emLen || emLen < H_LEN + SALT_LEN + 2 || em[emLen - 1] != TRAILER then Inconsistent
    else
      var dbLen := emLen - H_LEN - 1;
      DecodeParts(hash, msg, em[..dbLen], em[dbLen..emLen - 1], 8 * emLen - emBits)
  }

  function DecodeParts(hash: HashFunction, msg: Octets, masked: Octets, h: Octets, zeroBits: nat): Decoded
    requires IsHash(hash) && |masked| > SALT_LEN && zeroBits < 8
  {
    if ClearLeft(masked[0], zeroBits) != masked[0] then Inconsistent
    else
      var db := Unmask(hash, masked, h, zeroBits);
      if !WellPadded(db) then Inconsistent
      else
        var salt := db[|db| - SALT_LEN..];
        if hash(MessagePrime(hash, msg, salt)) == h then Consistent(salt) else Inconsistent
  }

  lemma XorInvolution(db: Octets, mask: Octets)
    requires |db| == |mask|
    ensures Xor(Xor(db, mask), mask) == db
  {
    forall i | 0 <= i < |db| ensures Xor(Xor(db, mask), mask)[i] == db[i] {
      EightBits();
      XorTwice(db[i], mask[i], 8);
    }
  }

  /** Clearing commutes with masking, whichever of the two is done first. */
  lemma ClearXor(a: Octets, mask: Octets, bits: nat)
    requires |a| == |mask| && a != [] && bits < 8
    ensures ClearTop(Xor(ClearTop(a, bits), mask), bits) == ClearTop(Xor(a, mask), bits)
  {
    LowBitsXor(a[0], mask[0], 8 - bits, 8);
    var l := ClearTop(Xor(ClearTop(a, bits), mask), bits);
    var r := ClearTop(Xor(a, mask), bits);
    forall i | 0 <= i < |a| ensures l[i] == r[i] {
      if i > 0 {
        assert ClearTop(a, bits)[i] == a[i];
      }
    }
  }

  /** A data block begins with a zero octet, or with 0x01 when there is no padding; either way
      the cleared bits were zero already. */
  lemma DataBlockTopClear(emLen: nat, salt: Octets, bits: nat)
    requires emLen >= H_LEN + SALT_LEN + 2 && |salt| == SALT_LEN && bits < 8
    ensures ClearTop(DataBlock(emLen, salt), bits) == DataBlock(emLen, salt)
  {
    var db := DataBlock(emLen, salt);
    assert db[0] <= 1;
    LowBitsIdempotent(db[0], 8 - bits);
  }

  lemma ClearedIsSmall(masked: Octets, rest: Octets, bits: nat, emBits: nat, em: Octets)
    requires masked != [] && bits < 8 && 8 * (|masked| + |rest|) == emBits + bits
    requires em == ClearTop(masked, bits) + rest
    ensures ToInt(em) < Pow(2, emBits)
  {
    BitsBounded(masked[0], 0, 8 - bits);
    LeadingBitsBound(em, bits);
  }

  /** The encoding has exactly emLen octets and is below 2^emBits as an integer. */
  lemma EncodingIsSmall(hash: HashFunction, msg: Octets, emBits: nat, salt: Octets, em: Octets)
    requires IsHash(hash) && |salt| == SALT_LEN
    requires Encode(hash, msg, emBits, salt) == Ok(em)
    ensures |em| == OctetsFor(emBits)
    ensures ToInt(em) < Pow(2, emBits)
  {
    var emLen, bits := OctetsFor(emBits), 8 * OctetsFor(emBits) - emBits;
    var h := hash(MessagePrime(hash, msg, salt));
    var unclear := Xor(DataBlock(emLen, salt), Mask(hash, h, emLen - H_LEN - 1));
    assert 8 * (|unclear| + |h + [TRAILER]|) == emBits + bits;
    ClearedIsSmall(unclear, h + [TRAILER], bits, emBits, em);
  }

  /** Masking a data block, clearing the top bits and unmasking gives the block back. */
  lemma Unmasks(emLen: nat, salt: Octets, mask: Octets, bits: nat)
    requires emLen >= H_LEN + SALT_LEN + 2 && |salt| == SALT_LEN && bits < 8
    requires |mask| == emLen - H_LEN - 1
    ensures var cleared := ClearTop(Xor(DataBlock(emLen, salt), mask), bits);
            && ClearTop(Xor(cleared, mask), bits) == DataBlock(emLen, salt)
            && ClearLeft(cleared[0], bits) == cleared[0]
  {
    var block := DataBlock(emLen, salt);
    LowBitsIdempotent(Xor(block, mask)[0], 8 - bits);
    ClearXor(Xor(block, mask), mask, bits);
    XorInvolution(block, mask);
    DataBlockTopClear(emLen, salt, bits);
  }

  lemma DataBlockPadded(emLen: nat, salt: Octets)
    requires emLen >= H_LEN + SALT_LEN + 2 && |salt| == SALT_LEN
    ensures WellPadded(DataBlock(emLen, salt))
    ensures DataBlock(emLen, salt)[emLen - H_LEN - 1 - SALT_LEN..] == salt
  {
  }

  lemma Splits(em: Octets, masked: Octets, h: Octets)
    ensures em == masked + (h + [TRAILER]) <==>
      && |em| == |masked| + |h| + 1 && em[..|masked|] == masked
      && em[|masked|..|em| - 1] == h && em[|em| - 1] == TRAILER
  {
    if |em| == |masked| + |h| + 1 {
      assert em == em[..|masked|] + (em[|masked|..|em| - 1] + [em[|em| - 1]]);
    }
  }

  /** Unmasking octets whose top bits are clear, clearing and masking again gives them back. */
  lemma Remasks(masked: Octets, mask: Octets, bits: nat)
    requires |masked| == |mask| && masked != [] && bits < 8
    requires ClearLeft(masked[0], bits) == masked[0]
    ensures ClearTop(Xor(ClearTop(Xor(masked, mask), bits), mask), bits) == masked
  {
    ClearXor(Xor(masked, mask), mask, bits);
    XorInvolution(masked, mask);
  }

  lemma PaddedIsDataBlock(emLen: nat, db: Octets)
    requires emLen >= H_LEN + SALT_LEN + 2 && |db| == emLen - H_LEN - 1 && WellPadded(db)
    ensures db == DataBlock(emLen, db[|db| - SALT_LEN..])
  {
    var padding := |db| - SALT_LEN - 1;
    assert db == db[..padding] + [db[padding]] + db[padding + 1..];
  }

  lemma MaskedBlockDecodes(hash: HashFunction, msg: Octets, emLen: nat, salt: Octets, bits: nat)
    requires IsHash(hash) && emLen >= H_LEN + SALT_LEN + 2 && |salt| == SALT_LEN && bits < 8
    ensures var h := hash(MessagePrime(hash, msg, salt));
            DecodeParts(hash, msg, MaskedBlock(hash, emLen, salt, h, bits), h, bits) == Consistent(salt)
  {
    var h := hash(MessagePrime(hash, msg, salt));
    var masked := MaskedBlock(hash, emLen, salt, h, bits);
    Unmasks(emLen, salt, Mask(hash, h, emLen - H_LEN - 1), bits);
    assert Unmask(hash, masked, h, bits) == DataBlock(emLen, salt);
    DataBlockPadded(emLen, salt);
  }

  lemma DecodedIsMaskedBlock(hash: HashFunction, msg: Octets, emLen: nat, masked: Octets, h: Octets,
                             bits: nat, salt: Octets)
    requires IsHash(hash) && emLen >= H_LEN + SALT_LEN + 2 && |masked| == emLen - H_LEN - 1 && bits < 8
    requires DecodeParts(hash, msg, masked, h, bits) == Consistent(salt)
    ensures |salt| == SALT_LEN && h == hash(MessagePrime(hash, msg, salt))
    ensures masked == MaskedBlock(hash, emLen, salt, h, bits)
  {
    Remasks(masked, Mask(hash, h, |masked|), bits);
    PaddedIsDataBlock(emLen, Unmask(hash, masked, h, bits));
  }

  /** The decoder accepts every encoding and recovers its salt, for every number of cleared
      bits and with or without padding. */
  lemma EncodeThenDecode(hash: HashFunction, msg: Octets, emBits: nat, salt: Octets, em: Octets)
    requires IsHash(hash) && |salt| == SALT_LEN
    requires Encode(hash, msg, emBits, salt) == Ok(em)
    ensures Decode(hash, msg, em, emBits) == Consistent(salt)
  {
    var emLen, bits := OctetsFor(emBits), 8 * OctetsFor(emBits) - emBits;
    var h := hash(MessagePrime(hash, msg, salt));
    var masked := MaskedBlock(hash, emLen, salt, h, bits);
    Splits(em, masked, h);
    assert em[..emLen - H_LEN - 1] == masked && em[emLen - H_LEN - 1..emLen - 1] == h;
    assert Decode(hash, msg, em, emBits) == DecodeParts(hash, msg, masked, h, bits);
    MaskedBlockDecodes(hash, msg, emLen, salt, bits);
  }

  /** Nothing else decodes: what the decoder accepts is an encoding under the salt it recovers. */
  lemma DecodeThenEncode(hash: HashFunction, msg: Octets, em: Octets, emBits: nat, salt: Octets)
    requires IsHash(hash)
    requires OctetsFor(emBits) - H_LEN - 1 <= H_LEN * 0x1_0000_0000
    requires Decode(hash, msg, em, emBits) == Consistent(salt)
    ensures |salt| == SALT_LEN
    ensures Encode(hash, msg, emBits, salt) == Ok(em)
  {
    var emLen, bits := OctetsFor(emBits), 8 * OctetsFor(emBits) - emBits;
    var masked, h := em[..emLen - H_LEN - 1], em[emLen - H_LEN - 1..emLen - 1];
    DecodedIsMaskedBlock(hash, msg, emLen, masked, h, bits, salt);
    Splits(em, masked, h);
    EncodingIs(hash, msg, emBits, salt, masked, h);
  }

  lemma EncodingIs(hash: HashFunction, msg: Octets, emBits: nat, salt: Octets, masked: Octets, h: Octets)
    requires IsHash(hash) && |salt| == SALT_LEN && OctetsFor(emBits) >= H_LEN + SALT_LEN + 2
    requires OctetsFor(emBits) - H_LEN - 1 <= H_LEN * 0x1_0000_0000
    requires h == hash(MessagePrime(hash, msg, salt))
    requires masked == MaskedBlock(hash, OctetsFor(emBits), salt, h, 8 * OctetsFor(emBits) - emBits)
    ensures Encode(hash, msg, emBits, salt) == Ok(masked + (h + [TRAILER]))
  {
  }

  // ---- the encoding, octet by octet -----------------------------------------

  /** What stands at place i before the mask: zeros, a one, the salt. */
  function Unmasked(emLen: nat, salt: Octets, i: nat): Octet
    requires emLen >= 98 && |salt| == 48 && i < emLen - 49
  {
    if i < emLen - 98 then 0 else if i == emLen - 98 then 1 else salt[i - (emLen - 97)]
  }

  /** Octet i of the masked block under the hash value h. */
  function MaskedOctet(hash: HashFunction, emLen: nat, salt: Octets, h: Octets, bits: nat, i: nat): nat
    requires IsHash(hash) && emLen >= 98 && |salt| == 48 && bits < 8 && i < emLen - 49
  {
    var octet := XorOctet(Unmasked(emLen, salt, i), hash(h + ToOctets(i / 48, 4))[i % 48]);
    if i == 0 then LowPart(octet, 8 - bits) else octet
  }

  lemma MaskedBlockAt(hash: HashFunction, emLen: nat, salt: Octets, h: Octets, bits: nat, i: nat)
    requires IsHash(hash) && emLen >= 98 && |salt| == 48 && bits < 8 && i < emLen - 49
    ensures MaskedBlock(hash, emLen, salt, h, bits)[i] == MaskedOctet(hash, emLen, salt, h, bits, i)
  {
    MaskAt(hash, h, emLen - 49, i);
    assert DataBlock(emLen, salt)[i] == Unmasked(emLen, salt, i);
    LowBitsRemain(XorOctet(Unmasked(emLen, salt, i), hash(h + ToOctets(i / 48, 4))[i % 48]), 8 - bits);
  }

  /** Section 9.1.1 of RFC 8017, octet by octet: the trailer, before it the hash of eight zeros, the
      message's hash and the salt, and before that the block under the mask of that hash, the bits
      beyond emBits cleared. */
  lemma EncodedOctets(hash: HashFunction, msg: Octets, emBits: nat, salt: Octets, em: Octets)
    requires IsHash(hash) && |salt| == SALT_LEN && Encode(hash, msg, emBits, salt) == Ok(em)
    ensures var emLen := (emBits + 7) / 8;
            var h := hash([0, 0, 0, 0, 0, 0, 0, 0] + hash(msg) + salt);
            && |em| == emLen >= 98 && em[emLen - 1] == 0xBC && em[emLen - 49..emLen - 1] == h
            && (forall i :: 0 <= i < emLen - 49 ==>
                  em[i] == MaskedOctet(hash, emLen, salt, h, 8 * emLen - emBits, i))
  {
    var emLen, bits := OctetsFor(emBits), 8 * OctetsFor(emBits) - emBits;
    assert Zeros(8) == [0, 0, 0, 0, 0, 0, 0, 0];
    var h := hash(MessagePrime(hash, msg, salt));
    var masked := MaskedBlock(hash, emLen, salt, h, bits);
    Splits(em, masked, h);
    forall i | 0 <= i < emLen - 49 ensures em[i] == MaskedOctet(hash, emLen, salt, h, bits, i) {
      MaskedBlockAt(hash, emLen, salt, h, bits, i);
      assert em[i] == masked[i];
    }
  }
}
