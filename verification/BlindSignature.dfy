/** RSABSSA-SHA384-PSS: blind, sign, check and unblind (sections 4.2 to 4.4 of RFC 9474), with
    the ordinary RSASSA-PSS verification of section 8.1.2 of RFC 8017 as their judge. */
module BlindSignature {
  import opened NumberTheory
  import opened Octets
  import opened PssEncoding

  datatype PublicKey = PublicKey(n: nat, e: nat)
  datatype PrivateKey = PrivateKey(n: nat, d: nat)
  datatype BlindState = BlindState(rInv: int, encoded: Octets, modulus: nat)
  datatype Blinded = Blinded(c: Octets, state: BlindState)

  /** lcm(p - 1, q - 1). */
  function Lambda(p: nat, q: nat): int
    requires p >= 2 && q >= 2
  {
    var g := Gcd(p - 1, q - 1);
    if g == 0 then 0 else (p - 1) * ((q - 1) / g)
  }

  /** A key pair as key generation promises it: two distinct primes and exponents inverse to
      each other modulo Lambda. */
  ghost predicate IsKeyPair(pub: PublicKey, priv: PrivateKey, p: nat, q: nat) {
    && IsPrime(p) && IsPrime(q) && p != q
    && pub.n == priv.n == p * q
    && Divides(Lambda(p, q), pub.e * priv.d - 1)
  }

  lemma DivisorAtMost(k: int, d: int, x: int)
    requires d >= 1 && x > 0 && Times(k, d) == x
    ensures 1 <= k && d <= x
  {
    if k < 1 {
      MulMonotone(-k, d);
    } else {
      MulMonotone(k - 1, d);
      MulDistributes(k - 1, 1, d);
    }
  }

  lemma SmallPrime(p: int)
    requires p == 3 || p == 11
    ensures IsPrime(p)
  {
    forall d: int | d >= 1 && Divides(d, p) ensures d == 1 || d == p {
      var k :| Times(k, d) == p;
      DivisorAtMost(k, d, p);
      assert d < 6 ==> d == 1 || d == 2 || d == 3 || d == 4 || d == 5;
      assert d >= 6 ==> d == 6 || d == 7 || d == 8 || d == 9 || d == 10 || d == 11;
    }
  }

  /** Key pairs exist: 33 = 3 * 11 with exponents 3 and 7 is one. */
  lemma SmallKeyPair()
    ensures IsKeyPair(PublicKey(33, 3), PrivateKey(33, 7), 3, 11)
  {
    SmallPrime(3);
    SmallPrime(11);
    assert Gcd(2, 10) == 2 by {
      assert Gcd(2, 10) == Gcd(10, 2) == Gcd(2, 0) == 2;
    }
    DividesIntro(2, 10, 20);
  }

  function ModPow(b: int, e: nat, n: nat): nat
    requires n > 0
  {
    Pow(b, e) % n
  }

  function Width(n: nat): nat { OctetsFor(BitLength(n)) }

  // ---- the operations --------------------------------------------------------

  /** `x.to_bytes(k, "big")`, which raises when x does not fit. */
  function ToBytes(x: nat, k: nat): Result<Octets> {
    if x >= Pow(256, k) then Err(Overflow) else Ok(ToOctets(x, k))
  }

  /** m * r^e mod n. */
  function BlindValue(pub: PublicKey, m: nat, r: nat): nat
    requires pub.n > 0
  {
    (m * ModPow(r, pub.e, pub.n)) % pub.n
  }

  /** `blind`, with the salt and the drawn factor r in 1..n-1 as arguments. */
  function Blind(hash: HashFunction, pub: PublicKey, msg: Octets, salt: Octets, r: nat): Result<Blinded>
    requires IsHash(hash) && |salt| == SALT_LEN && 1 <= r < pub.n
  {
    BlindEncoding(pub, Encode(hash, msg, BitLength(pub.n) - 1, salt), r)
  }

  function BlindEncoding(pub: PublicKey, encoding: Result<Octets>, r: nat): Result<Blinded>
    requires 1 <= r < pub.n
  {
    match encoding
    case Err(error) => Err(error)
    case Ok(encoded) => BlindEncoded(pub, encoded, r)
  }

  function BlindEncoded(pub: PublicKey, encoded: Octets, r: nat): Result<Blinded>
    requires 1 <= r < pub.n
  {
    var n, m := pub.n, ToInt(encoded);
    if m >= n then Err(NotReduced)
    else if Gcd(m, n) != 1 then Err(ModulusCompromised)
    else if Gcd(r, n) != 1 then Err(ModulusCompromised)
    else
      match ToBytes(BlindValue(pub, m, r), Width(n))
      case Err(error) => Err(error)
      case Ok(c) => Ok(Blinded(c, BlindState(Inverse(r, n), encoded, n)))
  }

  /** `blind_sign`. */
  function BlindSign(priv: PrivateKey, blinded: Octets): Result<Octets>
    requires priv.n > 0
  {
    var k := Width(priv.n);
    if |blinded| != k then Err(WrongLength)
    else if ToInt(blinded) >= priv.n then Err(OutOfRange)
    else
      ToBytes(ModPow(ToInt(blinded), priv.d, priv.n), k)
  }

  /** `check_blind_signature`. */
  predicate CheckBlindSignature(pub: PublicKey, blinded: Octets, signature: Octets)
    requires pub.n > 0
  {
    var k := Width(pub.n);
    && |signature| == k && |blinded| == k
    && ToInt(signature) < pub.n && ToInt(blinded) < pub.n
    && ModPow(ToInt(signature), pub.e, pub.n) == ToInt(blinded)
  }

  /** RSASSA-PSS-VERIFY. */
  predicate Verify(hash: HashFunction, pub: PublicKey, msg: Octets, signature: Octets)
    requires IsHash(hash) && pub.n > 0
  {
    var emBits := if BitLength(pub.n) == 0 then 0 else BitLength(pub.n) - 1;
    && |signature| == Width(pub.n)
    && ToInt(signature) < pub.n
    && (var m := ModPow(ToInt(signature), pub.e, pub.n);
        VerifyEncoded(hash, msg, m, emBits))
  }

  predicate VerifyEncoded(hash: HashFunction, msg: Octets, m: nat, emBits: nat)
    requires IsHash(hash)
  {
    && ToBytes(m, OctetsFor(emBits)).Ok?
    && Decode(hash, msg, ToBytes(m, OctetsFor(emBits)).value, emBits).Consistent?
  }

  /** `finalize`. */
  function Finalize(hash: HashFunction, pub: PublicKey, msg: Octets, signature: Octets, state: BlindState)
    : Result<Octets>
    requires IsHash(hash) && pub.n > 0 && state.modulus > 0
  {
    var n := state.modulus;
    var k := Width(n);
    if |signature| != k then Err(WrongLength)
    else
      match ToBytes((ToInt(signature) * state.rInv) % n, k)
      case Err(error) => Err(error)
      case Ok(sig) => if Verify(hash, pub, msg, sig) then Ok(sig) else Err(DoesNotVerify)
  }

  // ---- exponents -------------------------------------------------------------

  lemma LambdaMultiple(p: nat, q: nat)
    requires p >= 2 && q >= 2
    ensures Divides(p - 1, Lambda(p, q)) && Divides(q - 1, Lambda(p, q))
  {
    var g := Gcd(p - 1, q - 1);
    GcdDivides(p - 1, q - 1);
    var i :| Times(i, g) == p - 1;
    var j :| Times(j, g) == q - 1;
    if g > 0 {
      DivModUnique(q - 1, j, 0, g);
      assert (p - 1) * j == i * (q - 1) by {
        MulAssociative(i, g, j);
      }
      DividesIntro(j, p - 1, (p - 1) * j);
      DividesIntro(i, q - 1, i * (q - 1));
    }
  }

  lemma DividesTransitive(a: int, b: int, c: int)
    requires Divides(a, b) && Divides(b, c)
    ensures Divides(a, c)
  {
    var k :| Times(k, b) == c;
    DividesMul(a, b, k);
  }

  lemma DividesMinusOne(a: nat)
    requires Divides(a, -1)
    ensures a == 1
  {
    var k :| Times(k, a) == -1;
    UnitIsOne(-k, a);
  }

  /** e * d is one more than a multiple of p - 1, and of q - 1. */
  lemma ExponentShape(pub: PublicKey, priv: PrivateKey, p: nat, q: nat) returns (t: nat, u: nat)
    requires IsKeyPair(pub, priv, p, q)
    ensures pub.e * priv.d == 1 + t * (p - 1) == 1 + u * (q - 1)
  {
    var ed := pub.e * priv.d;
    NonNegative(pub.e, priv.d);
    LambdaMultiple(p, q);
    DividesTransitive(p - 1, Lambda(p, q), ed - 1);
    DividesTransitive(q - 1, Lambda(p, q), ed - 1);
    if ed == 0 {
      DividesMinusOne(p - 1);
      DividesMinusOne(q - 1);
      assert false;
    }
    t := Quotient(p - 1, ed - 1);
    u := Quotient(q - 1, ed - 1);
  }

  lemma Quotient(d: nat, x: nat) returns (t: nat)
    requires d > 0 && Divides(d, x)
    ensures t * d == x
  {
    var k :| Times(k, d) == x;
    assert k >= 0 by { MulMonotone(k, d); }
    t := k;
  }

  lemma NonNegative(a: nat, b: nat)
    ensures a * b >= 0
  {
  }

  /** Signing and verifying undo each other on every residue, coprime to n or not. */
  lemma PowersReturn(pub: PublicKey, priv: PrivateKey, p: nat, q: nat, m: nat)
    requires IsKeyPair(pub, priv, p, q)
    ensures pub.n > 0
    ensures Congruent(Pow(Pow(m, pub.e), priv.d), m, pub.n)
    ensures Congruent(Pow(Pow(m, priv.d), pub.e), m, pub.n)
  {
    var e, d := pub.e, priv.d;
    MulMonotone(p, q);
    NonNegative(e, d);
    var t, u := ExponentShape(pub, priv, p, q);
    ExponentReturns(p, m, t);
    ExponentReturns(q, m, u);
    ChineseRemainder(p, q, Pow(m, e * d), m);
    PowPow(m, e, d);
    PowPow(m, d, e);
  }

  // ---- the office's side -----------------------------------------------------

  /** Residues fit in the modulus's own octets, so no `to_bytes` overflows. */
  lemma ResidueFits(x: nat, n: nat)
    requires x < n
    ensures ToBytes(x, Width(n)) == Ok(ToOctets(x, Width(n)))
    ensures ToInt(ToOctets(x, Width(n))) == x
  {
    ModulusFits(n);
    ToIntInvertsToOctets(x, Width(n));
  }

  /** Every value the office is willing to sign gets a signature that passes the fault check. */
  lemma SignedValuesPassCheck(pub: PublicKey, priv: PrivateKey, p: nat, q: nat, blinded: Octets)
    requires IsKeyPair(pub, priv, p, q)
    ensures pub.n > 0
    ensures BlindSign(priv, blinded).Ok? <==> |blinded| == Width(pub.n) && ToInt(blinded) < pub.n
    ensures BlindSign(priv, blinded).Ok? ==> CheckBlindSignature(pub, blinded, BlindSign(priv, blinded).value)
  {
    var n, c := pub.n, ToInt(blinded);
    MulMonotone(p, q);
    ModIsCongruent(Pow(c, priv.d), n);
    var s := ModPow(c, priv.d, n);
    ResidueFits(s, n);
    if |blinded| == Width(n) && c < n {
      CongruentPow(s, Pow(c, priv.d), pub.e, n);
      PowersReturn(pub, priv, p, q, c);
      DivModUnique(c, 0, c, n);
    }
  }

  /** The fault check is exact: it passes the true signature and no other octets, so no fault of
      the signing operation gets through it. */
  lemma CheckAcceptsOnlyTheSignature(pub: PublicKey, priv: PrivateKey, p: nat, q: nat,
                                     blinded: Octets, signature: Octets)
    requires IsKeyPair(pub, priv, p, q)
    ensures pub.n > 0
    ensures CheckBlindSignature(pub, blinded, signature) <==> BlindSign(priv, blinded) == Ok(signature)
  {
    SignedValuesPassCheck(pub, priv, p, q, blinded);
    if CheckBlindSignature(pub, blinded, signature) {
      var n, s, c := pub.n, ToInt(signature), ToInt(blinded);
      ModIsCongruent(Pow(s, pub.e), n);
      CongruentPow(c, Pow(s, pub.e), priv.d, n);
      PowersReturn(pub, priv, p, q, s);
      DivModUnique(s, 0, s, n);
      assert ModPow(c, priv.d, n) == s;
      ResidueFits(s, n);
      ToOctetsInvertsToInt(signature);
    }
  }

  // ---- the voter's side ------------------------------------------------------

  lemma BlindValueFits(pub: PublicKey, m: nat, r: nat)
    requires pub.n > 0
    ensures BlindValue(pub, m, r) < pub.n
    ensures ToBytes(BlindValue(pub, m, r), Width(pub.n)) == Ok(ToOctets(BlindValue(pub, m, r), Width(pub.n)))
    ensures ToInt(ToOctets(BlindValue(pub, m, r), Width(pub.n))) == BlindValue(pub, m, r)
    ensures Congruent(BlindValue(pub, m, r), m * Pow(r, pub.e), pub.n)
  {
    var n, w := pub.n, ModPow(r, pub.e, pub.n);
    ModIsCongruent(m * w, n);
    ResidueFits((m * w) % n, n);
    ModIsCongruent(Pow(r, pub.e), n);
    CongruentMul(m, m, w, Pow(r, pub.e), n);
  }

  /** Blinding fails for one of three reasons only; the encoded message is always below n and
      the octets never overflow. */
  lemma BlindingSucceeds(hash: HashFunction, pub: PublicKey, msg: Octets, salt: Octets, r: nat)
    requires IsHash(hash) && |salt| == SALT_LEN && 1 <= r < pub.n
    ensures var encoding := Encode(hash, msg, BitLength(pub.n) - 1, salt);
            var blinding := Blind(hash, pub, msg, salt, r);
            && (encoding.Err? ==> blinding == Err(encoding.error))
            && (encoding.Ok? ==>
                  && ToInt(encoding.value) < pub.n
                  && (blinding.Ok? <==> Gcd(ToInt(encoding.value), pub.n) == 1 && Gcd(r, pub.n) == 1)
                  && (blinding.Err? ==> blinding.error == ModulusCompromised))
  {
    BlindIsOfEncoding(hash, pub, msg, salt, r);
    var encoding := Encode(hash, msg, BitLength(pub.n) - 1, salt);
    if encoding.Ok? {
      EncodingBelow(hash, pub, msg, salt, encoding.value);
      EncodedBlinds(pub, encoding.value, r);
    }
  }

  lemma EncodedBlinds(pub: PublicKey, encoded: Octets, r: nat)
    requires 1 <= r < pub.n && ToInt(encoded) < pub.n
    ensures BlindEncoded(pub, encoded, r).Ok? <==> Gcd(ToInt(encoded), pub.n) == 1 && Gcd(r, pub.n) == 1
    ensures BlindEncoded(pub, encoded, r).Err? ==> BlindEncoded(pub, encoded, r).error == ModulusCompromised
  {
    BlindValueFits(pub, ToInt(encoded), r);
  }

  /** The arithmetic of unblinding: (m * r^e)^d * r^-1 is m^d. */
  lemma UnblindingCancels(pub: PublicKey, priv: PrivateKey, p: nat, q: nat,
                          m: nat, r: nat, rInv: int, c: nat, s: nat)
    requires IsKeyPair(pub, priv, p, q) && pub.n > 0
    requires Congruent(r * rInv, 1, pub.n)
    requires Congruent(c, m * Pow(r, pub.e), pub.n)
    requires Congruent(s, Pow(c, priv.d), pub.n)
    ensures Congruent(s * rInv, Pow(m, priv.d), pub.n)
  {
    var n, e, d := pub.n, pub.e, priv.d;
    CongruentPow(c, m * Pow(r, e), d, n);
    PowProduct(m, Pow(r, e), d);
    var md := Pow(m, d);
    PowersReturn(pub, priv, p, q, r);
    CongruentMul(md, md, Pow(Pow(r, e), d), r, n);
    assert Congruent(s, md * r, n);
    CongruentMul(s, md * r, rInv, rInv, n);
    CongruentMul(md, md, r * rInv, 1, n);
    MulAssociative(md, r, rInv);
  }

  lemma EncodedVerifies(hash: HashFunction, msg: Octets, emBits: nat, salt: Octets, encoded: Octets)
    requires IsHash(hash) && |salt| == SALT_LEN
    requires Encode(hash, msg, emBits, salt) == Ok(encoded)
    ensures VerifyEncoded(hash, msg, ToInt(encoded), emBits)
  {
    EncodingIsSmall(hash, msg, emBits, salt, encoded);
    EncodeThenDecode(hash, msg, emBits, salt, encoded);
    ToBytesInvertsToInt(encoded);
  }

  lemma ToBytesInvertsToInt(s: Octets)
    ensures ToBytes(ToInt(s), |s|) == Ok(s)
  {
    ToIntBounded(s);
    ToOctetsInvertsToInt(s);
  }

  /** An encoding's signature representative passes the ordinary verification. */
  lemma TrueSignatureVerifies(hash: HashFunction, pub: PublicKey, msg: Octets, sig: nat)
    requires IsHash(hash) && pub.n > 0 && sig < pub.n
    requires BitLength(pub.n) > 0
    requires VerifyEncoded(hash, msg, ModPow(sig, pub.e, pub.n), BitLength(pub.n) - 1)
    ensures Verify(hash, pub, msg, ToOctets(sig, Width(pub.n)))
  {
    ResidueFits(sig, pub.n);
  }

  /** The octets of enc(m)^d mod n under this salt. */
  ghost predicate IsSignatureOf(hash: HashFunction, pub: PublicKey, priv: PrivateKey, msg: Octets, salt: Octets,
                                signature: Octets)
    requires IsHash(hash) && pub.n > 0
  {
    && |salt| == SALT_LEN && BitLength(pub.n) > 0
    && (var encoding := Encode(hash, msg, BitLength(pub.n) - 1, salt);
        encoding.Ok? && signature == ToOctets(ModPow(ToInt(encoding.value), priv.d, pub.n), Width(pub.n)))
  }

  lemma VerifiedIsSigned(hash: HashFunction, pub: PublicKey, priv: PrivateKey, p: nat, q: nat, msg: Octets,
                         signature: Octets)
    returns (salt: Octets)
    requires IsHash(hash) && IsKeyPair(pub, priv, p, q) && pub.n > 0
    requires OctetsFor(BitLength(pub.n) - 1) - H_LEN - 1 <= H_LEN * 0x1_0000_0000
    requires Verify(hash, pub, msg, signature)
    ensures IsSignatureOf(hash, pub, priv, msg, salt, signature)
  {
    var n, x := pub.n, ToInt(signature);
    BitLengthBounds(n);
    var emBits, m := BitLength(n) - 1, ModPow(x, pub.e, n);
    var em := ToBytes(m, OctetsFor(emBits)).value;
    salt := Decode(hash, msg, em, emBits).salt;
    DecodeThenEncode(hash, msg, em, emBits, salt);
    ToIntInvertsToOctets(m, OctetsFor(emBits));
    PowerBack(pub, priv, p, q, x);
    ToOctetsInvertsToInt(signature);
  }

  /** A residue raised to e and then to d is itself. */
  lemma PowerBack(pub: PublicKey, priv: PrivateKey, p: nat, q: nat, x: nat)
    requires IsKeyPair(pub, priv, p, q) && pub.n > 0 && x < pub.n
    ensures ModPow(ModPow(x, pub.e, pub.n), priv.d, pub.n) == x
    ensures ModPow(ModPow(x, priv.d, pub.n), pub.e, pub.n) == x
  {
    var n := pub.n;
    ModIsCongruent(Pow(x, pub.e), n);
    ModIsCongruent(Pow(x, priv.d), n);
    CongruentPow(ModPow(x, pub.e, n), Pow(x, pub.e), priv.d, n);
    CongruentPow(ModPow(x, priv.d, n), Pow(x, priv.d), pub.e, n);
    PowersReturn(pub, priv, p, q, x);
    DivModUnique(x, 0, x, n);
  }

  lemma SignedIsVerified(hash: HashFunction, pub: PublicKey, priv: PrivateKey, p: nat, q: nat, msg: Octets,
                         salt: Octets, signature: Octets)
    requires IsHash(hash) && IsKeyPair(pub, priv, p, q) && pub.n > 0
    requires IsSignatureOf(hash, pub, priv, msg, salt, signature)
    ensures Verify(hash, pub, msg, signature)
  {
    var encoded := Encode(hash, msg, BitLength(pub.n) - 1, salt).value;
    var m := ToInt(encoded);
    EncodingCounts(hash, pub, msg, salt, encoded);
    RaisedVerifies(hash, pub, priv, p, q, msg, m);
  }

  lemma EncodingCounts(hash: HashFunction, pub: PublicKey, msg: Octets, salt: Octets, encoded: Octets)
    requires IsHash(hash) && |salt| == SALT_LEN && BitLength(pub.n) > 0
    requires Encode(hash, msg, BitLength(pub.n) - 1, salt) == Ok(encoded)
    ensures ToInt(encoded) < pub.n && VerifyEncoded(hash, msg, ToInt(encoded), BitLength(pub.n) - 1)
  {
    EncodingBelow(hash, pub, msg, salt, encoded);
    EncodedVerifies(hash, msg, BitLength(pub.n) - 1, salt, encoded);
  }

  lemma RaisedVerifies(hash: HashFunction, pub: PublicKey, priv: PrivateKey, p: nat, q: nat, msg: Octets, m: nat)
    requires IsHash(hash) && IsKeyPair(pub, priv, p, q) && m < pub.n && BitLength(pub.n) > 0
    requires VerifyEncoded(hash, msg, m, BitLength(pub.n) - 1)
    ensures Verify(hash, pub, msg, ToOctets(ModPow(m, priv.d, pub.n), Width(pub.n)))
  {
    PowerBack(pub, priv, p, q, m);
    TrueSignatureVerifies(hash, pub, msg, ModPow(m, priv.d, pub.n));
  }

  lemma EncodingBelow(hash: HashFunction, pub: PublicKey, msg: Octets, salt: Octets, encoded: Octets)
    requires IsHash(hash) && |salt| == SALT_LEN && BitLength(pub.n) > 0
    requires Encode(hash, msg, BitLength(pub.n) - 1, salt) == Ok(encoded)
    ensures ToInt(encoded) < pub.n
  {
    BitLengthBounds(pub.n);
    EncodingIsSmall(hash, msg, BitLength(pub.n) - 1, salt, encoded);
  }

  /** Verification is exact: it accepts the octets of enc(m)^d mod n under some salt, and no others. */
  lemma VerifyAcceptsOnlySignatures(hash: HashFunction, pub: PublicKey, priv: PrivateKey, p: nat, q: nat,
                                    msg: Octets, signature: Octets)
    requires IsHash(hash) && IsKeyPair(pub, priv, p, q) && pub.n > 0
    requires OctetsFor(BitLength(pub.n) - 1) - H_LEN - 1 <= H_LEN * 0x1_0000_0000
    ensures Verify(hash, pub, msg, signature)
       <==> exists salt :: IsSignatureOf(hash, pub, priv, msg, salt, signature)
  {
    if Verify(hash, pub, msg, signature) {
      var salt := VerifiedIsSigned(hash, pub, priv, p, q, msg, signature);
    }
    forall salt | IsSignatureOf(hash, pub, priv, msg, salt, signature) ensures Verify(hash, pub, msg, signature) {
      SignedIsVerified(hash, pub, priv, p, q, msg, salt, signature);
    }
  }

  /** What a successful blinding holds. */
  lemma BlindedShape(hash: HashFunction, pub: PublicKey, msg: Octets, salt: Octets, r: nat, blinding: Blinded)
    requires IsHash(hash) && |salt| == SALT_LEN && 1 <= r < pub.n
    requires Blind(hash, pub, msg, salt, r) == Ok(blinding)
    ensures var encoded := blinding.state.encoded;
            && Encode(hash, msg, BitLength(pub.n) - 1, salt) == Ok(encoded)
            && ToInt(encoded) < pub.n && Gcd(r, pub.n) == 1
            && blinding.state == BlindState(Inverse(r, pub.n), encoded, pub.n)
            && |blinding.c| == Width(pub.n)
            && ToInt(blinding.c) == BlindValue(pub, ToInt(encoded), r)
  {
    BlindIsOfEncoding(hash, pub, msg, salt, r);
    BlindEncodingShape(pub, Encode(hash, msg, BitLength(pub.n) - 1, salt), r, blinding);
  }

  lemma BlindIsOfEncoding(hash: HashFunction, pub: PublicKey, msg: Octets, salt: Octets, r: nat)
    requires IsHash(hash) && |salt| == SALT_LEN && 1 <= r < pub.n
    ensures BitLength(pub.n) >= 1
    ensures Blind(hash, pub, msg, salt, r) == BlindEncoding(pub, Encode(hash, msg, BitLength(pub.n) - 1, salt), r)
  {
    BitLengthBounds(pub.n);
  }

  lemma BlindEncodingShape(pub: PublicKey, encoding: Result<Octets>, r: nat, blinding: Blinded)
    requires 1 <= r < pub.n && BlindEncoding(pub, encoding, r) == Ok(blinding)
    ensures encoding == Ok(blinding.state.encoded)
    ensures ToInt(blinding.state.encoded) < pub.n && Gcd(r, pub.n) == 1
    ensures blinding.state == BlindState(Inverse(r, pub.n), blinding.state.encoded, pub.n)
    ensures |blinding.c| == Width(pub.n)
    ensures ToInt(blinding.c) == BlindValue(pub, ToInt(blinding.state.encoded), r)
  {
    BlindValueFits(pub, ToInt(encoding.value), r);
  }

  lemma UnblindedValue(pub: PublicKey, priv: PrivateKey, p: nat, q: nat, m: nat, r: nat)
    requires IsKeyPair(pub, priv, p, q) && pub.n > 1 && m < pub.n && Gcd(r, pub.n) == 1
    ensures var s := ModPow(BlindValue(pub, m, r), priv.d, pub.n);
            (s * Inverse(r, pub.n)) % pub.n == ModPow(m, priv.d, pub.n)
    ensures ModPow(m, priv.d, pub.n) < pub.n
    ensures ModPow(ModPow(m, priv.d, pub.n), pub.e, pub.n) == m
  {
    var n, c := pub.n, BlindValue(pub, m, r);
    BlindValueFits(pub, m, r);
    ModIsCongruent(Pow(c, priv.d), n);
    InvertibleIffCoprime(r, n);
    UnblindingCancels(pub, priv, p, q, m, r, Inverse(r, n), c, ModPow(c, priv.d, n));
    ModIsCongruent(Pow(m, priv.d), n);
    CongruentPow(ModPow(m, priv.d, n), Pow(m, priv.d), pub.e, n);
    PowersReturn(pub, priv, p, q, m);
    DivModUnique(m, 0, m, n);
  }

  /** Blind, sign, unblind: the voter ends up with exactly the encoding raised to d, which the
      office has checked and which verifies as a standard RSASSA-PSS signature. */
  lemma BlindSignatureCorrect(hash: HashFunction, pub: PublicKey, priv: PrivateKey, p: nat, q: nat,
                              msg: Octets, salt: Octets, r: nat, blinding: Blinded)
    requires IsHash(hash) && IsKeyPair(pub, priv, p, q) && |salt| == SALT_LEN && 1 <= r < pub.n
    requires Blind(hash, pub, msg, salt, r) == Ok(blinding)
    ensures var m := ToInt(blinding.state.encoded);
            var sig := ModPow(m, priv.d, pub.n);
            && Encode(hash, msg, BitLength(pub.n) - 1, salt) == Ok(blinding.state.encoded)
            && BlindSign(priv, blinding.c).Ok?
            && CheckBlindSignature(pub, blinding.c, BlindSign(priv, blinding.c).value)
            && Finalize(hash, pub, msg, BlindSign(priv, blinding.c).value, blinding.state)
               == Ok(ToOctets(sig, Width(pub.n)))
            && ModPow(sig, pub.e, pub.n) == m
  {
    BlindedShape(hash, pub, msg, salt, r, blinding);
    BitLengthBounds(pub.n);
    EncodedVerifies(hash, msg, BitLength(pub.n) - 1, salt, blinding.state.encoded);
    BlindedValueReturns(hash, pub, priv, p, q, msg, r, blinding.c, blinding.state);
  }

  /** The same, once the message has been encoded. */
  lemma BlindedValueReturns(hash: HashFunction, pub: PublicKey, priv: PrivateKey, p: nat, q: nat,
                            msg: Octets, r: nat, c: Octets, state: BlindState)
    requires IsHash(hash) && IsKeyPair(pub, priv, p, q) && 1 <= r < pub.n && Gcd(r, pub.n) == 1
    requires BitLength(pub.n) > 0 && ToInt(state.encoded) < pub.n
    requires state.rInv == Inverse(r, pub.n) && state.modulus == pub.n
    requires |c| == Width(pub.n) && ToInt(c) == BlindValue(pub, ToInt(state.encoded), r)
    requires VerifyEncoded(hash, msg, ToInt(state.encoded), BitLength(pub.n) - 1)
    ensures var m := ToInt(state.encoded);
            var sig := ModPow(m, priv.d, pub.n);
            && BlindSign(priv, c).Ok?
            && CheckBlindSignature(pub, c, BlindSign(priv, c).value)
            && Finalize(hash, pub, msg, BlindSign(priv, c).value, state) == Ok(ToOctets(sig, Width(pub.n)))
            && ModPow(sig, pub.e, pub.n) == m
  {
    var n, m := pub.n, ToInt(state.encoded);
    BlindValueFits(pub, m, r);
    SignedValuesPassCheck(pub, priv, p, q, c);
    UnblindedValue(pub, priv, p, q, m, r);
    var s, sig := ModPow(ToInt(c), priv.d, n), ModPow(m, priv.d, n);
    ModIsCongruent(Pow(ToInt(c), priv.d), n);
    ResidueFits(s, n);
    assert BlindSign(priv, c) == Ok(ToOctets(s, Width(n)));
    TrueSignatureVerifies(hash, pub, msg, sig);
    FinalizeComputes(hash, pub, msg, s, state, sig);
  }

  lemma FinalizeComputes(hash: HashFunction, pub: PublicKey, msg: Octets, s: nat, state: BlindState, sig: nat)
    requires IsHash(hash) && pub.n > 0 && state.modulus == pub.n && s < pub.n && sig < pub.n
    requires (s * state.rInv) % pub.n == sig
    requires Verify(hash, pub, msg, ToOctets(sig, Width(pub.n)))
    ensures Finalize(hash, pub, msg, ToOctets(s, Width(pub.n)), state) == Ok(ToOctets(sig, Width(pub.n)))
  {
    ResidueFits(s, pub.n);
    ResidueFits(sig, pub.n);
  }

  /** Unblinding takes whatever comes back for what it is worth: a reply gives a signature exactly when it
      is that signature times the voter's factor, and of the length of the modulus; any other is refused. */
  lemma FinalizeAccepts(hash: HashFunction, pub: PublicKey, msg: Octets, salt: Octets, r: nat, blinding: Blinded,
                        reply: Octets)
    requires IsHash(hash) && |salt| == SALT_LEN && 1 <= r < pub.n
    requires Blind(hash, pub, msg, salt, r) == Ok(blinding)
    ensures |reply| != Width(pub.n) ==> Finalize(hash, pub, msg, reply, blinding.state) == Err(WrongLength)
    ensures |reply| == Width(pub.n) && Finalize(hash, pub, msg, reply, blinding.state).Err? ==>
              Finalize(hash, pub, msg, reply, blinding.state) == Err(DoesNotVerify)
    ensures forall sig ::
              Finalize(hash, pub, msg, reply, blinding.state) == Ok(sig)
              <==> |reply| == Width(pub.n) && Verify(hash, pub, msg, sig)
                   && Congruent(ToInt(sig) * r, ToInt(reply), pub.n)
  {
    var n, s := pub.n, ToInt(reply);
    BlindedShape(hash, pub, msg, salt, r, blinding);
    var rInv := blinding.state.rInv;
    InvertibleIffCoprime(r, n);
    ResidueFits((s * rInv) % n, n);
    forall sig | Verify(hash, pub, msg, sig)
      ensures Congruent(ToInt(sig) * r, s, n) <==> sig == ToOctets((s * rInv) % n, Width(n))
    {
      ToOctetsInvertsToInt(sig);
      DivModUnique(ToInt(sig), 0, ToInt(sig), n);
      UnblindingIsDivision(ToInt(sig), s, r, rInv, n);
    }
  }

  lemma UnblindingIsDivision(x: int, s: int, r: int, rInv: int, n: int)
    requires n > 0 && Congruent(r * rInv, 1, n)
    ensures Congruent(x * r, s, n) <==> (s * rInv) % n == x % n
  {
    MulAssociative(x, r, rInv);
    CongruentMul(x, x, r * rInv, 1, n);
    MulAssociative(s, rInv, r);
    CongruentMul(s, s, rInv * r, 1, n);
    if Congruent(x * r, s, n) {
      CongruentMul(x * r, s, rInv, rInv, n);
    }
    if Congruent(s * rInv, x, n) {
      CongruentMul(s * rInv, x, r, r, n);
    }
  }

  // ---- blindness -------------------------------------------------------------

  lemma CoprimeProduct(x: nat, y: nat, n: nat)
    requires n > 1 && Gcd(x, n) == 1 && Gcd(y, n) == 1
    ensures x * y >= 0 && Gcd(x * y, n) == 1
  {
    var a, b := Inverse(x, n), Inverse(y, n);
    InvertibleIffCoprime(x, n);
    InvertibleIffCoprime(y, n);
    CongruentMul(x * a, 1, y * b, 1, n);
    MulExchange(x, y, a, b);
    NonNegative(x, y);
    InvertibleIffCoprime(x * y, n);
    assert Congruent((x * y) * (a * b), 1, n);
  }

  lemma CoprimePow(x: nat, e: nat, n: nat)
    requires n > 1 && Gcd(x, n) == 1
    ensures Pow(x, e) >= 0 && Gcd(Pow(x, e), n) == 1
  {
    if e == 0 {
      DivModUnique(1, 0, 1, n);
      InvertibleIffCoprime(1, n);
      assert Congruent(1 * 1, 1, n);
    } else {
      CoprimePow(x, e - 1, n);
      CoprimeProduct(x, Pow(x, e - 1), n);
    }
  }

  lemma CoprimeResidue(x: nat, n: nat)
    requires n > 1
    ensures Gcd(x, n) == 1 <==> Gcd(x % n, n) == 1
  {
    ModIsCongruent(x, n);
    InvertibleIffCoprime(x, n);
    InvertibleIffCoprime(x % n, n);
    forall y: int ensures Congruent(x * y, 1, n) <==> Congruent((x % n) * y, 1, n) {
      CongruentMul(x, x % n, y, y, n);
    }
  }

  /** The factor that blinds m into c. */
  function BlindingFactor(priv: PrivateKey, m: nat, c: nat): nat
    requires priv.n > 0
  {
    ModPow((c * Inverse(m, priv.n)) % priv.n, priv.d, priv.n)
  }

  lemma CancelUnit(m: nat, x: int, y: int, n: nat)
    requires n > 1 && Gcd(m, n) == 1 && Congruent(m * x, m * y, n)
    ensures Congruent(x, y, n)
  {
    var i := Inverse(m, n);
    InvertibleIffCoprime(m, n);
    CongruentMul(i, i, m * x, m * y, n);
    CongruentMul(m * i, 1, x, x, n);
    CongruentMul(m * i, 1, y, y, n);
    MulAssociative(i, m, x);
    MulAssociative(i, m, y);
  }

  lemma InverseIsUnit(m: nat, n: nat)
    requires n > 1 && Gcd(m, n) == 1
    ensures var i := Inverse(m, n); 0 <= i < n && Gcd(i, n) == 1 && Congruent(i * m, 1, n)
  {
    var i := Inverse(m, n);
    InvertibleIffCoprime(m, n);
    ModIsCongruent(BezoutPair(m, n).0, n);
    assert m * i == i * m;
    InvertibleIffCoprime(i, n);
  }

  /** c / m modulo n is a unit, and m times it is c. */
  lemma Ratio(m: nat, c: nat, n: nat)
    requires n > 1 && Gcd(m, n) == 1 && Gcd(c, n) == 1
    ensures var w := (c * Inverse(m, n)) % n; Gcd(w, n) == 1 && Congruent(m * w, c, n)
  {
    InverseIsUnit(m, n);
    CoprimeProduct(c, Inverse(m, n), n);
    CoprimeResidue(c * Inverse(m, n), n);
    RatioArithmetic(m, c, Inverse(m, n), n);
  }

  lemma RatioArithmetic(m: nat, c: nat, i: nat, n: nat)
    requires n > 1 && Congruent(i * m, 1, n)
    ensures Congruent(m * ((c * i) % n), c, n)
  {
    ModIsCongruent(c * i, n);
    CongruentMul(m, m, (c * i) % n, c * i, n);
    CongruentMul(c, c, i * m, 1, n);
    MulAssociative(c, i, m);
  }

  /** Existence: the factor is a unit modulo n and does blind m into c. */
  lemma FactorBlinds(pub: PublicKey, priv: PrivateKey, p: nat, q: nat, m: nat, c: nat)
    requires IsKeyPair(pub, priv, p, q) && pub.n > 1 && c < pub.n
    requires Gcd(m, pub.n) == 1 && Gcd(c, pub.n) == 1
    ensures var r := BlindingFactor(priv, m, c);
            && 1 <= r < pub.n && Gcd(r, pub.n) == 1
            && BlindValue(pub, m, r) == c
  {
    var n := pub.n;
    Ratio(m, c, n);
    var w := (c * Inverse(m, n)) % n;
    CoprimePow(w, priv.d, n);
    CoprimeResidue(Pow(w, priv.d), n);
    var r := BlindingFactor(priv, m, c);
    ModIsCongruent(Pow(w, priv.d), n);
    UnitIsNotZero(r, n);
    CongruentPow(r, Pow(w, priv.d), pub.e, n);
    PowersReturn(pub, priv, p, q, w);
    CongruentMul(m, m, Pow(r, pub.e), w, n);
    BlindValueFits(pub, m, r);
    DivModUnique(c, 0, c, n);
    DivModUnique(BlindValue(pub, m, r), 0, BlindValue(pub, m, r), n);
  }

  lemma UnitIsNotZero(r: nat, n: nat)
    requires n > 1 && Gcd(r, n) == 1
    ensures r >= 1
  {
    if r == 0 {
      InvertibleIffCoprime(0, n);
      DivModUnique(0, 0, 0, n);
      DivModUnique(1, 0, 1, n);
    }
  }

  /** Uniqueness: no other residue blinds m into c. */
  lemma FactorUnique(pub: PublicKey, priv: PrivateKey, p: nat, q: nat, m: nat, r: nat, r': nat)
    requires IsKeyPair(pub, priv, p, q) && pub.n > 1 && r < pub.n && r' < pub.n
    requires Gcd(m, pub.n) == 1
    requires BlindValue(pub, m, r) == BlindValue(pub, m, r')
    ensures r == r'
  {
    var n := pub.n;
    ModIsCongruent(Pow(r, pub.e), n);
    ModIsCongruent(Pow(r', pub.e), n);
    CancelUnit(m, ModPow(r, pub.e, n), ModPow(r', pub.e, n), n);
    CongruentPow(Pow(r, pub.e), Pow(r', pub.e), priv.d, n);
    PowersReturn(pub, priv, p, q, r);
    PowersReturn(pub, priv, p, q, r');
    DivModUnique(r, 0, r, n);
    DivModUnique(r', 0, r', n);
  }

  ghost predicate ExplainsTranscript(hash: HashFunction, pub: PublicKey, msg: Octets, salt: Octets,
                                     seen: Octets, r: nat)
    requires IsHash(hash) && |salt| == SALT_LEN
  {
    && 1 <= r < pub.n
    && Blind(hash, pub, msg, salt, r).Ok?
    && Blind(hash, pub, msg, salt, r).value.c == seen
  }

  lemma ExplanationArithmetic(hash: HashFunction, pub: PublicKey, msg: Octets, salt: Octets,
                              encoded: Octets, seen: Octets, r: nat)
    requires IsHash(hash) && |salt| == SALT_LEN && 1 <= r < pub.n
    requires Encode(hash, msg, BitLength(pub.n) - 1, salt) == Ok(encoded)
    requires Gcd(ToInt(encoded), pub.n) == 1 && |seen| == Width(pub.n)
    ensures ExplainsTranscript(hash, pub, msg, salt, seen, r)
       <==> Gcd(r, pub.n) == 1 && BlindValue(pub, ToInt(encoded), r) == ToInt(seen)
  {
    var blinding := Blind(hash, pub, msg, salt, r);
    BlindingSucceeds(hash, pub, msg, salt, r);
    if blinding.Ok? {
      BlindedShape(hash, pub, msg, salt, r, blinding.value);
      if ToInt(blinding.value.c) == ToInt(seen) {
        ToIntInjective(blinding.value.c, seen);
      }
    }
  }

  /** Perfect blindness: whatever blinded value the office saw, and whatever message and salt one
      cares to suspect, exactly one factor makes `blind` produce that value from that message. */
  lemma PerfectBlindness(hash: HashFunction, pub: PublicKey, priv: PrivateKey, p: nat, q: nat,
                         msg: Octets, salt: Octets, encoded: Octets, seen: Octets, r: nat)
    requires IsHash(hash) && IsKeyPair(pub, priv, p, q) && pub.n > 1 && |salt| == SALT_LEN
    requires Encode(hash, msg, BitLength(pub.n) - 1, salt) == Ok(encoded)
    requires Gcd(ToInt(encoded), pub.n) == 1
    requires |seen| == Width(pub.n) && ToInt(seen) < pub.n && Gcd(ToInt(seen), pub.n) == 1
    ensures ExplainsTranscript(hash, pub, msg, salt, seen, r)
       <==> r == BlindingFactor(priv, ToInt(encoded), ToInt(seen))
  {
    var m, c := ToInt(encoded), ToInt(seen);
    var f := BlindingFactor(priv, m, c);
    FactorBlinds(pub, priv, p, q, m, c);
    ExplanationArithmetic(hash, pub, msg, salt, encoded, seen, f);
    if ExplainsTranscript(hash, pub, msg, salt, seen, r) {
      ExplanationArithmetic(hash, pub, msg, salt, encoded, seen, r);
      FactorUnique(pub, priv, p, q, m, r, f);
    }
  }
}
