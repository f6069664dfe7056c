/** The challenge scorer: an exact binomial tail and the verdict drawn from it, in exact
    arithmetic over the reals. */
module Scorer {
  import opened NumberTheory

  /** A claim whose tail is below this is upheld: one in a thousand. */
  const ALPHA: real := 0.001

  // ---- real powers -----------------------------------------------------------

  function RealPow(x: real, k: nat): real {
    if k == 0 then 1.0 else x * RealPow(x, k - 1)
  }

  lemma {:induction false} PowOfQuotient(a: int, n: nat, k: nat)
    requires n > 0
    ensures Pow(n, k) > 0
    ensures RealPow(a as real / n as real, k) == Pow(a, k) as real / Pow(n, k) as real
  {
    PowPositive(n, k);
    if k > 0 {
      PowOfQuotient(a, n, k - 1);
      QuotientProduct(a, n, Pow(a, k - 1), Pow(n, k - 1));
    }
  }

  lemma QuotientProduct(a: int, n: int, b: int, m: int)
    requires n > 0 && m > 0
    ensures n * m > 0
    ensures (a as real / n as real) * (b as real / m as real) == (a * b) as real / (n * m) as real
  {
    MulMonotone(m, n);
    var x, y, u, v := a as real / n as real, b as real / m as real, n as real, m as real;
    assert x * u == a as real && y * v == b as real;
    RealExchange(x, u, y, v);
    assert (n * m) as real == u * v && (a * b) as real == (x * u) * (y * v);
    RealDivide(x * y, u * v, (a * b) as real);
  }

  lemma RealExchange(x: real, u: real, y: real, v: real)
    ensures (x * u) * (y * v) == (x * y) * (u * v)
  {
    RealAssociative(x, u, y * v);
    RealAssociative(u, y, v);
    RealAssociative(y, u, v);
    RealAssociative(x, y, u * v);
  }

  lemma RealAssociative(a: real, b: real, c: real)
    ensures (a * b) * c == a * (b * c)
  {
  }

  lemma RealDivide(q: real, d: real, x: real)
    requires d > 0.0 && q * d == x
    ensures q == x / d
  {
  }

  // ---- the tail --------------------------------------------------------------

  /** One summand of the loop: exactly k of `claimed` guesses right. */
  function Term(claimed: nat, k: nat, n: nat): real
    requires n > 0 && k <= claimed
  {
    var p := 1.0 / n as real;
    Choose(claimed, k) as real * RealPow(p, k) * RealPow(1.0 - p, claimed - k)
  }

  /** Out of n^claimed equally likely ways to guess, how many get at least `hits` right: each
      guess is right in one way and wrong in n - 1. */
  function WaysToHit(hits: int, claimed: nat, n: nat): int
    decreases claimed
  {
    if claimed == 0 then if hits <= 0 then 1 else 0
    else WaysToHit(hits - 1, claimed - 1, n) + (n - 1) * WaysToHit(hits, claimed - 1, n)
  }

  lemma {:induction false} AllWays(hits: int, claimed: nat, n: nat)
    requires hits <= 0
    ensures WaysToHit(hits, claimed, n) == Pow(n, claimed)
    decreases claimed
  {
    if claimed > 0 {
      AllWays(hits - 1, claimed - 1, n);
      AllWays(hits, claimed - 1, n);
      var w := Pow(n, claimed - 1);
      assert w + (n - 1) * w == n * w;
    }
  }

  /** The binomial sum counts those ways. */
  lemma {:induction false} SumCountsWays(hits: nat, claimed: nat, n: nat)
    ensures BinomialSum(claimed, hits, n - 1) == WaysToHit(hits, claimed, n)
  {
    if hits == 0 {
      BinomialTheorem(claimed, n - 1);
      AllWays(0, claimed, n);
    } else if claimed > 0 {
      BinomialSumStep(claimed - 1, hits, n - 1);
      SumCountsWays(hits - 1, claimed - 1, n);
      SumCountsWays(hits, claimed - 1, n);
    }
  }

  lemma TermIsFraction(claimed: nat, k: nat, n: nat)
    requires n > 0 && k <= claimed
    ensures Pow(n, claimed) > 0
    ensures Term(claimed, k, n) == (Choose(claimed, k) * Pow(n - 1, claimed - k)) as real / Pow(n, claimed) as real
  {
    ChancePow(n, k);
    MissPow(n, claimed - k);
    PowPositive(n, claimed);
    PowAdd(n, k, claimed - k);
    ThreeFactors(Choose(claimed, k), RealPow(1.0 / n as real, k), RealPow(1.0 - 1.0 / n as real, claimed - k),
                 Pow(n, k), Pow(n - 1, claimed - k), Pow(n, claimed - k), Pow(n, claimed));
  }

  lemma ChancePow(n: nat, k: nat)
    requires n > 0
    ensures Pow(n, k) > 0 && RealPow(1.0 / n as real, k) == 1 as real / Pow(n, k) as real
  {
    PowOfQuotient(1, n, k);
    PowOne(k);
  }

  lemma MissPow(n: nat, k: nat)
    requires n > 0
    ensures Pow(n, k) > 0 && RealPow(1.0 - 1.0 / n as real, k) == Pow(n - 1, k) as real / Pow(n, k) as real
  {
    Complement(n);
    PowOfQuotient(n - 1, n, k);
  }

  lemma Complement(n: nat)
    requires n > 0
    ensures 1.0 - 1.0 / n as real == (n - 1) as real / n as real
  {
    var r := n as real;
    assert (n - 1) as real == r - 1.0;
    assert (1.0 - 1.0 / r) * r == r - 1.0;
    RealDivide(1.0 - 1.0 / r, r, r - 1.0);
  }

  lemma ThreeFactors(c: int, x: real, y: real, u: int, w: int, v: int, total: int)
    requires u > 0 && v > 0 && total == u * v
    requires x == 1 as real / u as real && y == w as real / v as real
    ensures total > 0 && c as real * x * y == (c * w) as real / total as real
  {
    QuotientProduct(1, u, w, v);
    QuotientProduct(c, 1, w, total);
    assert c as real / 1 as real == c as real;
    RealAssociative(c as real, x, y);
  }

  /** The ways that succeed over all the ways there are. */
  function Probability(hits: nat, claimed: nat, n: nat): real
    requires n > 0
  {
    PowPositive(n, claimed);
    WaysToHit(hits, claimed, n) as real / Pow(n, claimed) as real
  }

  lemma NoHitsIsCertain(claimed: nat, n: nat)
    requires n > 0
    ensures Probability(0, claimed, n) == 1.0
  {
    AllWays(0, claimed, n);
    PowPositive(n, claimed);
    RealDivide(1.0, Pow(n, claimed) as real, Pow(n, claimed) as real);
  }

  /** P(at least `hits` correct), with `hits` brought into 0..claimed. */
  function AtLeastSpec(hits: int, claimed: int, n: int): real {
    if n <= 0 || claimed <= 0 then 1.0
    else Probability(if hits < 0 then 0 else if hits > claimed then claimed else hits, claimed, n)
  }

  /** `at_least`, over reals in place of floats: the loop from the far tail inward computes the
      probability exactly, and neither its shortcut for no hits nor its clamp to 1 changes it. */
  method AtLeast(hits: int, claimed: int, n: int) returns (tail: real)
    ensures tail == AtLeastSpec(hits, claimed, n)
  {
    if n <= 0 || claimed <= 0 {
      return 1.0;
    }
    var h := if hits > claimed then claimed else hits;
    h := if h < 0 then 0 else h;
    if h == 0 {
      NoHitsIsCertain(claimed, n);
      return 1.0;
    }
    var total := 0.0;
    var k := claimed + 1;
    EmptyTail(claimed, n);
    while k > h
      invariant h <= k <= claimed + 1
      invariant total == PartialTail(claimed, k, n)
    {
      k := k - 1;
      TailGrows(claimed, k, n, total);
      total := total + Term(claimed, k, n);
    }
    TailIsProbability(h, claimed, n);
    tail := if total < 1.0 then total else 1.0;
  }

  /** The sum of the terms from k to `claimed`. */
  function PartialTail(claimed: nat, k: nat, n: nat): real
    requires n > 0
  {
    PowPositive(n, claimed);
    BinomialSum(claimed, k, n - 1) as real / Pow(n, claimed) as real
  }

  lemma EmptyTail(claimed: nat, n: nat)
    requires n > 0
    ensures PartialTail(claimed, claimed + 1, n) == 0.0
  {
    PowPositive(n, claimed);
    RealDivide(0.0, Pow(n, claimed) as real, 0.0);
  }

  lemma TailGrows(claimed: nat, k: nat, n: nat, total: real)
    requires n > 0 && k <= claimed
    requires total == PartialTail(claimed, k + 1, n)
    ensures total + Term(claimed, k, n) == PartialTail(claimed, k, n)
  {
    TermIsFraction(claimed, k, n);
    AddFractions(Choose(claimed, k) * Pow(n - 1, claimed - k), BinomialSum(claimed, k + 1, n - 1), Pow(n, claimed));
  }

  lemma TailIsProbability(hits: nat, claimed: nat, n: nat)
    requires n > 0
    ensures PartialTail(claimed, hits, n) == Probability(hits, claimed, n)
    ensures 0.0 <= Probability(hits, claimed, n) <= 1.0
  {
    SumCountsWays(hits, claimed, n);
    WaysBounded(hits, claimed, n);
    PowPositive(n, claimed);
    FractionBounded(WaysToHit(hits, claimed, n), Pow(n, claimed));
  }

  lemma FractionBounded(a: int, b: int)
    requires 0 <= a <= b && b > 0
    ensures 0.0 <= a as real / b as real <= 1.0
  {
  }

  lemma AddFractions(a: int, b: int, d: int)
    requires d > 0
    ensures a as real / d as real + b as real / d as real == (a + b) as real / d as real
  {
  }

  // ---- monotonicity ----------------------------------------------------------

  lemma {:induction false} WaysNonNegative(hits: int, claimed: nat, n: nat)
    requires n > 0
    ensures WaysToHit(hits, claimed, n) >= 0
    decreases claimed
  {
    if claimed > 0 {
      WaysNonNegative(hits - 1, claimed - 1, n);
      WaysNonNegative(hits, claimed - 1, n);
      assert (n - 1) * WaysToHit(hits, claimed - 1, n) >= 0 by {
        ProductNonNegative(n - 1, WaysToHit(hits, claimed - 1, n));
      }
    }
  }

  lemma ProductNonNegative(a: int, b: int)
    requires a >= 0 && b >= 0
    ensures a * b >= 0
  {
  }

  lemma ProductMonotone(a: int, b: int, c: int)
    requires a >= 0 && b <= c
    ensures a * b <= a * c
  {
    ProductNonNegative(a, c - b);
    MulDistributes(a, b, c - b);
  }

  /** More hits are never likelier than fewer. */
  lemma {:induction false} NonincreasingInHits(hits: int, claimed: nat, n: nat)
    requires n > 0
    ensures WaysToHit(hits + 1, claimed, n) <= WaysToHit(hits, claimed, n)
    decreases claimed
  {
    if claimed > 0 {
      NonincreasingInHits(hits - 1, claimed - 1, n);
      NonincreasingInHits(hits, claimed - 1, n);
      ProductMonotone(n - 1, WaysToHit(hits + 1, claimed - 1, n), WaysToHit(hits, claimed - 1, n));
    }
  }

  lemma WaysBounded(hits: nat, claimed: nat, n: nat)
    requires n > 0
    ensures 0 <= WaysToHit(hits, claimed, n) <= Pow(n, claimed)
  {
    WaysNonNegative(hits, claimed, n);
    if hits == 0 {
      AllWays(0, claimed, n);
    } else {
      NonincreasingInHits(hits - 1, claimed, n);
      WaysBounded(hits - 1, claimed, n);
    }
  }

  /** One more guess never makes the same number of hits less likely. */
  lemma NondecreasingInClaimed(hits: int, claimed: nat, n: nat)
    requires n > 0
    ensures n * WaysToHit(hits, claimed, n) <= WaysToHit(hits, claimed + 1, n)
  {
    NonincreasingInHits(hits - 1, claimed, n);
  }

  lemma {:induction false} PaddingRaisesTail(hits: nat, claimed: nat, more: nat, n: nat)
    requires n > 0 && hits <= claimed <= more
    ensures Probability(hits, claimed, n) <= Probability(hits, more, n)
    decreases more
  {
    if claimed < more {
      PaddingRaisesTail(hits, claimed, more - 1, n);
      NondecreasingInClaimed(hits, more - 1, n);
      PowPositive(n, more - 1);
      ScaleFraction(WaysToHit(hits, more - 1, n), Pow(n, more - 1), n, WaysToHit(hits, more, n));
    }
  }

  lemma ScaleFraction(a: int, b: int, n: int, c: int)
    requires b > 0 && n > 0 && n * a <= c
    ensures n * b > 0 && a as real / b as real <= c as real / (n * b) as real
  {
    MulMonotone(b, n);
    QuotientProduct(n, n, a, b);
    assert n as real / n as real == 1.0;
    assert (n * a) as real / (n * b) as real == a as real / b as real;
    DivideMonotone((n * a) as real, c as real, (n * b) as real);
  }

  lemma DivideMonotone(x: real, y: real, d: real)
    requires d > 0.0 && x <= y
    ensures x / d <= y / d
  {
  }

  // ---- the verdict -----------------------------------------------------------

  type Claim = map<string, string>

  datatype Verdict = Verdict(citizens: nat, claimed: nat, recognised: nat, unknown: set<string>,
                             correct: set<string>, pValue: real, leaked: bool)

  /** `score`. */
  function Score(truth: Claim, claim: Claim): Verdict {
    var unknown := claim.Keys - truth.Keys;
    var named := claim.Keys * truth.Keys;
    var correct := set voter | voter in named && claim[voter] == truth[voter];
    var p := AtLeastSpec(|correct|, |claim|, |truth|);
    Verdict(|truth|, |claim|, |named|, unknown, correct, p, p < ALPHA)
  }

  /** `more` names everybody `claim` does, alike, and is right about nobody else. */
  ghost predicate PadsWithMisses(truth: Claim, claim: Claim, more: Claim) {
    && claim.Keys <= more.Keys
    && (forall voter :: voter in claim ==> more[voter] == claim[voter])
    && (forall voter :: voter in more && voter !in claim ==> voter !in truth || truth[voter] != more[voter])
  }

  lemma SubsetSize<T>(a: set<T>, b: set<T>)
    requires a <= b
    ensures |a| <= |b|
  {
    assert b == a + (b - a);
  }

  /** Padding a claim with wrong or invented names never turns a claim into an upheld one. */
  lemma PaddingNeverHelps(truth: Claim, claim: Claim, more: Claim)
    requires PadsWithMisses(truth, claim, more)
    ensures Score(truth, more).correct == Score(truth, claim).correct
    ensures Score(truth, claim).pValue <= Score(truth, more).pValue
    ensures Score(truth, more).leaked ==> Score(truth, claim).leaked
  {
    var correct := Score(truth, claim).correct;
    assert Score(truth, more).correct == correct;
    SubsetSize(correct, claim.Keys);
    SubsetSize(claim.Keys, more.Keys);
    if |truth| > 0 {
      PaddingRaisesTail(|correct|, |claim|, |more|, |truth|);
      NoHitsIsCertain(|more|, |truth|);
    }
  }

  /** The unknown and the recognised partition the claim; only the recognised can be hits. */
  lemma ScoreAccountsForEveryName(truth: Claim, claim: Claim)
    ensures var v := Score(truth, claim);
            && v.recognised + |v.unknown| == v.claimed
            && |v.correct| <= v.recognised
            && 0.0 <= v.pValue <= 1.0
  {
    var named, unknown := claim.Keys * truth.Keys, claim.Keys - truth.Keys;
    assert claim.Keys == named + unknown;
    var correct := Score(truth, claim).correct;
    SubsetSize(correct, named);
    SubsetSize(correct, claim.Keys);
    if |truth| > 0 && |claim| > 0 {
      TailIsProbability(|correct|, |claim|, |truth|);
    }
  }

  /** What the score is: the hits are the names given their own key, the rest of the claim is missed or
      unknown, and the tail is that of as many hits in the whole claim, invented names included, out of
      the whole electorate. It is called a leak below one in a thousand. */
  lemma ScoreTells(truth: Claim, claim: Claim)
    ensures var v := Score(truth, claim);
            && v.citizens == |truth| && v.claimed == |claim|
            && v.recognised == |set voter | voter in claim && voter in truth|
            && (forall voter :: voter in v.unknown <==> voter in claim && voter !in truth)
            && (forall voter :: voter in v.correct <==>
                  voter in claim && voter in truth && claim[voter] == truth[voter])
            && (truth != map[] && claim != map[] ==>
                  Pow(|truth|, |claim|) > 0
                  && v.pValue == WaysToHit(|v.correct|, |claim|, |truth|) as real / Pow(|truth|, |claim|) as real)
            && (truth == map[] || claim == map[] ==> v.pValue == 1.0)
            && (v.leaked <==> v.pValue < 0.001)
  {
    var v := Score(truth, claim);
    assert claim.Keys * truth.Keys == set voter | voter in claim && voter in truth;
    SubsetSize(v.correct, claim.Keys);
    if truth != map[] && claim != map[] {
      assert |truth| > 0 && |claim| > 0;
      PowPositive(|truth|, |claim|);
    }
  }
}
