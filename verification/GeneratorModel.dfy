/** A whole election generated from a plan: what is drawn, what is cast, and why the count comes out
    as planned whatever the draws. */
module GeneratorModel {
  import opened Base64
  import opened Canonical
  import opened Statements
  import B = BoxModel

  // ---- identifiers ----------------------------------------------------------------------

  /** Five names outside ASCII, as their UTF-8 bytes. */
  const AWKWARD: seq<string> := [
    "\U{c5}\U{90}", "\U{c5}\U{b1}", "\U{e6}\U{97}\U{a5}\U{e6}\U{9c}\U{ac}\U{e8}\U{aa}\U{9e}",
    "\U{f0}\U{9d}\U{94}\U{84}", "\U{c3}\U{81}gnes"]

  /** `{i:06d}`. */
  function Padded6(i: nat): string {
    if |Digits(i)| < 6 then Zeros(6 - |Digits(i)|) + Digits(i) else Digits(i)
  }

  function Suffix(i: nat): string {
    if 1 <= i <= |AWKWARD| then "-" + AWKWARD[i - 1] else ""
  }

  function Name(i: nat): string { "GEN-" + (Padded6(i) + Suffix(i)) }

  /** `identifiers`. */
  method Identifiers(count: nat) returns (names: seq<string>)
    ensures names == Names(count)
  {
    names := [];
    for i := 0 to count
      invariant names == Names(i)
    {
      names := names + [Name(i + 1)];
    }
  }

  function Names(count: nat): (names: seq<string>)
    ensures |names| == count
  {
    seq(count, i requires 0 <= i < count => Name(i + 1))
  }

  lemma Padded6Reads(i: nat)
    ensures AllDigits(Padded6(i)) && ReadDigits(Padded6(i)) == i
  {
    DigitsReadBack(i);
    if |Digits(i)| < 6 {
      ReadZeros(6 - |Digits(i)|, Digits(i));
    }
  }

  /** Different numbers make different identifiers, however many there are. */
  lemma NamesDiffer(i: nat, j: nat)
    requires i != j
    ensures Name(i) != Name(j)
  {
    Padded6Reads(i);
    Padded6Reads(j);
    SuffixEnds(i);
    SuffixEnds(j);
    if Name(i) == Name(j) {
      CancelLeft("GEN-", Padded6(i) + Suffix(i), Padded6(j) + Suffix(j));
      DigitRun(Padded6(i), Padded6(j), Suffix(i), Suffix(j));
    }
  }

  lemma SuffixEnds(i: nat)
    ensures EndsDigits(Suffix(i))
  {
  }

  /** An identifier shows its number, in six digits or as many as it takes; the first five are
      followed by a text that begins outside ASCII, and no other by anything. */
  lemma NameShowsNumber(i: nat) returns (digits: string, ending: string)
    requires i > 0
    ensures Name(i) == "GEN-" + (digits + ending)
    ensures AllDigits(digits) && ReadDigits(digits) == i && |digits| >= 6 && (|digits| > 6 ==> digits[0] != '0')
    ensures i > 5 <==> ending == ""
    ensures i <= 5 ==> |ending| >= 2 && ending[0] == '-' && ending[1] as int >= 128
  {
    digits, ending := Padded6(i), Suffix(i);
    Padded6Reads(i);
    FirstDigit(i);
  }

  lemma {:induction false} FirstDigit(n: nat)
    requires n > 0
    ensures Digits(n)[0] != '0'
  {
    if n >= 10 {
      DigitsReadBack(n / 10);
      FirstDigit(n / 10);
    }
  }

  predicate AllDistinct(ids: seq<string>) {
    forall i, j :: 0 <= i < j < |ids| ==> ids[i] != ids[j]
  }

  lemma NamesDistinct(count: nat)
    ensures AllDistinct(Names(count))
  {
    forall i, j | 0 <= i < j < count ensures Names(count)[i] != Names(count)[j] {
      NamesDiffer(i + 1, j + 1);
    }
  }

  // ---- the plan --------------------------------------------------------------------------

  /** One item of a dict from selections to counts. */
  datatype Share = Share(selection: int, count: int)

  datatype Distribution = Distribution(perOption: seq<Share>, protest: seq<Share>, abstentions: int, revotes: int)

  function Sum(shares: seq<Share>): int {
    if shares == [] then 0 else Sum(shares[..|shares| - 1]) + shares[|shares| - 1].count
  }

  function CastingCount(d: Distribution): int { Sum(d.perOption) + Sum(d.protest) }

  function Citizens(d: Distribution): int { CastingCount(d) + d.abstentions }

  /** `check`: whether it lets the plan through. */
  predicate Check(d: Distribution, numChoices: int) {
    && (forall i :: 0 <= i < |d.perOption| ==> 1 <= d.perOption[i].selection <= numChoices)
    && (forall i :: 0 <= i < |d.protest| ==> !(1 <= d.protest[i].selection <= numChoices))
    && (forall i :: 0 <= i < |d.perOption| ==> d.perOption[i].count >= 0)
    && (forall i :: 0 <= i < |d.protest| ==> d.protest[i].count >= 0)
    && d.abstentions >= 0 && d.revotes >= 0
    && CastingCount(d) >= 1 && d.revotes <= CastingCount(d)
  }

  /** The items of a dict have different keys. */
  predicate DistinctSelections(shares: seq<Share>) {
    forall i, j :: 0 <= i < j < |shares| ==> shares[i].selection != shares[j].selection
  }

  predicate NonNegative(shares: seq<Share>) {
    forall i :: 0 <= i < |shares| ==> shares[i].count >= 0
  }

  /** `counts.get(s, 0)`. */
  function ShareOf(shares: seq<Share>, s: int): int {
    if shares == [] then 0
    else if shares[|shares| - 1].selection == s then shares[|shares| - 1].count
    else ShareOf(shares[..|shares| - 1], s)
  }

  function Repeated(s: int, k: nat): (t: seq<int>)
    ensures |t| == k
  {
    seq(k, _ => s)
  }

  /** `[selection] * count`, for each. */
  function Expanded(shares: seq<Share>): seq<int> {
    if shares == [] then []
    else
      var last := shares[|shares| - 1];
      Expanded(shares[..|shares| - 1]) + Repeated(last.selection, if last.count >= 0 then last.count else 0)
  }

  function SelectionsOf(d: Distribution): seq<int> { Expanded(d.perOption) + Expanded(d.protest) }

  /** `selections`. */
  method Selections(d: Distribution) returns (out: seq<int>)
    ensures out == SelectionsOf(d)
  {
    var options := Extend(d.perOption);
    var protest := Extend(d.protest);
    out := options + protest;
  }

  method Extend(shares: seq<Share>) returns (out: seq<int>)
    ensures out == Expanded(shares)
  {
    out := [];
    for i := 0 to |shares|
      invariant out == Expanded(shares[..i])
    {
      assert shares[..i + 1][..i] == shares[..i];
      out := out + Repeated(shares[i].selection, if shares[i].count >= 0 then shares[i].count else 0);
    }
    assert shares[..|shares|] == shares;
  }

  lemma {:induction false} RepeatedCounts(s: int, k: nat, t: int)
    ensures multiset(Repeated(s, k))[t] == if t == s then k else 0
  {
    if k > 0 {
      RepeatedCounts(s, k - 1, t);
      assert Repeated(s, k) == Repeated(s, k - 1) + [s];
    }
  }

  lemma {:induction false} NoShare(shares: seq<Share>, s: int)
    requires forall i :: 0 <= i < |shares| ==> shares[i].selection != s
    ensures ShareOf(shares, s) == 0
  {
    if shares != [] {
      NoShare(shares[..|shares| - 1], s);
    }
  }

  /** The expanded selections hold each as often as planned. */
  lemma {:induction false} ExpandedCounts(shares: seq<Share>, s: int)
    requires DistinctSelections(shares) && NonNegative(shares)
    ensures multiset(Expanded(shares))[s] == ShareOf(shares, s)
    ensures |Expanded(shares)| == Sum(shares)
  {
    if shares != [] {
      var n := |shares| - 1;
      ExpandedCounts(shares[..n], s);
      RepeatedCounts(shares[n].selection, shares[n].count, s);
      if shares[n].selection == s {
        NoShare(shares[..n], s);
      }
    }
  }

  // ---- the draws -------------------------------------------------------------------------

  /** What the generator draws: the two shuffles of the citizens, the shuffle of the selections, the
      re-voters, the shuffle of the submissions, and the selections that are superseded. */
  datatype Draws = Draws(issuance: seq<string>, orderBlind: seq<string>, final: seq<int>, sample: seq<string>,
                         events: seq<string>, superseded: nat -> int)

  function Without(ids: seq<string>, out: set<string>): seq<string> {
    if ids == [] then []
    else
      var before, last := Without(ids[..|ids| - 1], out), ids[|ids| - 1];
      if last in out then before else before + [last]
  }

  function Elements(ids: seq<string>): set<string> { set x | x in ids }

  /** `casting`: everybody drawn after those who abstain. */
  function Casting(d: Distribution, draws: Draws): seq<string>
    requires 0 <= d.abstentions <= |draws.orderBlind|
  {
    Without(draws.orderBlind, Elements(draws.orderBlind[..d.abstentions]))
  }

  /** The draws are shuffles and samples of what they should be. */
  ghost predicate AreDrawn(d: Distribution, draws: Draws) {
    && Citizens(d) >= 0 && d.abstentions >= 0
    && multiset(draws.issuance) == multiset(Names(Citizens(d)))
    && multiset(draws.orderBlind) == multiset(Names(Citizens(d)))
    && multiset(draws.final) == multiset(SelectionsOf(d))
    && d.abstentions <= |draws.orderBlind|
    && AllDistinct(draws.sample) && |draws.sample| == d.revotes
    && (forall v :: v in draws.sample ==> v in Casting(d, draws))
    && multiset(draws.events) == multiset(Casting(d, draws) + draws.sample)
    && (forall k: nat {:trigger draws.superseded(k)} :: draws.superseded(k) in draws.final)
  }

  lemma SameMultisetSameSize<T>(a: seq<T>, b: seq<T>)
    requires multiset(a) == multiset(b)
    ensures |a| == |b|
    ensures forall x :: x in a <==> x in b
  {
    assert |multiset(a)| == |a| && |multiset(b)| == |b|;
    forall x ensures x in a <==> x in b {
      assert x in multiset(a) <==> x in multiset(b);
    }
  }

  lemma {:induction false} DistinctMeansOnce(a: seq<string>, x: string)
    ensures AllDistinct(a) ==> multiset(a)[x] <= 1
  {
    if a != [] {
      var n := |a| - 1;
      DistinctMeansOnce(a[..n], x);
      assert a == a[..n] + [a[n]];
      if AllDistinct(a) && x == a[n] {
        assert x !in a[..n];
        assert multiset(a[..n])[x] == 0;
      }
    }
  }

  lemma TwiceMeansTwo(a: seq<string>, i: nat, j: nat)
    requires i < j < |a| && a[i] == a[j]
    ensures multiset(a)[a[i]] >= 2
  {
    assert a == a[..j] + ([a[j]] + a[j + 1..]);
    assert a[i] in a[..j];
    assert multiset(a[..j])[a[i]] >= 1;
    assert multiset(a) == multiset(a[..j]) + (multiset([a[j]]) + multiset(a[j + 1..]));
  }

  lemma ShuffleKeepsDistinct(a: seq<string>, b: seq<string>)
    requires multiset(a) == multiset(b) && AllDistinct(b)
    ensures AllDistinct(a)
  {
    forall i, j | 0 <= i < j < |a| ensures a[i] != a[j] {
      if a[i] == a[j] {
        TwiceMeansTwo(a, i, j);
        DistinctMeansOnce(b, a[i]);
      }
    }
  }

  lemma {:induction false} WithoutPrefix(ids: seq<string>, k: nat, n: nat)
    requires AllDistinct(ids) && k <= n <= |ids|
    ensures Without(ids[..n], Elements(ids[..k])) == ids[k..n]
  {
    if n == 0 {
      assert ids[..0] == [] && ids[k..n] == [];
    } else if k == n {
      EverybodyOut(ids[..n], Elements(ids[..k]));
    } else {
      WithoutPrefix(ids, k, n - 1);
      assert ids[..n][..n - 1] == ids[..n - 1];
      assert ids[n - 1] !in Elements(ids[..k]);
      assert ids[k..n] == ids[k..n - 1] + [ids[n - 1]];
    }
  }

  lemma {:induction false} EverybodyOut(ids: seq<string>, out: set<string>)
    requires forall x :: x in ids ==> x in out
    ensures Without(ids, out) == []
  {
    if ids != [] {
      assert ids[|ids| - 1] in ids;
      EverybodyOut(ids[..|ids| - 1], out);
    }
  }

  /** Who casts: as many citizens as there are selections, all different. */
  lemma CastingIsRight(d: Distribution, draws: Draws)
    requires NonNegative(d.perOption) && NonNegative(d.protest)
    requires DistinctSelections(d.perOption) && DistinctSelections(d.protest) && AreDrawn(d, draws)
    ensures Casting(d, draws) == draws.orderBlind[d.abstentions..]
    ensures AllDistinct(Casting(d, draws)) && |Casting(d, draws)| == CastingCount(d) == |draws.final|
    ensures AllDistinct(draws.issuance) && |draws.issuance| == Citizens(d)
    ensures forall v :: v in Casting(d, draws) ==> v in draws.issuance
  {
    NamesDistinct(Citizens(d));
    ShuffleKeepsDistinct(draws.orderBlind, Names(Citizens(d)));
    ShuffleKeepsDistinct(draws.issuance, Names(Citizens(d)));
    SameMultisetSameSize(draws.orderBlind, Names(Citizens(d)));
    SameMultisetSameSize(draws.issuance, Names(Citizens(d)));
    WithoutPrefix(draws.orderBlind, d.abstentions, |draws.orderBlind|);
    assert draws.orderBlind[..|draws.orderBlind|] == draws.orderBlind;
    SameMultisetSameSize(draws.final, SelectionsOf(d));
    ExpandedCounts(d.perOption, 0);
    ExpandedCounts(d.protest, 0);
    forall v | v in Casting(d, draws) ensures v in draws.issuance {
      assert v in draws.orderBlind;
    }
  }

  /** Every selection is on the right side of the line, and nothing is counted below nought. */
  predicate InPlace(d: Distribution, numChoices: int) {
    && (forall i :: 0 <= i < |d.perOption| ==> 1 <= d.perOption[i].selection <= numChoices)
    && (forall i :: 0 <= i < |d.protest| ==> d.protest[i].selection < 1 || numChoices < d.protest[i].selection)
    && NonNegative(d.perOption) && NonNegative(d.protest) && d.abstentions >= 0
  }

  lemma SampleFits(sample: seq<string>, casting: seq<string>)
    requires AllDistinct(sample) && forall v :: v in sample ==> v in casting
    ensures |sample| <= |casting|
  {
    forall v ensures multiset(sample)[v] <= multiset(casting)[v] {
      DistinctMeansOnce(sample, v);
      assert v in multiset(sample) <==> v in sample;
      assert v in multiset(casting) <==> v in casting;
    }
    assert multiset(sample) <= multiset(casting);
    assert multiset(casting) == multiset(sample) + (multiset(casting) - multiset(sample));
    assert |multiset(sample)| == |sample| && |multiset(casting)| == |casting|;
  }

  /** One way to draw: nobody and nothing shuffled, the first to cast voting again. */
  function FirstDraws(d: Distribution): Draws
    requires Citizens(d) >= 0 && 0 <= d.abstentions <= Citizens(d) && SelectionsOf(d) != [] && d.revotes >= 0
  {
    var names := Names(Citizens(d));
    var casting := Without(names, Elements(names[..d.abstentions]));
    var sample := if d.revotes <= |casting| then casting[..d.revotes] else [];
    Draws(names, names, SelectionsOf(d), sample, casting + sample, (k: nat) => SelectionsOf(d)[0])
  }

  lemma CheckedCanBeDrawn(d: Distribution, numChoices: int)
    requires Check(d, numChoices) && DistinctSelections(d.perOption) && DistinctSelections(d.protest)
    ensures exists draws :: AreDrawn(d, draws)
  {
    ExpandedCounts(d.perOption, 0);
    ExpandedCounts(d.protest, 0);
    var draws, names := FirstDraws(d), Names(Citizens(d));
    NamesDistinct(Citizens(d));
    WithoutPrefix(names, d.abstentions, |names|);
    assert names[..|names|] == names;
    var casting := names[d.abstentions..];
    assert Casting(d, draws) == casting && |casting| == CastingCount(d) && draws.sample == casting[..d.revotes];
    assert AreDrawn(d, draws);
  }

  /** A plan that is in place passes the check exactly when there is a way to draw it: somebody casts, and
      those who vote again are among them. */
  lemma CheckedExactlyWhenDrawable(d: Distribution, numChoices: int)
    requires DistinctSelections(d.perOption) && DistinctSelections(d.protest)
    ensures Check(d, numChoices) <==> InPlace(d, numChoices) && exists draws :: AreDrawn(d, draws)
  {
    if Check(d, numChoices) {
      CheckedCanBeDrawn(d, numChoices);
    }
    if InPlace(d, numChoices) && exists draws :: AreDrawn(d, draws) {
      var draws :| AreDrawn(d, draws);
      CastingIsRight(d, draws);
      SampleFits(draws.sample, Casting(d, draws));
      assert draws.superseded(0) in draws.final;
    }
  }

  // ---- the ballots -----------------------------------------------------------------------

  /** `dict(zip(casting, final))`. */
  function Chosen(casting: seq<string>, final: seq<int>, k: nat): map<string, int>
    requires k <= |casting| && k <= |final|
  {
    if k == 0 then map[] else Chosen(casting, final, k - 1)[casting[k - 1] := final[k - 1]]
  }

  lemma {:induction false} ChosenAt(casting: seq<string>, final: seq<int>, k: nat, i: nat)
    requires AllDistinct(casting) && i < k <= |casting| && k <= |final|
    ensures casting[i] in Chosen(casting, final, k) && Chosen(casting, final, k)[casting[i]] == final[i]
  {
    if i < k - 1 {
      ChosenAt(casting, final, k - 1, i);
    }
  }

  /** No later submission comes from the same citizen. */
  predicate IsLast(events: seq<string>, k: nat)
    requires k < |events|
  {
    forall j :: k < j < |events| ==> events[j] != events[k]
  }

  /** What each submission selects: the citizen's own choice when it is their last. */
  function SelectionAt(draws: Draws, chosen: map<string, int>, k: nat): int
    requires k < |draws.events| && draws.events[k] in chosen
  {
    if IsLast(draws.events, k) then chosen[draws.events[k]] else draws.superseded(k)
  }

  /** These are the submissions: each citizen's under their own ad-hoc key. */
  ghost predicate AreCast(draws: Draws, casting: seq<string>, key: string -> Bytes, ballots: seq<Ballot>) {
    && |ballots| == |draws.events| && |casting| == |draws.final|
    && (forall k :: 0 <= k < |ballots| ==>
          draws.events[k] in Chosen(casting, draws.final, |casting|)
          && ballots[k].adhocKey == key(draws.events[k])
          && ballots[k].selection == SelectionAt(draws, Chosen(casting, draws.final, |casting|), k))
  }

  ghost predicate DifferentKeys(casting: seq<string>, key: string -> Bytes) {
    forall i, j {:trigger casting[i], casting[j]} ::
      0 <= i < |casting| && 0 <= j < |casting| && key(casting[i]) == key(casting[j]) ==> i == j
  }

  lemma {:induction false} LastSubmission(events: seq<string>, v: string, n: nat) returns (k: nat)
    requires n <= |events| && v in events[..n] && forall j :: n <= j < |events| ==> events[j] != v
    ensures k < |events| && events[k] == v && IsLast(events, k)
  {
    if events[n - 1] == v {
      k := n - 1;
    } else {
      assert v in events[..n - 1] by {
        var i :| 0 <= i < n && events[..n][i] == v;
        assert events[..n - 1][i] == v;
      }
      k := LastSubmission(events, v, n - 1);
    }
  }

  /** The effective ballot of each citizen carries the selection drawn for them. */
  lemma EffectiveIsChosen(draws: Draws, casting: seq<string>, key: string -> Bytes, ballots: seq<Ballot>, i: nat)
    requires AreCast(draws, casting, key, ballots) && AllDistinct(casting) && DifferentKeys(casting, key)
    requires forall v :: v in draws.events <==> v in casting
    requires i < |casting|
    ensures key(casting[i]) in B.Effective(ballots) && B.Effective(ballots)[key(casting[i])].selection == draws.final[i]
  {
    var v := casting[i];
    assert v in draws.events;
    assert draws.events[..|draws.events|] == draws.events;
    var k := LastSubmission(draws.events, v, |draws.events|);
    forall j | k < j < |ballots| ensures ballots[j].adhocKey != ballots[k].adhocKey {
      assert draws.events[j] in casting && draws.events[j] != v;
      var m :| 0 <= m < |casting| && casting[m] == draws.events[j];
      assert casting[m] != casting[i];
    }
    B.EffectiveIsLast(ballots, k);
    ChosenAt(casting, draws.final, |casting|, i);
  }

  /** Whose key stands behind a selection, among the first n. */
  function Behind(casting: seq<string>, final: seq<int>, key: string -> Bytes, s: int, n: nat): set<Bytes>
    requires n <= |casting| && n <= |final|
  {
    if n == 0 then {}
    else Behind(casting, final, key, s, n - 1) + (if final[n - 1] == s then {key(casting[n - 1])} else {})
  }

  lemma {:induction false} BehindHolds(casting: seq<string>, final: seq<int>, key: string -> Bytes, s: int, n: nat,
                                       k: Bytes)
    requires n <= |casting| && n <= |final|
    ensures k in Behind(casting, final, key, s, n) <==> exists i :: 0 <= i < n && final[i] == s && key(casting[i]) == k
  {
    if n > 0 {
      BehindHolds(casting, final, key, s, n - 1, k);
      if i :| 0 <= i < n && final[i] == s && key(casting[i]) == k {
        assert i < n - 1 || i == n - 1;
      }
    }
  }

  lemma NewKey(casting: seq<string>, key: string -> Bytes, n: nat)
    requires DifferentKeys(casting, key) && n < |casting|
    ensures forall i :: 0 <= i < n ==> key(casting[i]) != key(casting[n])
  {
  }

  lemma NewBehind(casting: seq<string>, final: seq<int>, key: string -> Bytes, s: int, n: nat)
    requires n < |casting| && n < |final| && DifferentKeys(casting, key)
    ensures key(casting[n]) !in Behind(casting, final, key, s, n)
  {
    BehindHolds(casting, final, key, s, n, key(casting[n]));
    NewKey(casting, key, n);
  }

  lemma {:induction false} BehindCounts(casting: seq<string>, final: seq<int>, key: string -> Bytes, s: int, n: nat)
    requires n <= |casting| && n <= |final| && DifferentKeys(casting, key)
    ensures |Behind(casting, final, key, s, n)| == multiset(final[..n])[s]
  {
    if n > 0 {
      BehindCounts(casting, final, key, s, n - 1);
      BehindOneMore(casting, final, key, s, n);
      CountOneMore(final, n, s);
    }
  }

  lemma SizeWith(keys: set<Bytes>, k: Bytes)
    requires k !in keys
    ensures |keys + {k}| == |keys| + 1
  {
  }

  lemma CountOneMore(final: seq<int>, n: nat, s: int)
    requires 0 < n <= |final|
    ensures multiset(final[..n])[s] == multiset(final[..n - 1])[s] + (if final[n - 1] == s then 1 else 0)
  {
    assert final[..n] == final[..n - 1] + [final[n - 1]];
  }

  lemma BehindOneMore(casting: seq<string>, final: seq<int>, key: string -> Bytes, s: int, n: nat)
    requires 0 < n <= |casting| && n <= |final| && DifferentKeys(casting, key)
    ensures |Behind(casting, final, key, s, n)|
         == |Behind(casting, final, key, s, n - 1)| + (if final[n - 1] == s then 1 else 0)
  {
    NewBehind(casting, final, key, s, n - 1);
    SizeWith(Behind(casting, final, key, s, n - 1), key(casting[n - 1]));
  }

  lemma EffectiveKeysAreCasting(draws: Draws, casting: seq<string>, key: string -> Bytes, ballots: seq<Ballot>,
                                k: Bytes)
    requires AreCast(draws, casting, key, ballots)
    requires forall v :: v in draws.events <==> v in casting
    ensures k in B.Effective(ballots) ==> exists i :: 0 <= i < |casting| && key(casting[i]) == k
  {
    B.EffectiveKeys(ballots);
    if k in B.Effective(ballots) {
      var j :| 0 <= j < |ballots| && ballots[j].adhocKey == k;
      assert draws.events[j] in casting;
    }
  }

  /** A selection is counted as often as it was drawn. */
  lemma CountedAsDrawn(draws: Draws, casting: seq<string>, key: string -> Bytes, ballots: seq<Ballot>, s: int)
    requires AreCast(draws, casting, key, ballots) && AllDistinct(casting) && DifferentKeys(casting, key)
    requires forall v :: v in draws.events <==> v in casting
    ensures |B.Choosing(B.Effective(ballots), s)| == multiset(draws.final)[s]
  {
    var latest, n := B.Effective(ballots), |casting|;
    forall k ensures k in B.Choosing(latest, s) <==> k in Behind(casting, draws.final, key, s, n) {
      BehindHolds(casting, draws.final, key, s, n, k);
      EffectiveKeysAreCasting(draws, casting, key, ballots, k);
      if i :| 0 <= i < n && key(casting[i]) == k {
        EffectiveIsChosen(draws, casting, key, ballots, i);
        if j :| 0 <= j < n && draws.final[j] == s && key(casting[j]) == k {
          EffectiveIsChosen(draws, casting, key, ballots, j);
        }
      }
    }
    assert B.Choosing(latest, s) == Behind(casting, draws.final, key, s, n);
    BehindCounts(casting, draws.final, key, s, n);
    assert draws.final[..n] == draws.final;
  }

  function KeysOf(casting: seq<string>, key: string -> Bytes, n: nat): set<Bytes>
    requires n <= |casting|
  {
    if n == 0 then {} else KeysOf(casting, key, n - 1) + {key(casting[n - 1])}
  }

  lemma {:induction false} KeysOfHolds(casting: seq<string>, key: string -> Bytes, n: nat, k: Bytes)
    requires n <= |casting|
    ensures k in KeysOf(casting, key, n) <==> exists i :: 0 <= i < n && key(casting[i]) == k
  {
    if n > 0 {
      KeysOfHolds(casting, key, n - 1, k);
      if i :| 0 <= i < n && key(casting[i]) == k {
        assert i < n - 1 || i == n - 1;
      }
    }
  }

  lemma {:induction false} KeysOfCount(casting: seq<string>, key: string -> Bytes, n: nat)
    requires n <= |casting| && DifferentKeys(casting, key)
    ensures |KeysOf(casting, key, n)| == n
  {
    if n > 0 {
      KeysOfCount(casting, key, n - 1);
      KeysOfHolds(casting, key, n - 1, key(casting[n - 1]));
      NewKey(casting, key, n - 1);
      SizeWith(KeysOf(casting, key, n - 1), key(casting[n - 1]));
    }
  }

  /** There are as many voters as citizens who cast. */
  lemma VotersAreCasting(draws: Draws, casting: seq<string>, key: string -> Bytes, ballots: seq<Ballot>)
    requires AreCast(draws, casting, key, ballots) && AllDistinct(casting) && DifferentKeys(casting, key)
    requires forall v :: v in draws.events <==> v in casting
    ensures |B.Effective(ballots)| == |casting|
  {
    var latest := B.Effective(ballots);
    KeysOfCount(casting, key, |casting|);
    forall k ensures k in latest.Keys <==> k in KeysOf(casting, key, |casting|) {
      KeysOfHolds(casting, key, |casting|, k);
      EffectiveKeysAreCasting(draws, casting, key, ballots, k);
      if i :| 0 <= i < |casting| && key(casting[i]) == k {
        EffectiveIsChosen(draws, casting, key, ballots, i);
      }
    }
    assert latest.Keys == KeysOf(casting, key, |casting|);
  }

  // ---- nothing is refused ------------------------------------------------------------------

  /** Every ballot carries a valid token and a valid signature, and no two make the same record. */
  ghost predicate AreGenuine(p: B.Poll, ballots: seq<Ballot>) {
    && B.AllGenuine(p, ballots)
    && forall i, j :: 0 <= i < j < |ballots| ==> B.RecordDigest(p, ballots[i]) != B.RecordDigest(p, ballots[j])
  }

  lemma {:induction false} AllAccepted(p: B.Poll, ballots: seq<Ballot>, n: nat)
    requires AreGenuine(p, ballots) && n <= |ballots|
    ensures B.AdmitAll(p, B.Registry([], []), ballots[..n]) == B.Registry(ballots[..n], [])
  {
    if n > 0 {
      AllAccepted(p, ballots, n - 1);
      assert ballots[..n][..n - 1] == ballots[..n - 1];
      NextAccepted(p, ballots, n - 1);
      assert ballots[..n] == ballots[..n - 1] + [ballots[n - 1]];
    }
  }

  lemma NextAccepted(p: B.Poll, ballots: seq<Ballot>, n: nat)
    requires AreGenuine(p, ballots) && n < |ballots|
    ensures B.Objection(p, ballots[..n], ballots[n]).None?
  {
    assert p.tokenOk(ballots[n].adhocKey, ballots[n].token);
    forall i | 0 <= i < n ensures B.RecordDigest(p, ballots[..n][i]) != B.RecordDigest(p, ballots[n]) {
      assert ballots[..n][i] == ballots[i];
    }
  }

  /** Fresh nonces are enough, where the hash tells the records apart. */
  lemma FreshNoncesDiffer(p: B.Poll, ballots: seq<Ballot>)
    requires B.Faithful(p)
    requires forall i, j :: 0 <= i < j < |ballots| ==> ballots[i].nonce != ballots[j].nonce
    requires forall i, j :: 0 <= i < j < |ballots| && p.h(p.text(ballots[i])) == p.h(p.text(ballots[j]))
               ==> p.text(ballots[i]) == p.text(ballots[j])
    ensures forall i, j :: 0 <= i < j < |ballots| ==> B.RecordDigest(p, ballots[i]) != B.RecordDigest(p, ballots[j])
  {
  }

  // ---- sums --------------------------------------------------------------------------------

  function SumTo(f: int -> int, n: int): int
    decreases n
  {
    if n < 1 then 0 else SumTo(f, n - 1) + f(n)
  }

  lemma {:induction false} SumPoint(f: int -> int, g: int -> int, at: int, c: int, n: int)
    requires forall s {:trigger f(s)} :: f(s) == g(s) + (if s == at then c else 0)
    requires 1 <= at
    ensures SumTo(f, n) == SumTo(g, n) + (if at <= n then c else 0)
    decreases n
  {
    if n >= 1 {
      SumPoint(f, g, at, c, n - 1);
    }
  }

  function Shares(shares: seq<Share>): int -> int {
    s => ShareOf(shares, s)
  }

  lemma {:induction false} SumOfNothing(n: int)
    ensures SumTo(Shares([]), n) == 0
    decreases n
  {
    if n >= 1 {
      SumOfNothing(n - 1);
    }
  }

  lemma {:induction false} SharesAddUp(shares: seq<Share>, n: int)
    requires DistinctSelections(shares) && forall i :: 0 <= i < |shares| ==> 1 <= shares[i].selection <= n
    ensures SumTo(Shares(shares), n) == Sum(shares)
  {
    if shares == [] {
      SumOfNothing(n);
    } else {
      var k := |shares| - 1;
      SharesAddUp(shares[..k], n);
      forall s
        ensures Shares(shares)(s) == Shares(shares[..k])(s) + (if s == shares[k].selection then shares[k].count else 0)
      {
        if s == shares[k].selection {
          NoShare(shares[..k], s);
        }
      }
      SumPoint(Shares(shares), Shares(shares[..k]), shares[k].selection, shares[k].count, n);
    }
  }

  lemma {:induction false} SameSum(counts: map<int, nat>, f: int -> int, n: int)
    requires forall s :: 1 <= s <= n ==> s in counts && counts[s] == f(s)
    ensures B.SumOver(counts, 1, n) == SumTo(f, n)
    decreases n
  {
    if n >= 1 {
      SameSum(counts, f, n - 1);
    }
  }

  // ---- the plan is met -----------------------------------------------------------------------

  lemma DrawnAsPlanned(d: Distribution, draws: Draws, s: int, numChoices: int)
    requires Check(d, numChoices) && DistinctSelections(d.perOption)
    requires DistinctSelections(d.protest) && AreDrawn(d, draws)
    ensures multiset(draws.final)[s] == if 1 <= s <= numChoices then ShareOf(d.perOption, s) else ShareOf(d.protest, s)
  {
    ExpandedCounts(d.perOption, s);
    ExpandedCounts(d.protest, s);
    if 1 <= s <= numChoices {
      NoShare(d.protest, s);
    } else {
      NoShare(d.perOption, s);
    }
  }

  lemma EverybodyCastsSomething(d: Distribution, draws: Draws, numChoices: int)
    requires Check(d, numChoices) && DistinctSelections(d.perOption)
    requires DistinctSelections(d.protest) && AreDrawn(d, draws)
    ensures forall v :: v in draws.events <==> v in Casting(d, draws)
    ensures |draws.events| == CastingCount(d) + d.revotes
  {
    CastingIsRight(d, draws);
    SameMultisetSameSize(draws.events, Casting(d, draws) + draws.sample);
  }

  /** The published figures are the plan. */
  ghost predicate MeetsPlan(f: B.Figures, d: Distribution, numChoices: int) {
    && (forall s :: 1 <= s <= numChoices ==> s in f.counts && f.counts[s] == ShareOf(d.perOption, s))
    && (forall s {:trigger s in f.protestCodes} ::
          (s in f.protestCodes <==> !(1 <= s <= numChoices) && ShareOf(d.protest, s) > 0)
          && (s in f.protestCodes ==> f.protestCodes[s] == ShareOf(d.protest, s)))
    && f.valid == Sum(d.perOption) && f.invalid == Sum(d.protest)
    && f.voters == CastingCount(d) && f.rejected == 0
  }

  lemma ProtestedBySomebody(n: int, latest: map<Bytes, Ballot>, s: int)
    ensures s in B.ProtestSelections(n, latest) <==> !(1 <= s <= n) && |B.Choosing(latest, s)| > 0
  {
    if k :| k in B.Choosing(latest, s) {
      assert latest[k].selection == s;
    }
    if s in B.ProtestSelections(n, latest) {
      var k :| k in latest && latest[k].selection == s;
      assert k in B.Choosing(latest, s);
    }
  }

  lemma SelectionAsPlanned(d: Distribution, draws: Draws, key: string -> Bytes, ballots: seq<Ballot>, n: int, s: int)
    requires Check(d, n) && DistinctSelections(d.perOption) && DistinctSelections(d.protest)
    requires AreDrawn(d, draws) && AreCast(draws, Casting(d, draws), key, ballots)
    requires DifferentKeys(Casting(d, draws), key)
    ensures |B.Choosing(B.Effective(ballots), s)|
         == if 1 <= s <= n then ShareOf(d.perOption, s) else ShareOf(d.protest, s)
  {
    CastingIsRight(d, draws);
    EverybodyCastsSomething(d, draws, n);
    CountedAsDrawn(draws, Casting(d, draws), key, ballots, s);
    DrawnAsPlanned(d, draws, s, n);
  }

  lemma VotersAsPlanned(d: Distribution, draws: Draws, key: string -> Bytes, ballots: seq<Ballot>, n: int)
    requires Check(d, n) && DistinctSelections(d.perOption) && DistinctSelections(d.protest)
    requires AreDrawn(d, draws) && AreCast(draws, Casting(d, draws), key, ballots)
    requires DifferentKeys(Casting(d, draws), key)
    ensures |B.Effective(ballots)| == CastingCount(d) && |ballots| == CastingCount(d) + d.revotes
  {
    CastingIsRight(d, draws);
    EverybodyCastsSomething(d, draws, n);
    VotersAreCasting(draws, Casting(d, draws), key, ballots);
  }

  ghost predicate ChosenAsPlanned(latest: map<Bytes, Ballot>, d: Distribution, n: int) {
    forall s {:trigger B.Choosing(latest, s)} ::
      |B.Choosing(latest, s)| == if 1 <= s <= n then ShareOf(d.perOption, s) else ShareOf(d.protest, s)
  }

  lemma CountsMeetPlan(d: Distribution, n: int, latest: map<Bytes, Ballot>)
    requires Check(d, n) && DistinctSelections(d.perOption) && ChosenAsPlanned(latest, d, n)
    ensures forall s :: 1 <= s <= n ==> B.OptionCounts(n, latest)[s] == ShareOf(d.perOption, s)
    ensures B.SumOver(B.OptionCounts(n, latest), 1, n) == Sum(d.perOption)
  {
    SharesAddUp(d.perOption, n);
    SameSum(B.OptionCounts(n, latest), Shares(d.perOption), n);
  }

  lemma ProtestMeetsPlan(d: Distribution, n: int, latest: map<Bytes, Ballot>, s: int)
    requires ChosenAsPlanned(latest, d, n)
    ensures s in B.ProtestCodes(n, latest) <==> !(1 <= s <= n) && ShareOf(d.protest, s) > 0
    ensures s in B.ProtestCodes(n, latest) ==> B.ProtestCodes(n, latest)[s] == ShareOf(d.protest, s)
  {
    ProtestedBySomebody(n, latest, s);
    assert |B.Choosing(latest, s)| == if 1 <= s <= n then ShareOf(d.perOption, s) else ShareOf(d.protest, s);
  }

  lemma FiguresMeetPlan(p: B.Poll, d: Distribution, r: B.Registry)
    requires Check(d, p.numChoices) && DistinctSelections(d.perOption) && r.rejected == []
    requires |B.Effective(r.accepted)| == CastingCount(d) && ChosenAsPlanned(B.Effective(r.accepted), d, p.numChoices)
    ensures MeetsPlan(B.FiguresOf(p.numChoices, p.link, r), d, p.numChoices)
  {
    var latest := B.Effective(r.accepted);
    B.CountPartitions(p, r);
    CountsMeetPlan(d, p.numChoices, latest);
    forall s
      ensures s in B.ProtestCodes(p.numChoices, latest) <==> !(1 <= s <= p.numChoices) && ShareOf(d.protest, s) > 0
      ensures s in B.ProtestCodes(p.numChoices, latest) ==>
                B.ProtestCodes(p.numChoices, latest)[s] == ShareOf(d.protest, s)
    {
      ProtestMeetsPlan(d, p.numChoices, latest, s);
    }
  }

  /** Whatever the order of issuing, whoever abstains, whoever casts twice, and in whatever order the
      submissions fall: everything is accepted and the final count is exactly what was asked for. */
  lemma PlanIsMet(p: B.Poll, d: Distribution, draws: Draws, key: string -> Bytes, ballots: seq<Ballot>)
    requires Check(d, p.numChoices) && DistinctSelections(d.perOption) && DistinctSelections(d.protest)
    requires AreDrawn(d, draws) && AreCast(draws, Casting(d, draws), key, ballots)
    requires DifferentKeys(Casting(d, draws), key) && AreGenuine(p, ballots)
    ensures B.AdmitAll(p, B.Registry([], []), ballots) == B.Registry(ballots, [])
    ensures |ballots| == CastingCount(d) + d.revotes
    ensures MeetsPlan(B.FiguresOf(p.numChoices, p.link, B.Registry(ballots, [])), d, p.numChoices)
  {
    AllAccepted(p, ballots, |ballots|);
    assert ballots[..|ballots|] == ballots;
    VotersAsPlanned(d, draws, key, ballots, p.numChoices);
    forall s ensures |B.Choosing(B.Effective(ballots), s)|
        == if 1 <= s <= p.numChoices then ShareOf(d.perOption, s) else ShareOf(d.protest, s) {
      SelectionAsPlanned(d, draws, key, ballots, p.numChoices, s);
    }
    FiguresMeetPlan(p, d, B.Registry(ballots, []));
  }
}
