/** What passing the recount pins down. A file that passes holds the box's ballots up to some moment
    at which its head was published, and not always to the last: the closing count tells. */
module Pinnings {
  import opened Base64
  import opened Canonical
  import opened HashChains
  import opened Ledgers
  import opened Statements
  import opened Verifiers
  import opened Recounts
  import B = BoxModel
  import O = OfficeModel
  import E = Elections

  // ---- two chains that reach one head --------------------------------------------------------

  function InputFrom(link: Link<Object>, genesis: Bytes, records: seq<Object>, i: nat): string
    requires i < |records|
  {
    HashInput(i, CanonicalBytes(records[i]), HeadFrom(link, genesis, records, i))
  }

  /** The hash tells the rows of the file from the entries of the box and reaches genesis from
      neither. */
  ghost predicate NoCollisionFrom(c: Config, p: B.Poll, genesis: Bytes, records: seq<Object>, accepted: seq<Ballot>) {
    && (forall i, j :: 0 <= i < |records| && 0 <= j < |accepted|
          && c.h(InputFrom(c.link, genesis, records, i)) == c.h(InputAt(p.link, p.text, accepted, j))
          ==> InputFrom(c.link, genesis, records, i) == InputAt(p.link, p.text, accepted, j))
    && (forall i :: 0 <= i < |records| ==> c.h(InputFrom(c.link, genesis, records, i)) != GENESIS)
    && AvoidsGenesis(c.h, p.link, p.text, accepted)
  }

  lemma HeadFromIsHash(c: Config, genesis: Bytes, records: seq<Object>, k: nat)
    requires LinksByHash(c) && 0 < k <= |records|
    ensures HeadFrom(c.link, genesis, records, k) == c.h(InputFrom(c.link, genesis, records, k - 1))
  {
    assert c.link(k - 1, records[k - 1], HeadFrom(c.link, genesis, records, k - 1))
        == c.h(HashInput(k - 1, CanonicalBytes(records[k - 1]), HeadFrom(c.link, genesis, records, k - 1)));
  }

  lemma HeadFromLength(c: Config, genesis: Bytes, records: seq<Object>, k: nat)
    requires LinksByHash(c) && IsSha256(c.h) && |genesis| == 32 && k <= |records|
    ensures |HeadFrom(c.link, genesis, records, k)| == 32
  {
    if k > 0 {
      HeadFromIsHash(c, genesis, records, k);
    }
  }

  lemma NotFromNothing(c: Config, p: B.Poll, genesis: Bytes, records: seq<Object>, accepted: seq<Ballot>, m: nat)
    requires LinksByHash(c) && 0 < m <= |records| && NoCollisionFrom(c, p, genesis, records, accepted)
    ensures HeadFrom(c.link, genesis, records, m) != GENESIS
  {
    HeadFromIsHash(c, genesis, records, m);
  }

  lemma LastRowMeets(c: Config, p: B.Poll, genesis: Bytes, records: seq<Object>, accepted: seq<Ballot>, m: nat, n: nat)
    requires LinksByHash(c) && Computes(p.link, c.h, p.text) && IsSha256(c.h) && |genesis| == 32
    requires 0 < m <= |records| <= INDEX_LIMIT && 0 < n <= |accepted| <= INDEX_LIMIT
    requires NoCollisionFrom(c, p, genesis, records, accepted)
    requires HeadFrom(c.link, genesis, records, m) == HeadAt(p.link, accepted, n)
    ensures m == n && CanonicalBytes(records[m - 1]) == p.text(accepted[n - 1])
    ensures HeadFrom(c.link, genesis, records, m - 1) == HeadAt(p.link, accepted, n - 1)
  {
    HeadFromIsHash(c, genesis, records, m);
    HeadIsHash(c.h, p.link, p.text, accepted, n);
    HeadFromLength(c, genesis, records, m - 1);
    HeadLength(c.h, p.link, p.text, accepted, n - 1);
    HashInputInjective(m - 1, CanonicalBytes(records[m - 1]), HeadFrom(c.link, genesis, records, m - 1),
                       n - 1, p.text(accepted[n - 1]), HeadAt(p.link, accepted, n - 1));
  }

  ghost predicate AgreeUpTo(p: B.Poll, records: seq<Object>, accepted: seq<Ballot>, m: nat)
    requires m <= |records| && m <= |accepted|
  {
    forall i :: 0 <= i < m ==> CanonicalBytes(records[i]) == p.text(accepted[i])
  }

  lemma OneMoreAgrees(p: B.Poll, records: seq<Object>, accepted: seq<Ballot>, m: nat)
    requires m < |records| && m < |accepted| && AgreeUpTo(p, records, accepted, m)
    requires CanonicalBytes(records[m]) == p.text(accepted[m])
    ensures AgreeUpTo(p, records, accepted, m + 1)
  {
  }

  /** Two chains that reach one head, one of them from anywhere: the other is the same chain, or the
      one has no entries at all. */
  lemma {:induction false} ChainsMeet(c: Config, p: B.Poll, genesis: Bytes, records: seq<Object>, accepted: seq<Ballot>,
                                      m: nat, n: nat)
    requires LinksByHash(c) && Computes(p.link, c.h, p.text) && IsSha256(c.h) && |genesis| == 32
    requires m <= |records| <= INDEX_LIMIT && n <= |accepted| <= INDEX_LIMIT
    requires NoCollisionFrom(c, p, genesis, records, accepted)
    requires HeadFrom(c.link, genesis, records, m) == HeadAt(p.link, accepted, n)
    ensures m > 0 ==> m == n && genesis == GENESIS
    ensures m > 0 ==> AgreeUpTo(p, records, accepted, m)
    decreases m
  {
    if m > 0 {
      NotFromNothing(c, p, genesis, records, accepted, m);
      LastRowMeets(c, p, genesis, records, accepted, m, n);
      ChainsMeet(c, p, genesis, records, accepted, m - 1, n - 1);
      OneMoreAgrees(p, records, accepted, m - 1);
    }
  }

  /** What a head signed by the box says about a file that reaches it. The genesis value is read
      from the file, so there are two cases: the box's records over the true genesis value, or no
      records at all over a genesis value that is already the head. */
  lemma SignedHeadPins(c: Config, p: B.Poll, a: O.Authority, genesis: Bytes, rows: seq<Verifiers.Row>,
                       accepted: seq<Ballot>)
    requires Describes(c, p, a) && IsSha256(c.h) && |genesis| == 32
    requires |rows| <= INDEX_LIMIT && |accepted| <= INDEX_LIMIT
    requires NoCollisionFrom(c, p, genesis, Records(rows), accepted)
    ensures HeadFrom(c.link, genesis, Records(rows), |rows|) == Head(p.link, accepted)
       <==> (genesis == GENESIS && SameTextsAs(rows, accepted)) || (rows == [] && genesis == Head(p.link, accepted))
  {
    if HeadFrom(c.link, genesis, Records(rows), |rows|) == Head(p.link, accepted) && rows != [] {
      ChainsMeet(c, p, genesis, Records(rows), accepted, |rows|, |accepted|);
    }
    if genesis == GENESIS && SameTextsAs(rows, accepted) {
      ChainAgrees(c, p, rows, accepted, |rows|);
    }
  }

  lemma SameTextSameRead(o: Object, b: Ballot)
    requires DistinctKeys(o) && CanonicalBytes(o) == RecordText(b)
    ensures Read(o) == Some(FactsOf(b))
  {
    BallotKeysDistinct(b);
    CanonicalExact(o, ToDict(b));
    forall key: string ensures Lookup(o, key) == Lookup(ToDict(b), key) {
      LookupFromMap(o, key);
      LookupFromMap(ToDict(b), key);
    }
    SameLookupsSameRead(o, ToDict(b));
    ReadOfBallot(b);
  }

  lemma SameLookupsSameRead(o: Object, q: Object)
    requires forall key: string {:trigger Lookup(o, key)} :: Lookup(o, key) == Lookup(q, key)
    ensures Read(o) == Read(q)
  {
    assert TextField(o, "adhoc_public_key") == TextField(q, "adhoc_public_key");
    assert TextField(o, "nonce") == TextField(q, "nonce");
    assert BytesField(o, "token") == BytesField(q, "token");
    assert BytesField(o, "vote_signature") == BytesField(q, "vote_signature");
    assert Lookup(o, "selection") == Lookup(q, "selection");
  }

  /** There is a file exactly once the box is closed. */
  lemma FileFromTheClose(c: Config, p: B.Poll, s: B.Box)
    ensures LedgerDump(c, p, s).Some? <==> s.closed
  {
  }

  // ---- a passing file holds a beginning of the registry --------------------------------------

  type Run = seq<(B.Operation, real)>

  function AcceptedAfter(p: B.Poll, start: B.Box, run: Run): seq<Ballot> {
    B.OperateAll(p, start, run).registry.accepted
  }

  /** Nobody signs for the box: if this signature verifies over this head, it verifies over something
      the box signed in the run. */
  ghost predicate Unforged(c: Config, p: B.Poll, start: B.Box, run: Run, head: Bytes, signature: Bytes) {
    BoxSigned(c, head, signature) ==>
      exists st :: B.SignedInRun(p, start, run, st)
                   && Payload(c.h, st) == Payload(c.h, B.HeadStatement(p, "accepted", head))
  }

  /** The hash tells the statement of this head from everything else the box signed in the run. */
  ghost predicate HeadStandsOut(c: Config, p: B.Poll, start: B.Box, run: Run, head: Bytes) {
    forall st {:trigger B.SignedInRun(p, start, run, st)} ::
      B.SignedInRun(p, start, run, st)
      && Payload(c.h, st) == Payload(c.h, B.HeadStatement(p, "accepted", head))
      ==> StatementText(st) == StatementText(B.HeadStatement(p, "accepted", head))
  }

  /** What is supposed of a file, beside the checks the verifier makes: no record repeats a key, as
      no parsed object does, its head signature is not a forgery, and the hash does not collide on
      what this file and this run have it hash. */
  ghost predicate Supposed(c: Config, p: B.Poll, start: B.Box, run: Run, ledger: LedgerFile) {
    && IsSha256(c.h) && |ledger.genesis| == 32
    && |ledger.accepted| <= INDEX_LIMIT && |AcceptedAfter(p, start, run)| <= INDEX_LIMIT
    && (forall i :: 0 <= i < |ledger.accepted| ==> DistinctKeys(ledger.accepted[i].record))
    && Unforged(c, p, start, run, ledger.head, ledger.headSignature)
    && HeadStandsOut(c, p, start, run, ledger.head)
    && NoCollisionFrom(c, p, ledger.genesis, Records(ledger.accepted), AcceptedAfter(p, start, run))
  }

  lemma PassingWalk(c: Config, ledger: LedgerFile, releases: ReleasesFile)
    requires Readable(ledger.accepted) && VerdictsOf(c, ledger, releases).AllHold()
    ensures HeadFrom(c.link, ledger.genesis, Records(ledger.accepted), |ledger.accepted|) == ledger.head
    ensures BoxSigned(c, ledger.head, ledger.headSignature)
  {
    WalkIsChain(c.link, ledger.genesis, ledger.accepted, |ledger.accepted|);
  }

  /** A head that verifies is one the box was seen holding. */
  lemma SignedHeadWasSeen(c: Config, p: B.Poll, start: B.Box, run: Run, head: Bytes, signature: Bytes) returns (k: nat)
    requires Unforged(c, p, start, run, head, signature) && HeadStandsOut(c, p, start, run, head)
    requires BoxSigned(c, head, signature)
    ensures k <= |AcceptedAfter(p, start, run)| && B.SeenHolding(p, start, run, k)
    ensures head == HeadAt(p.link, AcceptedAfter(p, start, run), k)
  {
    var st :| B.SignedInRun(p, start, run, st)
              && Payload(c.h, st) == Payload(c.h, B.HeadStatement(p, "accepted", head));
    StatementsSeparated(st, B.HeadStatement(p, "accepted", head));
    k := B.SignedWasSeen(p, start, run, head);
  }

  /** What somebody was shown is no forgery. */
  lemma SeenIsUnforged(c: Config, p: B.Poll, start: B.Box, run: Run, k: nat, signature: Bytes)
    requires B.SeenHolding(p, start, run, k)
    ensures k <= |AcceptedAfter(p, start, run)|
    ensures Unforged(c, p, start, run, HeadAt(p.link, AcceptedAfter(p, start, run), k), signature)
  {
    B.SeenIsSigned(p, start, run, k);
  }

  /** The file has records, or it names the true genesis value. */
  predicate Grounded(ledger: LedgerFile) {
    ledger.accepted != [] || ledger.genesis == GENESIS
  }

  lemma FileMeetsRegistry(c: Config, p: B.Poll, a: O.Authority, ledger: LedgerFile, accepted: seq<Ballot>, k: nat)
    requires Describes(c, p, a) && IsSha256(c.h) && |ledger.genesis| == 32
    requires |ledger.accepted| <= INDEX_LIMIT && k <= |accepted| <= INDEX_LIMIT
    requires NoCollisionFrom(c, p, ledger.genesis, Records(ledger.accepted), accepted)
    requires HeadFrom(c.link, ledger.genesis, Records(ledger.accepted), |ledger.accepted|)
          == HeadAt(p.link, accepted, k)
    requires Grounded(ledger)
    ensures ledger.genesis == GENESIS && |ledger.accepted| == k
    ensures SameTextsAs(ledger.accepted, accepted[..k])
  {
    var rows := ledger.accepted;
    ChainsMeet(c, p, ledger.genesis, Records(rows), accepted, |rows|, k);
    if rows == [] && k > 0 {
      HeadIsHash(c.h, p.link, p.text, accepted, k);
    }
  }

  /** Cutting rows off cannot be seen, but it can be told: a file that passes every check, and has
      records or the true genesis value, holds the first accepted ballots of the box, as many as the
      box held when somebody looked, and its tally is the box's at that moment. */
  lemma PassingFileIsABeginning(c: Config, p: B.Poll, a: O.Authority, start: B.Box, run: Run, ledger: LedgerFile,
                                releases: ReleasesFile)
    requires Describes(c, p, a) && Supposed(c, p, start, run, ledger)
    requires Readable(ledger.accepted) && VerdictsOf(c, ledger, releases).AllHold()
    requires Grounded(ledger)
    ensures var k, accepted := |ledger.accepted|, AcceptedAfter(p, start, run);
            && k <= |accepted| && SameTextsAs(ledger.accepted, accepted[..k]) && ledger.genesis == GENESIS
            && B.SeenHolding(p, start, run, k) && ledger.head == HeadAt(p.link, accepted, k)
            && (var held := B.Registry(accepted[..k], []);
                var tally, figures := TallyOf(c, ledger), B.FiguresOf(p.numChoices, p.link, held);
                && tally.options == figures.counts && tally.outside == figures.protestCodes
                && tally.voters == figures.voters)
  {
    var accepted := AcceptedAfter(p, start, run);
    PassingWalk(c, ledger, releases);
    var k := SignedHeadWasSeen(c, p, start, run, ledger.head, ledger.headSignature);
    FileMeetsRegistry(c, p, a, ledger, accepted, k);
    RowsRepresent(c, p, ledger, accepted[..k]);
  }

  lemma RowsRepresent(c: Config, p: B.Poll, ledger: LedgerFile, accepted: seq<Ballot>)
    requires c.numChoices == p.numChoices && SameTextsAs(ledger.accepted, accepted)
    requires forall i :: 0 <= i < |ledger.accepted| ==> DistinctKeys(ledger.accepted[i].record)
    ensures Readable(ledger.accepted)
    ensures var tally, figures := TallyOf(c, ledger), B.FiguresOf(p.numChoices, p.link, B.Registry(accepted, []));
            && tally.options == figures.counts && tally.outside == figures.protestCodes
            && tally.voters == figures.voters
  {
    var rows := ledger.accepted;
    forall i | 0 <= i < |rows| ensures Read(rows[i].record) == Some(FactsOf(accepted[i])) {
      SameTextSameRead(rows[i].record, accepted[i]);
    }
    TallyAgrees(c, p, ledger, B.Registry(accepted, []));
  }

  lemma CompleteFile(c: Config, p: B.Poll, a: O.Authority, ledger: LedgerFile, accepted: seq<Ballot>, k: nat)
    requires Describes(c, p, a) && IsSha256(c.h) && |ledger.genesis| == 32
    requires |ledger.accepted| <= INDEX_LIMIT && k <= |accepted| <= INDEX_LIMIT
    requires NoCollisionFrom(c, p, ledger.genesis, Records(ledger.accepted), accepted)
    requires ledger.head == HeadAt(p.link, accepted, k)
    requires HeadFrom(c.link, ledger.genesis, Records(ledger.accepted), |ledger.accepted|) == ledger.head
    ensures SameTextsAs(ledger.accepted, accepted) <==> |ledger.accepted| == |accepted|
    ensures SameTextsAs(ledger.accepted, accepted) <==> ledger.head == Head(p.link, accepted) && Grounded(ledger)
  {
    assert accepted[..|accepted|] == accepted;
    if Grounded(ledger) {
      FileMeetsRegistry(c, p, a, ledger, accepted, k);
      if ledger.head == Head(p.link, accepted) {
        FileMeetsRegistry(c, p, a, ledger, accepted, |accepted|);
      }
    }
  }

  /** When a file that passes every check holds all the ballots the box accepted: exactly when it has
      as many rows as the box's published closing count, and exactly when its head is the closing
      head and it has records or names the true genesis value. */
  lemma PassingFileIsComplete(c: Config, p: B.Poll, a: O.Authority, start: B.Box, run: Run, ledger: LedgerFile,
                              releases: ReleasesFile)
    requires Describes(c, p, a) && Supposed(c, p, start, run, ledger)
    requires Readable(ledger.accepted) && VerdictsOf(c, ledger, releases).AllHold()
    ensures var view := B.ViewOf(p, B.OperateAll(p, start, run));
            && (SameTextsAs(ledger.accepted, AcceptedAfter(p, start, run)) <==> |ledger.accepted| == view.accepted)
            && (SameTextsAs(ledger.accepted, AcceptedAfter(p, start, run))
                <==> ledger.head == view.heads.accepted && Grounded(ledger))
  {
    PassingWalk(c, ledger, releases);
    var k := SignedHeadWasSeen(c, p, start, run, ledger.head, ledger.headSignature);
    CompleteFile(c, p, a, ledger, AcceptedAfter(p, start, run), k);
  }

  // ---- what passes and should not ---------------------------------------------------------------

  /** The file of a closed box, cut back to what an earlier view of the box showed and signed. */
  function CutBack(ledger: LedgerFile, view: B.View): LedgerFile {
    var k := |view.acceptedCommitments|;
    ledger.(accepted := if k <= |ledger.accepted| then ledger.accepted[..k] else ledger.accepted,
            head := view.heads.accepted, headSignature := view.acceptedSignature)
  }

  lemma FewerKeys(accepted: seq<Ballot>, k: nat)
    requires k <= |accepted|
    ensures |B.Effective(accepted[..k])| <= |B.Effective(accepted)|
  {
    B.EffectiveKeys(accepted);
    B.EffectiveKeys(accepted[..k]);
    E.SubsetIsSmaller(B.Effective(accepted[..k]).Keys, B.Effective(accepted).Keys);
  }

  lemma CutRows(p: B.Poll, rows: seq<Verifiers.Row>, accepted: seq<Ballot>, k: nat)
    requires HonestRows(p, rows, accepted) && k <= |rows|
    ensures HonestRows(p, rows[..k], accepted[..k])
  {
    forall j: nat | j <= k ensures HeadAt(p.link, accepted[..k], j) == HeadAt(p.link, accepted, j) {
      HeadOfPrefix(p.link, accepted[..k], accepted, j);
    }
  }

  lemma CutFile(c: Config, p: B.Poll, a: O.Authority, ledger: LedgerFile, accepted: seq<Ballot>, seen: B.Box)
    requires Describes(c, p, a) && HonestRows(p, ledger.accepted, accepted) && Headed(c, p, ledger, accepted)
    requires seen.registry.accepted <= accepted
    ensures var cut := CutBack(ledger, B.ViewOf(p, seen));
            HonestRows(p, cut.accepted, seen.registry.accepted) && Headed(c, p, cut, seen.registry.accepted)
  {
    var held := seen.registry.accepted;
    assert accepted[..|held|] == held;
    CutRows(p, ledger.accepted, accepted, |held|);
    Signs(c, p, a, B.HeadStatement(p, "accepted", Head(p.link, held)));
  }

  lemma GenuineBeginning(p: B.Poll, accepted: seq<Ballot>, held: seq<Ballot>)
    requires held <= accepted && B.AllGenuine(p, accepted) && B.AllDifferent(p, accepted)
    ensures B.AllGenuine(p, held) && B.AllDifferent(p, held)
    ensures |B.Effective(held)| <= |B.Effective(accepted)|
  {
    assert accepted[..|held|] == held;
    FewerKeys(accepted, |held|);
  }

  /** The tail of the registry can be cut off: whatever happens after a view of the box, the file of
      the closed box, cut back to that view, passes every check with the figures of that moment. */
  lemma TruncatedFilePasses(c: Config, p: B.Poll, a: O.Authority, seen: B.Box, later: Run, s: B.Box, o: O.Office)
    requires Describes(c, p, a) && s == B.OperateAll(p, seen, later) && s.closed
    requires B.AllGenuine(p, s.registry.accepted) && B.AllDifferent(p, s.registry.accepted)
    requires |B.Effective(s.registry.accepted)| <= |o.log|
    ensures LedgerDump(c, p, s).Some?
    ensures var cut := CutBack(LedgerDump(c, p, s).value, B.ViewOf(p, seen));
            && |cut.accepted| == |seen.registry.accepted| <= |s.registry.accepted| && cut.genesis == GENESIS
            && Readable(cut.accepted) && VerdictsOf(c, cut, ReleasesDump(c, a, o)).AllHold()
            && (var tally, figures := TallyOf(c, cut), B.FiguresOf(p.numChoices, p.link, seen.registry);
                && tally.options == figures.counts && tally.outside == figures.protestCodes
                && tally.voters == figures.voters && tally.ballots == |seen.registry.accepted|)
  {
    B.RegistryGrowsOverRuns(p, seen, later);
    DumpedFile(c, p, a, s);
    CutFile(c, p, a, LedgerDump(c, p, s).value, s.registry.accepted, seen);
    GenuineBeginning(p, s.registry.accepted, seen.registry.accepted);
    HonestFilePasses(c, p, a, CutBack(LedgerDump(c, p, s).value, B.ViewOf(p, seen)), o, seen.registry.accepted);
  }

  lemma LastOperation(p: B.Poll, s: B.Box, run: Run, last: (B.Operation, real))
    ensures B.OperateAll(p, s, run + [last]) == B.Operate(p, B.OperateAll(p, s, run), last.0, last.1)
  {
    assert (run + [last])[..|run|] == run;
  }

  lemma {:induction false} RunsJoin(p: B.Poll, start: B.Box, a: Run, b: Run)
    ensures B.OperateAll(p, start, a + b) == B.OperateAll(p, B.OperateAll(p, start, a), b)
    decreases |b|
  {
    if b == [] {
      assert a + b == a;
    } else {
      var n := |b| - 1;
      var last := b[n];
      RunsJoin(p, start, a, b[..n]);
      assert a + b == (a + b[..n]) + [last] && b == b[..n] + [last];
      LastOperation(p, start, a + b[..n], last);
      LastOperation(p, B.OperateAll(p, start, a), b[..n], last);
    }
  }

  lemma RunSplits(p: B.Poll, start: B.Box, run: Run, i: nat)
    requires i <= |run|
    ensures B.OperateAll(p, start, run) == B.OperateAll(p, B.OperateAll(p, start, run[..i]), run[i..])
  {
    assert run == run[..i] + run[i..];
    RunsJoin(p, start, run[..i], run[i..]);
  }

  lemma {:induction false} SeenAt(p: B.Poll, start: B.Box, run: Run, k: nat) returns (i: nat)
    requires B.SeenHolding(p, start, run, k)
    ensures i <= |run| && |B.OperateAll(p, start, run[..i]).registry.accepted| == k
  {
    var n := |run| - 1;
    if B.SeenHolding(p, start, run[..n], k) {
      i := SeenAt(p, start, run[..n], k);
      assert run[..n][..i] == run[..i];
    } else {
      i := n;
    }
  }

  /** So the lengths a passing file can have are exactly the numbers of ballots the box was seen
      holding: each of them is the length of one, with a head the box signed for it. */
  lemma EverySeenLengthPasses(c: Config, p: B.Poll, a: O.Authority, start: B.Box, run: Run, o: O.Office, k: nat)
    returns (cut: LedgerFile)
    requires Describes(c, p, a) && B.OperateAll(p, start, run).closed && B.SeenHolding(p, start, run, k)
    requires B.AllGenuine(p, AcceptedAfter(p, start, run)) && B.AllDifferent(p, AcceptedAfter(p, start, run))
    requires |B.Effective(AcceptedAfter(p, start, run))| <= |o.log|
    ensures |cut.accepted| == k && cut.genesis == GENESIS
    ensures Readable(cut.accepted) && VerdictsOf(c, cut, ReleasesDump(c, a, o)).AllHold()
    ensures k <= |AcceptedAfter(p, start, run)| && cut.head == HeadAt(p.link, AcceptedAfter(p, start, run), k)
    ensures B.SignedInRun(p, start, run, B.HeadStatement(p, "accepted", cut.head))
  {
    var i := SeenAt(p, start, run, k);
    var s := B.OperateAll(p, start, run);
    var seen := B.OperateAll(p, start, run[..i]);
    RunSplits(p, start, run, i);
    TruncatedFilePasses(c, p, a, seen, run[i..], s, o);
    cut := CutBack(LedgerDump(c, p, s).value, B.ViewOf(p, seen));
    B.SeenIsSigned(p, start, run, k);
    B.RegistryGrowsOverRuns(p, seen, run[i..]);
    HeadOfPrefix(p.link, seen.registry.accepted, s.registry.accepted, k);
  }

  /** And a file need not be grounded: emptied of its records, and naming the signed head as its genesis
      value, the ledger file of a closed box still passes every check. */
  lemma EmptiedFilePasses(c: Config, p: B.Poll, a: O.Authority, s: B.Box, o: O.Office)
    requires Describes(c, p, a) && s.closed
    ensures LedgerDump(c, p, s).Some?
    ensures var emptied := LedgerDump(c, p, s).value.(accepted := [], genesis := Head(p.link, s.registry.accepted));
            Readable(emptied.accepted) && VerdictsOf(c, emptied, ReleasesDump(c, a, o)).AllHold()
  {
    DumpedFile(c, p, a, s);
    ReleasesPass(c, p, a, o);
    var none: seq<string> := [];
    assert Distinct(none) == {};
  }
}
