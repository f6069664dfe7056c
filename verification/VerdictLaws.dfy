/** What the outside verifier's verdicts mean, read off the files and not off the verifier: what each
    check has established when it passes, and what a passing report says of a box that may be
    dishonest. */
module VerdictLaws {
  import opened Base64
  import opened Canonical
  import opened HashChains
  import opened Ledgers
  import opened Statements
  import opened Verifiers
  import opened Recounts
  import opened Wires

  // ---- what a record says ---------------------------------------------------------------------

  function TextOf(o: Object, key: string): string {
    match Lookup(o, key)
    case Some(Text(t)) => t
    case _ => ""
  }

  ghost predicate IsText(o: Object, key: string) {
    Lookup(o, key).Some? && Lookup(o, key).value.Text?
  }

  /** The record has the five members the verifier looks at, and the three it decodes can be decoded. */
  ghost predicate Legible(o: Object) {
    && IsText(o, "adhoc_public_key") && Decode(TextOf(o, "adhoc_public_key")).Some?
    && IsText(o, "token") && Decode(TextOf(o, "token")).Some?
    && IsText(o, "vote_signature") && Decode(TextOf(o, "vote_signature")).Some?
    && IsText(o, "nonce")
    && Lookup(o, "selection").Some? && Lookup(o, "selection").value.Integer?
  }

  lemma ReadsWhatIsThere(o: Object)
    ensures Read(o).Some? <==> Legible(o)
    ensures Legible(o) ==>
      Read(o).value == Facts(TextOf(o, "adhoc_public_key"), Decode(TextOf(o, "adhoc_public_key")).value,
                             Decode(TextOf(o, "token")).value, TextOf(o, "nonce"),
                             Decode(TextOf(o, "vote_signature")).value, Lookup(o, "selection").value.n)
  {
  }

  /** The key text under which a row is counted. */
  function KeyText(row: Verifiers.Row): string { TextOf(row.record, "adhoc_public_key") }

  // ---- what each check establishes ----------------------------------------------------------------

  /** The token the record carries is the office's signature on the key it carries. */
  ghost predicate TokenIsSigned(c: Config, o: Object)
    requires Legible(o)
  {
    c.tokenOk(Decode(TextOf(o, "adhoc_public_key")).value, Decode(TextOf(o, "token")).value)
  }

  /** The selection is signed, with the key's own text and the nonce's, under the key it carries. */
  ghost predicate SelectionIsSigned(c: Config, o: Object)
    requires Legible(o)
  {
    c.verify(Decode(TextOf(o, "adhoc_public_key")).value, Decode(TextOf(o, "vote_signature")).value,
             c.h(Written([("adhoc_public_key", Quote(TextOf(o, "adhoc_public_key"))),
                          ("nonce", Quote(TextOf(o, "nonce"))),
                          ("selection", Decimal(Lookup(o, "selection").value.n))])))
  }

  /** The box's signature over this head. */
  ghost predicate HeadIsSigned(c: Config, head: Bytes, signature: Bytes) {
    c.verify(c.boxKey, signature,
             c.h(Written([("election_id", Quote(c.electionId)), ("head", Quoted(Encode(head))),
                          ("ledger", Quote("accepted")), ("statement", Quoted(REGISTRY_HEAD))])))
  }

  /** The office's over the head of its register. */
  ghost predicate RegisterIsSigned(c: Config, head: Bytes, signature: Bytes) {
    c.verify(c.officeKey, signature,
             c.h(Written([("election_id", Quote(c.electionId)), ("head", Quoted(Encode(head))),
                          ("statement", Quoted(RELEASE_REGISTER_HEAD))])))
  }

  /** The office's over how many tokens it released. */
  ghost predicate CountIsSigned(c: Config, count: int, signature: Bytes) {
    c.verify(c.officeKey, signature,
             c.h(Written([("count", Decimal(count)), ("election_id", Quote(c.electionId)),
                          ("statement", Quoted(TOKENS_RELEASED))])))
  }

  lemma SignaturesMean(c: Config, head: Bytes, count: int, signature: Bytes)
    ensures BoxSigned(c, head, signature) <==> HeadIsSigned(c, head, signature)
    ensures OfficeSigned(c, ReleaseHead(c.electionId, head), signature) <==> RegisterIsSigned(c, head, signature)
    ensures OfficeSigned(c, ReleaseCount(c.electionId, count), signature) <==> CountIsSigned(c, count, signature)
  {
    RegistryHeadIsWritten(c.electionId, "accepted", head);
    ReleaseHeadIsWritten(c.electionId, head);
    ReleaseCountIsWritten(c.electionId, count);
  }

  lemma VoteIsOver(key: string, nonce: string, selection: int)
    ensures CanonicalBytes([Member("adhoc_public_key", Text(key)), Member("nonce", Text(nonce)),
                            Member("selection", Integer(selection))])
         == Written([("adhoc_public_key", Quote(key)), ("nonce", Quote(nonce)), ("selection", Decimal(selection))])
  {
    var k, n, s := Member("adhoc_public_key", Text(key)), Member("nonce", Text(nonce)),
                   Member("selection", Integer(selection));
    RecordKeys();
    WrittenThree([k, n, s], k, n, s);
  }

  lemma RecordMeans(c: Config, o: Object)
    requires Legible(o)
    ensures TokenHolds(c, o) <==> TokenIsSigned(c, o)
    ensures VoteHolds(c, o) <==> SelectionIsSigned(c, o)
  {
    ReadsWhatIsThere(o);
    VoteIsOver(TextOf(o, "adhoc_public_key"), TextOf(o, "nonce"), Lookup(o, "selection").value.n);
  }

  ghost predicate AllLegible(rows: seq<Verifiers.Row>) {
    forall i :: 0 <= i < |rows| ==> Legible(rows[i].record)
  }

  lemma {:induction false} ReadableIsLegible(rows: seq<Verifiers.Row>)
    ensures Readable(rows) <==> AllLegible(rows)
  {
    forall i | 0 <= i < |rows| ensures Read(rows[i].record).Some? <==> Legible(rows[i].record) {
      ReadsWhatIsThere(rows[i].record);
    }
  }

  ghost predicate AllTokensSigned(c: Config, rows: seq<Verifiers.Row>)
    requires AllLegible(rows)
  {
    forall i :: 0 <= i < |rows| ==> TokenIsSigned(c, rows[i].record)
  }

  ghost predicate AllSelectionsSigned(c: Config, rows: seq<Verifiers.Row>)
    requires AllLegible(rows)
  {
    forall i :: 0 <= i < |rows| ==> SelectionIsSigned(c, rows[i].record)
  }

  lemma {:induction false} AllRecordsMean(c: Config, rows: seq<Verifiers.Row>)
    requires AllLegible(rows)
    ensures AllRecords(rows, o => TokenHolds(c, o)) <==> AllTokensSigned(c, rows)
    ensures AllRecords(rows, o => VoteHolds(c, o)) <==> AllSelectionsSigned(c, rows)
  {
    forall i | 0 <= i < |rows|
      ensures TokenHolds(c, rows[i].record) <==> TokenIsSigned(c, rows[i].record)
      ensures VoteHolds(c, rows[i].record) <==> SelectionIsSigned(c, rows[i].record)
    {
      RecordMeans(c, rows[i].record);
    }
  }

  /** Tokens and votes: one failing record fails the check. */
  lemma {:induction false} RecordChecksMean(c: Config, ledger: LedgerFile, releases: ReleasesFile)
    requires AllLegible(ledger.accepted)
    ensures Readable(ledger.accepted)
    ensures VerdictsOf(c, ledger, releases).tokens <==> AllTokensSigned(c, ledger.accepted)
    ensures VerdictsOf(c, ledger, releases).votes <==> AllSelectionsSigned(c, ledger.accepted)
  {
    ReadableIsLegible(ledger.accepted);
    AllRecordsMean(c, ledger.accepted);
  }

  lemma {:induction false} FewerThanTexts(texts: seq<string>)
    ensures |Distinct(texts)| <= |texts|
    ensures |Distinct(texts)| == |texts| ==> forall i, j :: 0 <= i < j < |texts| ==> texts[i] != texts[j]
  {
    if texts == [] {
      assert Distinct(texts) == {};
    } else {
      var n := |texts| - 1;
      FewerThanTexts(texts[..n]);
      assert texts == texts[..n] + [texts[n]];
      assert Distinct(texts) == Distinct(texts[..n]) + {texts[n]};
      forall i | 0 <= i < n ensures texts[..n][i] == texts[i] && texts[i] in Distinct(texts[..n]) {
        assert texts[..n][i] in texts[..n];
      }
    }
  }

  ghost predicate AllApart(texts: seq<string>) {
    forall i, j :: 0 <= i < j < |texts| ==> texts[i] != texts[j]
  }

  lemma AsManyMeansApart(texts: seq<string>)
    ensures |Distinct(texts)| == |texts| <==> AllApart(texts)
  {
    FewerThanTexts(texts);
    if AllApart(texts) {
      AllDiffer(texts);
    }
  }

  /** No two records are the same bytes. */
  ghost predicate RecordsApart(rows: seq<Verifiers.Row>) {
    forall i, j :: 0 <= i < j < |rows| ==> CanonicalBytes(rows[i].record) != CanonicalBytes(rows[j].record)
  }

  lemma {:induction false} TextsApart(rows: seq<Verifiers.Row>)
    ensures AllApart(TextsOf(rows)) <==> RecordsApart(rows)
  {
    var texts := TextsOf(rows);
    if AllApart(texts) {
      forall i, j | 0 <= i < j < |rows| ensures CanonicalBytes(rows[i].record) != CanonicalBytes(rows[j].record) {
        assert texts[i] != texts[j];
      }
    }
  }

  lemma {:induction false} DistinctMeans(c: Config, ledger: LedgerFile, releases: ReleasesFile)
    requires Readable(ledger.accepted)
    ensures VerdictsOf(c, ledger, releases).distinct <==> RecordsApart(ledger.accepted)
  {
    AsManyMeansApart(TextsOf(ledger.accepted));
    TextsApart(ledger.accepted);
  }

  /** The chain as it is recomputed from the records: the hash of index, the hash before, and the
      record's bytes. */
  function Recomputed(c: Config, genesis: Bytes, rows: seq<Verifiers.Row>, k: nat): Bytes
    requires k <= |rows|
  {
    if k == 0 then genesis
    else c.h(HashInput(k - 1, CanonicalBytes(rows[k - 1].record), Recomputed(c, genesis, rows, k - 1)))
  }

  lemma {:induction false} RecomputedIsHead(c: Config, genesis: Bytes, rows: seq<Verifiers.Row>, k: nat)
    requires LinksByHash(c) && k <= |rows|
    ensures Recomputed(c, genesis, rows, k) == HeadFrom(c.link, genesis, Records(rows), k)
  {
    if k > 0 {
      RecomputedIsHead(c, genesis, rows, k - 1);
      var prev := HeadFrom(c.link, genesis, Records(rows), k - 1);
      assert c.link(k - 1, rows[k - 1].record, prev) == c.h(HashInput(k - 1, CanonicalBytes(rows[k - 1].record), prev));
    }
  }

  /** The register as it is recomputed from the published commitments. */
  function Reregistered(c: Config, genesis: Bytes, commitments: seq<string>, k: nat): Bytes
    requires k <= |commitments|
  {
    if k == 0 then genesis
    else
      c.h(HashInput(k - 1, Written([("commitment", Quote(commitments[k - 1]))]),
                    Reregistered(c, genesis, commitments, k - 1)))
  }

  lemma CommitmentIsWritten(t: string)
    ensures ReleaseText(t) == Written([("commitment", Quote(t))])
  {
    var m := Member("commitment", Text(t));
    assert Plain("commitment");
    WrittenAs([m], [m], [FieldOf(m)]);
  }

  lemma RelinkIsHash(c: Config, index: nat, commitment: string, prev: Bytes)
    requires LinksByHash(c)
    ensures c.releaseLink(index, commitment, prev)
         == c.h(HashInput(index, Written([("commitment", Quote(commitment))]), prev))
  {
    CommitmentIsWritten(commitment);
    assert HashInput(index, ReleaseText(commitment), prev)
        == HashInput(index, Written([("commitment", Quote(commitment))]), prev);
  }

  lemma {:induction false} ReregisteredIsHead(c: Config, genesis: Bytes, commitments: seq<string>, k: nat)
    requires LinksByHash(c) && k <= |commitments|
    ensures Reregistered(c, genesis, commitments, k) == HeadFrom(c.releaseLink, genesis, commitments, k)
  {
    if k > 0 {
      ReregisteredIsHead(c, genesis, commitments, k - 1);
      RelinkIsHash(c, k - 1, commitments[k - 1], HeadFrom(c.releaseLink, genesis, commitments, k - 1));
    }
  }

  /** Every row stands at its index and carries the hash recomputed for it. */
  ghost predicate InPlace(c: Config, genesis: Bytes, rows: seq<Verifiers.Row>) {
    forall i :: 0 <= i < |rows| ==> rows[i].index == i && rows[i].commitment == Recomputed(c, genesis, rows, i + 1)
  }

  lemma {:induction false} WalkMeans(c: Config, genesis: Bytes, rows: seq<Verifiers.Row>)
    requires LinksByHash(c)
    ensures var walk := Walk(c.link, genesis, rows, |rows|);
            && (walk.intact <==> InPlace(c, genesis, rows))
            && (walk.intact ==> walk.head == Recomputed(c, genesis, rows, |rows|))
  {
    WalkIsChain(c.link, genesis, rows, |rows|);
    forall i: nat | i <= |rows| ensures Recomputed(c, genesis, rows, i) == HeadFrom(c.link, genesis, Records(rows), i) {
      RecomputedIsHead(c, genesis, rows, i);
    }
  }

  lemma {:induction false} ChainVerdicts(c: Config, ledger: LedgerFile, releases: ReleasesFile, walk: Verifiers.Scan)
    requires Readable(ledger.accepted) && walk == Walk(c.link, ledger.genesis, ledger.accepted, |ledger.accepted|)
    ensures var v := VerdictsOf(c, ledger, releases);
            && v.intact == walk.intact && v.head == (walk.head == ledger.head)
            && v.headSigned == BoxSigned(c, walk.head, ledger.headSignature)
  {
  }

  /** Intact: every row in place. The published head and its signature are then over the whole chain. */
  lemma {:induction false} ChainChecksMean(c: Config, ledger: LedgerFile, releases: ReleasesFile, v: Verdicts)
    requires LinksByHash(c) && Readable(ledger.accepted) && v == VerdictsOf(c, ledger, releases)
    ensures v.intact <==> InPlace(c, ledger.genesis, ledger.accepted)
    ensures var head := Recomputed(c, ledger.genesis, ledger.accepted, |ledger.accepted|);
            && (v.intact ==> (v.head <==> head == ledger.head))
            && (v.intact ==> (v.headSigned <==> HeadIsSigned(c, head, ledger.headSignature)))
  {
    var rows := ledger.accepted;
    WalkMeans(c, ledger.genesis, rows);
    ChainVerdicts(c, ledger, releases, Walk(c.link, ledger.genesis, rows, |rows|));
    SignaturesMean(c, Recomputed(c, ledger.genesis, rows, |rows|), 0, ledger.headSignature);
  }

  /** The register's three checks. */
  lemma {:induction false} RegisterChecksMean(c: Config, ledger: LedgerFile, releases: ReleasesFile)
    requires LinksByHash(c) && Readable(ledger.accepted)
    ensures var v := VerdictsOf(c, ledger, releases);
            var head := Reregistered(c, releases.genesis, releases.commitments, |releases.commitments|);
            && (v.register <==> head == releases.head)
            && (v.registerSigned <==> RegisterIsSigned(c, head, releases.headSignature))
            && (v.countSigned <==> CountIsSigned(c, releases.count, releases.countSignature))
  {
    var head := Reregistered(c, releases.genesis, releases.commitments, |releases.commitments|);
    ReregisteredIsHead(c, releases.genesis, releases.commitments, |releases.commitments|);
    SignaturesMean(c, head, releases.count, releases.headSignature);
    SignaturesMean(c, head, releases.count, releases.countSignature);
  }

  /** The files are of the format, and of this election under this configuration. */
  lemma {:induction false} NamingChecksMean(c: Config, ledger: LedgerFile, releases: ReleasesFile)
    requires Readable(ledger.accepted)
    ensures var v := VerdictsOf(c, ledger, releases);
            && (v.format <==> ledger.format == "ovpoc-ledger/1")
            && (v.election <==> ledger.electionId == c.electionId)
            && (v.configuration <==> ledger.configDigest == c.digest)
            && (v.registerConfiguration <==> releases.configDigest == c.digest)
            && (v.canonical <==> ledger.canonical)
  {
  }

  /** And passing is passing every one of them. */
  lemma PassingMeansAll(v: Verdicts)
    ensures v.AllHold()
       <==> v.format && v.election && v.configuration && v.registerConfiguration && v.canonical && v.tokens && v.votes
            && v.distinct && v.intact && v.head && v.headSigned && v.register && v.registerSigned && v.countSigned
            && v.audit
  {
  }

  // ---- supersession and the count, of any file -----------------------------------------------------

  /** No later row carries this row's key text. */
  predicate IsFinal(rows: seq<Verifiers.Row>, i: nat)
    requires i < |rows|
  {
    forall j :: i < j < |rows| ==> KeyText(rows[j]) != KeyText(rows[i])
  }

  function KeyTexts(rows: seq<Verifiers.Row>): set<string> {
    set i | 0 <= i < |rows| :: KeyText(rows[i])
  }

  /** Every key that occurs is there, with the value it last had. */
  lemma {:induction false} LatestHas<V>(keys: seq<string>, values: seq<V>, k: nat, i: nat)
    requires i < k <= |keys| == |values|
    ensures keys[i] in Latest(keys, values, k)
    ensures (forall j :: i < j < k ==> keys[j] != keys[i]) ==> Latest(keys, values, k)[keys[i]] == values[i]
  {
    if i < k - 1 {
      LatestHas(keys, values, k - 1, i);
    }
  }

  /** And nothing else. */
  lemma {:induction false} LatestOnly<V>(keys: seq<string>, values: seq<V>, k: nat, t: string) returns (i: nat)
    requires k <= |keys| == |values| && t in Latest(keys, values, k)
    ensures i < k && keys[i] == t
  {
    if t == keys[k - 1] {
      i := k - 1;
    } else {
      i := LatestOnly(keys, values, k - 1, t);
    }
  }

  function TextsOfKeys(rows: seq<Verifiers.Row>): (keys: seq<string>)
    ensures |keys| == |rows|
  {
    seq(|rows|, i requires 0 <= i < |rows| => KeyText(rows[i]))
  }

  lemma {:induction false} ReadsKeyTexts(rows: seq<Verifiers.Row>)
    requires Readable(rows)
    ensures KeysRead(rows) == TextsOfKeys(rows)
  {
    forall i | 0 <= i < |rows| ensures KeysRead(rows)[i] == TextsOfKeys(rows)[i] {
      ReadsWhatIsThere(rows[i].record);
    }
  }

  /** What survives supersession: under every key text that occurs, the last record with it. */
  lemma {:induction false} FinalIsLatest(rows: seq<Verifiers.Row>)
    requires Readable(rows)
    ensures Final(rows, |rows|) == Latest(TextsOfKeys(rows), Records(rows), |rows|)
  {
    ReadsKeyTexts(rows);
  }

  lemma {:induction false} LastRow(rows: seq<Verifiers.Row>, j: nat) returns (i: nat)
    requires j < |rows|
    ensures i < |rows| && KeyText(rows[i]) == KeyText(rows[j]) && IsFinal(rows, i)
    decreases |rows| - j
  {
    if k :| j < k < |rows| && KeyText(rows[k]) == KeyText(rows[j]) {
      i := LastRow(rows, k);
    } else {
      i := j;
    }
  }

  lemma {:induction false} SameFinalRow(rows: seq<Verifiers.Row>, i: nat, j: nat)
    requires i < |rows| && j < |rows| && KeyText(rows[i]) == KeyText(rows[j]) && IsFinal(rows, i) && IsFinal(rows, j)
    ensures i == j
  {
  }

  /** Whose last record makes this selection. */
  function VotersFor(rows: seq<Verifiers.Row>, s: int): set<string> {
    set i | 0 <= i < |rows| && IsFinal(rows, i) && Lookup(rows[i].record, "selection") == Some(Integer(s))
         :: KeyText(rows[i])
  }

  lemma {:induction false} FinalAt(rows: seq<Verifiers.Row>, i: nat)
    requires Readable(rows) && i < |rows| && IsFinal(rows, i)
    ensures KeyText(rows[i]) in Final(rows, |rows|)
    ensures Final(rows, |rows|)[KeyText(rows[i])] == rows[i].record
  {
    FinalIsLatest(rows);
    LatestHas(TextsOfKeys(rows), Records(rows), |rows|, i);
  }

  lemma {:induction false} FinalKeys(rows: seq<Verifiers.Row>)
    requires Readable(rows)
    ensures Final(rows, |rows|).Keys == KeyTexts(rows)
  {
    FinalIsLatest(rows);
    LatestKeys(TextsOfKeys(rows), Records(rows));
    forall i | 0 <= i < |rows| ensures TextsOfKeys(rows)[i] == KeyText(rows[i]) {
    }
  }

  lemma {:induction false} LatestKeys<V>(keys: seq<string>, values: seq<V>)
    requires |keys| == |values|
    ensures Latest(keys, values, |keys|).Keys == set i | 0 <= i < |keys| :: keys[i]
  {
    forall t | t in Latest(keys, values, |keys|) ensures exists i :: 0 <= i < |keys| && keys[i] == t {
      var i := LatestOnly(keys, values, |keys|, t);
    }
    forall i | 0 <= i < |keys| ensures keys[i] in Latest(keys, values, |keys|) {
      LatestHas(keys, values, |keys|, i);
    }
  }

  lemma SelectionIsRead(o: Object, s: int)
    requires Read(o).Some?
    ensures SelectionOf(o) == s <==> Lookup(o, "selection") == Some(Integer(s))
  {
    ReadsWhatIsThere(o);
  }

  /** The choosers of a selection are the key texts whose last record makes it. */
  lemma {:induction false} ChoosersMean(rows: seq<Verifiers.Row>, s: int)
    requires Readable(rows)
    ensures Choosers(Final(rows, |rows|), s) == VotersFor(rows, s)
  {
    var final := Final(rows, |rows|);
    FinalKeys(rows);
    forall t ensures t in Choosers(final, s) <==> t in VotersFor(rows, s) {
      if t in final {
        var j :| 0 <= j < |rows| && KeyText(rows[j]) == t;
        var i := LastRow(rows, j);
        FinalAt(rows, i);
        SelectionIsRead(rows[i].record, s);
        forall k | 0 <= k < |rows| && IsFinal(rows, k) && KeyText(rows[k]) == t ensures k == i {
          SameFinalRow(rows, i, k);
        }
      }
    }
  }

  lemma {:induction false} OptionsMean(rows: seq<Verifiers.Row>, n: int, final: map<string, Object>)
    requires Readable(rows) && final == Final(rows, |rows|)
    ensures forall s :: s in Options(n, final) <==> 1 <= s <= n
    ensures forall s :: s in Options(n, final) ==> Options(n, final)[s] == |VotersFor(rows, s)|
  {
    forall s ensures Choosers(final, s) == VotersFor(rows, s) {
      ChoosersMean(rows, s);
    }
  }

  lemma {:induction false} OutsideMeans(rows: seq<Verifiers.Row>, n: int, final: map<string, Object>)
    requires Readable(rows) && final == Final(rows, |rows|)
    ensures forall s :: s in Outside(n, final) ==> !(1 <= s <= n) && Outside(n, final)[s] == |VotersFor(rows, s)| > 0
  {
    var outside := Outside(n, final);
    forall s | s in outside ensures !(1 <= s <= n) && outside[s] == |VotersFor(rows, s)| > 0 {
      ChoosersMean(rows, s);
      var k :| k in final && !(1 <= SelectionOf(final[k]) <= n) && SelectionOf(final[k]) == s;
      assert k in Choosers(final, s);
    }
  }

  lemma {:induction false} NobodyUncounted(rows: seq<Verifiers.Row>, n: int, final: map<string, Object>, i: nat)
    requires Readable(rows) && final == Final(rows, |rows|) && i < |rows| && IsFinal(rows, i)
    ensures var s := Read(rows[i].record).value.selection; s in Options(n, final) || s in Outside(n, final)
  {
    FinalAt(rows, i);
    assert SelectionOf(final[KeyText(rows[i])]) == Read(rows[i].record).value.selection;
  }

  /** The tally of any file that can be read: every option counted by the key texts whose last record
      makes it, every other selection likewise, nobody uncounted, and as many voters as key texts. */
  lemma {:induction false} TallyMeans(c: Config, ledger: LedgerFile, t: Verifiers.Tally)
    requires Readable(ledger.accepted) && t == TallyOf(c, ledger)
    ensures t.electionId == c.electionId && t.configDigest == c.digest
    ensures t.ballots == |ledger.accepted| && t.voters == |KeyTexts(ledger.accepted)| && t.rejected == ledger.rejected
    ensures forall s :: s in t.options <==> 1 <= s <= c.numChoices
    ensures forall s :: s in t.options ==> t.options[s] == |VotersFor(ledger.accepted, s)|
    ensures forall s :: s in t.outside ==>
              !(1 <= s <= c.numChoices) && t.outside[s] == |VotersFor(ledger.accepted, s)| > 0
    ensures forall i :: 0 <= i < |ledger.accepted| && IsFinal(ledger.accepted, i) ==>
              var s := Read(ledger.accepted[i].record).value.selection; s in t.options || s in t.outside
  {
    var rows := ledger.accepted;
    var final := Final(rows, |rows|);
    FinalKeys(rows);
    OptionsMean(rows, c.numChoices, final);
    OutsideMeans(rows, c.numChoices, final);
    forall i | 0 <= i < |rows| && IsFinal(rows, i)
      ensures var s := Read(rows[i].record).value.selection; s in t.options || s in t.outside
    {
      NobodyUncounted(rows, c.numChoices, final, i);
    }
  }

  /** The audit: no more key texts than the office says it released tokens. */
  lemma {:induction false} AuditMeans(c: Config, ledger: LedgerFile, releases: ReleasesFile)
    requires Readable(ledger.accepted)
    ensures VerdictsOf(c, ledger, releases).audit <==> |KeyTexts(ledger.accepted)| <= releases.count
  {
    FinalKeys(ledger.accepted);
  }

  function OnTheList(n: int, final: map<string, Object>): set<string> {
    set k | k in final && 1 <= SelectionOf(final[k]) <= n
  }

  lemma {:induction false} OptionsAddUp(n: int, final: map<string, Object>, options: map<int, nat>)
    requires forall i :: 1 <= i <= n ==> i in options && options[i] == |Choosers(final, i)|
    ensures B.SumOver(options, 1, n) == |OnTheList(n, final)|
    decreases n
  {
    if n < 1 {
      assert OnTheList(n, final) == {};
    } else {
      OptionsAddUp(n - 1, final, options);
      assert OnTheList(n, final) == OnTheList(n - 1, final) + Choosers(final, n);
      assert OnTheList(n - 1, final) !! Choosers(final, n);
    }
  }

  /** Nobody is counted twice: the options add up to no more than the voters. */
  lemma {:induction false} OptionsAreVoters(c: Config, ledger: LedgerFile)
    requires Readable(ledger.accepted)
    ensures B.SumOver(TallyOf(c, ledger).options, 1, c.numChoices) <= TallyOf(c, ledger).voters
  {
    var final := Final(ledger.accepted, |ledger.accepted|);
    OptionsAddUp(c.numChoices, final, TallyOf(c, ledger).options);
    assert final.Keys == OnTheList(c.numChoices, final) + (final.Keys - OnTheList(c.numChoices, final));
  }

  // ---- a passing report of a box that may be dishonest ------------------------------------------------

  /** The keys, as bytes, that the rows carry. */
  function Keys(rows: seq<Verifiers.Row>): set<Option<Bytes>> {
    set i | 0 <= i < |rows| :: Decode(KeyText(rows[i]))
  }

  /** What a passing report establishes, whoever made the files: every counted record carries a token the
      office signed for its key, and a selection that key signed; and there are no more voters than the
      number of released tokens that the office signed. */
  lemma {:induction false} PassingIsCertified(c: Config, ledger: LedgerFile, releases: ReleasesFile)
    requires Readable(ledger.accepted) && VerdictsOf(c, ledger, releases).AllHold()
    ensures AllLegible(ledger.accepted)
    ensures AllTokensSigned(c, ledger.accepted) && AllSelectionsSigned(c, ledger.accepted)
    ensures RecordsApart(ledger.accepted)
    ensures TallyOf(c, ledger).voters <= releases.count && CountIsSigned(c, releases.count, releases.countSignature)
  {
    ReadableIsLegible(ledger.accepted);
    RecordChecksMean(c, ledger, releases);
    DistinctMeans(c, ledger, releases);
    AuditMeans(c, ledger, releases);
    SignaturesMean(c, GENESIS, releases.count, releases.countSignature);
    FinalKeys(ledger.accepted);
  }

  /** No key is spelt in two ways. */
  ghost predicate SpeltAlike(rows: seq<Verifiers.Row>) {
    forall i, j :: 0 <= i < j < |rows| && Decode(KeyText(rows[i])) == Decode(KeyText(rows[j])) ==>
      KeyText(rows[i]) == KeyText(rows[j])
  }

  ghost predicate Apart(texts: set<string>) {
    forall t, u {:trigger Decode(t), Decode(u)} :: t in texts && u in texts && Decode(t) == Decode(u) ==> t == u
  }

  function Decoded(texts: set<string>): set<Option<Bytes>> {
    set t | t in texts :: Decode(t)
  }

  lemma DecodedOneMore(fewer: set<string>, t: string)
    requires t !in fewer
    ensures Decoded(fewer + {t}) == Decoded(fewer) + {Decode(t)}
    ensures Decode(t) in Decoded(fewer) <==> exists u :: u in fewer && Decode(u) == Decode(t)
  {
  }

  lemma {:induction false} ImageSize(texts: set<string>)
    ensures |Decoded(texts)| <= |texts|
    ensures |Decoded(texts)| == |texts| <==> Apart(texts)
  {
    if texts == {} {
      assert Decoded(texts) == {};
    } else {
      var t :| t in texts;
      var fewer := texts - {t};
      assert texts == fewer + {t};
      DecodedOneMore(fewer, t);
      ImageSize(fewer);
    }
  }

  lemma {:induction false} SpeltAlikeApart(rows: seq<Verifiers.Row>)
    ensures Apart(KeyTexts(rows)) <==> SpeltAlike(rows)
  {
    var texts := KeyTexts(rows);
    if SpeltAlike(rows) {
      forall t, u | t in texts && u in texts && Decode(t) == Decode(u) ensures t == u {
        var i :| 0 <= i < |rows| && KeyText(rows[i]) == t;
        var j :| 0 <= j < |rows| && KeyText(rows[j]) == u;
        assert i < j || j < i || i == j;
      }
    }
    if Apart(texts) {
      forall i, j | 0 <= i < j < |rows| && Decode(KeyText(rows[i])) == Decode(KeyText(rows[j]))
        ensures KeyText(rows[i]) == KeyText(rows[j])
      {
        assert KeyText(rows[i]) in texts && KeyText(rows[j]) in texts;
      }
    }
  }

  lemma {:induction false} KeysAreImages(rows: seq<Verifiers.Row>)
    ensures Keys(rows) == Decoded(KeyTexts(rows))
  {
    forall i | 0 <= i < |rows| ensures Decode(KeyText(rows[i])) in Decoded(KeyTexts(rows)) {
      assert KeyText(rows[i]) in KeyTexts(rows);
    }
    forall t | t in KeyTexts(rows) ensures Decode(t) in Keys(rows) {
      var i :| 0 <= i < |rows| && KeyText(rows[i]) == t;
      assert Decode(KeyText(rows[i])) in Keys(rows);
    }
  }

  /** The voters are counted by the text of their key. They are as many as there are keys exactly when no
      key is spelt in two ways, and never fewer. */
  lemma {:induction false} VotersAreKeys(c: Config, ledger: LedgerFile)
    requires Readable(ledger.accepted)
    ensures |Keys(ledger.accepted)| <= TallyOf(c, ledger).voters
    ensures TallyOf(c, ledger).voters == |Keys(ledger.accepted)| <==> SpeltAlike(ledger.accepted)
  {
    FinalKeys(ledger.accepted);
    KeysAreImages(ledger.accepted);
    ImageSize(KeyTexts(ledger.accepted));
    SpeltAlikeApart(ledger.accepted);
  }

  lemma TwoDigits(v: nat)
    requires v < 64
    ensures Base64.Scan([Digit(16)] + ([Digit(v)] + "=="), 0, 0, 0) == Prepend(Byte(64 + v / 16), Some(""))
  {
    ScanDigit(16, [Digit(v)] + "==", 0, 0, 0);
    ScanDigit(v, "==", 1, 16, 0);
    ScanPadding(v % 16);
  }

  /** And a key can be: two texts that differ only in bits decoding throws away. */
  lemma OneKeyTwoTexts()
    ensures "QQ" != "QR" && Decode("QQ") == Decode("QR") == Some("A")
  {
    assert "QQ" + Padding(2) == [Digit(16)] + ([Digit(16)] + "==");
    assert "QR" + Padding(2) == [Digit(16)] + ([Digit(17)] + "==");
    TwoDigits(16);
    TwoDigits(17);
    assert [Byte(65)] + "" == "A";
  }
}
