/** The verifier against the box and the office: every honest record passes the recount with the
    box's own figures. */
module Recounts {
  import opened Base64
  import opened Canonical
  import opened HashChains
  import opened Ledgers
  import opened Statements
  import opened Verifiers
  import opened OfficeRecords
  import B = BoxModel
  import O = OfficeModel
  import E = Elections

  // ---- the published files -----------------------------------------------------------

  /** `ledger_dump`; None where it raises because the box is still open. */
  function LedgerDump(c: Config, p: B.Poll, s: B.Box): Option<LedgerFile> {
    var view := B.ViewOf(p, s);
    match view.records
    case None => None
    case Some(records) =>
      Some(LedgerFile("ovpoc-ledger/1", c.electionId, c.digest, true, GENESIS,
                      Zip(view.acceptedCommitments, records.accepted), |records.rejected|,
                      view.heads.accepted, view.acceptedSignature))
  }

  function Zip(commitments: seq<Bytes>, accepted: seq<Ballot>): (rows: seq<Verifiers.Row>)
    ensures |rows| == if |commitments| < |accepted| then |commitments| else |accepted|
  {
    var n := if |commitments| < |accepted| then |commitments| else |accepted|;
    seq(n, i requires 0 <= i < n => Verifiers.Row(i, commitments[i], ToDict(accepted[i])))
  }

  function Published(log: seq<Bytes>): (texts: seq<string>)
    ensures |texts| == |log|
  {
    seq(|log|, i requires 0 <= i < |log| => Encode(log[i]))
  }

  /** `releases_dump`. */
  function ReleasesDump(c: Config, a: O.Authority, o: O.Office): ReleasesFile {
    var head := Head(a.link, o.log);
    ReleasesFile(c.digest, GENESIS, Published(o.log),
                 head, a.sign(a.payload(ReleaseHead(a.electionId, head))),
                 |o.log|, a.sign(a.payload(ReleaseCount(a.electionId, |o.log|))))
  }

  /** The configuration describes this box and this office: the same hash, the same payloads, the
      same verdict on tokens and signatures, and the keys under which each signs. */
  ghost predicate Describes(c: Config, p: B.Poll, a: O.Authority) {
    && c.electionId == p.electionId == a.electionId && c.numChoices == p.numChoices && c.boxKey == p.statementKey
    && LinksByHash(c) && Computes(p.link, c.h, p.text) && Computes(a.link, c.h, CommitmentText)
    && (forall b: Ballot {:trigger p.text(b)} :: p.text(b) == RecordText(b))
    && (forall s: Statement {:trigger p.payload(s)} :: p.payload(s) == Payload(c.h, s))
    && (forall s: Statement {:trigger a.payload(s)} :: a.payload(s) == Payload(c.h, s))
    && (forall k: Bytes, t: Bytes {:trigger p.tokenOk(k, t)} :: p.tokenOk(k, t) == c.tokenOk(k, t))
    && (forall k: Bytes, t: Bytes, m: Bytes {:trigger p.verify(k, t, m)} :: p.verify(k, t, m) == c.verify(k, t, m))
    && (forall m: Bytes {:trigger p.sign(m)} :: c.verify(c.boxKey, p.sign(m), m))
    && (forall m: Bytes {:trigger a.sign(m)} :: c.verify(c.officeKey, a.sign(m), m))
  }

  function MakeConfig(digest: Bytes, electionId: string, numChoices: int, generated: bool, h: HashFunction,
                      tokenOk: (Bytes, Bytes) -> bool, verify: (Bytes, Bytes, Bytes) -> bool,
                      boxKey: Bytes, officeKey: Bytes): Config
  {
    Config(digest, electionId, numChoices, generated, tokenOk, boxKey, officeKey, verify, h,
           EntryLink(h, CanonicalBytes), EntryLink(h, ReleaseText))
  }

  /** The configuration the source publishes describes the poll and the office it builds, where each
      signs with the key it publishes. */
  lemma MadeConfigDescribes(c: Config, p: B.Poll, a: O.Authority, sign: Bytes -> Bytes)
    requires c == MakeConfig(c.digest, c.electionId, c.numChoices, c.generated, c.h, c.tokenOk, c.verify,
                             c.boxKey, c.officeKey)
    requires p == B.MakePoll(c.electionId, c.numChoices, c.h, c.tokenOk, c.verify, c.boxKey, sign)
    requires a.electionId == c.electionId && a.link == EntryLink(c.h, CommitmentText)
    requires forall s: Statement {:trigger a.payload(s)} :: a.payload(s) == Payload(c.h, s)
    requires forall m: Bytes {:trigger sign(m)} :: c.verify(c.boxKey, sign(m), m)
    requires forall m: Bytes {:trigger a.sign(m)} :: c.verify(c.officeKey, a.sign(m), m)
    ensures Describes(c, p, a)
  {
    EntryLinkComputes(c.h, CanonicalBytes);
    EntryLinkComputes(c.h, ReleaseText);
    EntryLinkComputes(c.h, RecordText);
    EntryLinkComputes(c.h, CommitmentText);
  }

  // ---- records -----------------------------------------------------------------------

  function FactsOf(b: Ballot): Facts {
    Facts(Encode(b.adhocKey), b.adhocKey, b.token, Encode(b.nonce), b.signature, b.selection)
  }

  lemma ReadOfBallot(b: Ballot)
    ensures Read(ToDict(b)) == Some(FactsOf(b))
  {
    var o := ToDict(b);
    BallotKeysDistinct(b);
    LookupAt(o, 0);
    LookupAt(o, 1);
    LookupAt(o, 2);
    LookupAt(o, 3);
    LookupAt(o, 4);
    DecodeInvertsEncode(b.adhocKey);
    DecodeInvertsEncode(b.token);
    DecodeInvertsEncode(b.signature);
  }

  lemma UpdatesCommute<K, V>(m: map<K, V>, k: K, v: V, k': K, v': V)
    requires k != k'
    ensures m[k := v][k' := v'] == m[k' := v'][k := v]
  {
  }

  lemma ConsMap(m: Member, o: Object)
    ensures AsMap([m] + o) == AsMap(o)[m.key := m.value]
  {
    assert ([m] + o)[1..] == o;
  }

  /** Key order does not matter. */
  lemma Rotate(a: Member, b: Member, c: Member)
    requires a.key != b.key && b.key != c.key && a.key != c.key
    ensures CanonicalBytes([a, b, c]) == CanonicalBytes([b, c, a])
  {
    var none: map<string, Value> := map[];
    ConsMap(c, []);
    ConsMap(b, [c]);
    ConsMap(a, [b, c]);
    ConsMap(a, []);
    ConsMap(c, [a]);
    ConsMap(b, [c, a]);
    assert [c] + [] == [c] && [a] + [] == [a] && [b] + [c] == [b, c] && [c] + [a] == [c, a];
    assert [a] + [b, c] == [a, b, c] && [b] + [c, a] == [b, c, a];
    UpdatesCommute(none[c.key := c.value], b.key, b.value, a.key, a.value);
    UpdatesCommute(none, c.key, c.value, a.key, a.value);
    CanonicalExact([a, b, c], [b, c, a]);
  }

  /** The verifier rebuilds, from a record's texts, exactly the bytes the voter signed. */
  lemma VotePayloadAgrees(h: HashFunction, b: Ballot)
    ensures VotePayload(h, FactsOf(b)) == Payload(h, B.VoteStatement(b))
  {
    var s := Member("selection", Integer(b.selection));
    var k := Member("adhoc_public_key", Text(Encode(b.adhocKey)));
    var n := Member("nonce", Text(Encode(b.nonce)));
    assert s.key[0] == 's' && k.key[0] == 'a' && n.key[0] == 'n';
    Rotate(s, k, n);
  }

  /** These rows carry these ballots. */
  ghost predicate Represents(rows: seq<Verifiers.Row>, accepted: seq<Ballot>) {
    |rows| == |accepted| && forall i :: 0 <= i < |rows| ==> Read(rows[i].record) == Some(FactsOf(accepted[i]))
  }

  // ---- the chain -----------------------------------------------------------------------

  /** The rows hold the canonical texts of these ballots. */
  ghost predicate SameTextsAs(rows: seq<Verifiers.Row>, accepted: seq<Ballot>) {
    |rows| == |accepted|
    && forall i :: 0 <= i < |rows| ==> CanonicalBytes(rows[i].record) == RecordText(accepted[i])
  }

  lemma LinksAgree(c: Config, p: B.Poll, i: nat, o: Object, b: Ballot, prev: Bytes)
    requires LinksByHash(c) && Computes(p.link, c.h, p.text) && CanonicalBytes(o) == p.text(b)
    ensures c.link(i, o, prev) == p.link(i, b, prev)
  {
    assert HashInput(i, CanonicalBytes(o), prev) == HashInput(i, p.text(b), prev);
  }

  lemma {:induction false} ChainAgrees(c: Config, p: B.Poll, rows: seq<Verifiers.Row>, accepted: seq<Ballot>, k: nat)
    requires LinksByHash(c) && Computes(p.link, c.h, p.text)
    requires forall b: Ballot {:trigger p.text(b)} :: p.text(b) == RecordText(b)
    requires SameTextsAs(rows, accepted) && k <= |rows|
    ensures HeadFrom(c.link, GENESIS, Records(rows), k) == HeadAt(p.link, accepted, k)
  {
    if k > 0 {
      ChainAgrees(c, p, rows, accepted, k - 1);
      LinksAgree(c, p, k - 1, rows[k - 1].record, accepted[k - 1], HeadAt(p.link, accepted, k - 1));
    }
  }

  /** The walk is intact when every commitment is where the chain puts it, and only then. */
  lemma {:induction false} WalkIsChain(link: Link<Object>, genesis: Bytes, rows: seq<Verifiers.Row>, k: nat)
    requires k <= |rows|
    ensures Walk(link, genesis, rows, k).intact <==>
              forall i :: 0 <= i < k ==>
                rows[i].index == i && rows[i].commitment == HeadFrom(link, genesis, Records(rows), i + 1)
    ensures Walk(link, genesis, rows, k).intact ==>
              Walk(link, genesis, rows, k).head == HeadFrom(link, genesis, Records(rows), k)
  {
    if k > 0 {
      WalkIsChain(link, genesis, rows, k - 1);
      var before := Walk(link, genesis, rows, k - 1);
      if before.intact {
        assert HeadFrom(link, genesis, Records(rows), k) == link(k - 1, rows[k - 1].record, before.head);
      }
    }
  }

  lemma ReleaseLinksAgree(c: Config, a: O.Authority, index: nat, commitment: Bytes, prev: Bytes)
    requires LinksByHash(c) && Computes(a.link, c.h, CommitmentText)
    ensures c.releaseLink(index, Encode(commitment), prev) == a.link(index, commitment, prev)
  {
    assert HashInput(index, ReleaseText(Encode(commitment)), prev)
        == HashInput(index, CommitmentText(commitment), prev);
  }

  lemma {:induction false} ReleasesAgree(c: Config, a: O.Authority, log: seq<Bytes>, k: nat)
    requires LinksByHash(c) && Computes(a.link, c.h, CommitmentText) && k <= |log|
    ensures HeadFrom(c.releaseLink, GENESIS, Published(log), k) == HeadAt(a.link, log, k)
  {
    if k > 0 {
      ReleasesAgree(c, a, log, k - 1);
      ReleaseLinksAgree(c, a, k - 1, log[k - 1], HeadAt(a.link, log, k - 1));
    }
  }

  // ---- the count -----------------------------------------------------------------------

  /** The two supersessions, keyed by text and by key, hold the same ballots. */
  ghost predicate Agree(final: map<string, Object>, latest: map<Bytes, Ballot>) {
    && (forall k {:trigger k in latest} :: k in latest ==>
          Encode(k) in final && Read(final[Encode(k)]) == Some(FactsOf(latest[k])))
    && (forall t {:trigger t in final} :: t in final ==> exists k :: k in latest && Encode(k) == t)
  }

  lemma AgreeOneMore(final: map<string, Object>, latest: map<Bytes, Ballot>, o: Object, b: Ballot)
    requires Agree(final, latest) && Read(o) == Some(FactsOf(b))
    ensures Agree(final[Encode(b.adhocKey) := o], latest[b.adhocKey := b])
  {
    var final', latest' := final[Encode(b.adhocKey) := o], latest[b.adhocKey := b];
    forall k | k in latest' ensures Encode(k) in final' && Read(final'[Encode(k)]) == Some(FactsOf(latest'[k])) {
      if k != b.adhocKey && Encode(k) == Encode(b.adhocKey) {
        EncodeInjective(k, b.adhocKey);
      }
    }
    forall t | t in final' ensures exists k :: k in latest' && Encode(k) == t {
      if t == Encode(b.adhocKey) {
        assert b.adhocKey in latest';
      } else {
        var k :| k in latest && Encode(k) == t;
        assert k in latest';
      }
    }
  }

  lemma {:induction false} FinalIsEffective(rows: seq<Verifiers.Row>, accepted: seq<Ballot>, k: nat)
    requires Represents(rows, accepted) && k <= |rows|
    ensures Readable(rows)
    ensures Agree(Final(rows, k), B.Effective(accepted[..k]))
  {
    if k > 0 {
      FinalIsEffective(rows, accepted, k - 1);
      assert accepted[..k][..k - 1] == accepted[..k - 1];
      AgreeOneMore(Final(rows, k - 1), B.Effective(accepted[..k - 1]), rows[k - 1].record, accepted[k - 1]);
    }
  }

  lemma {:induction false} SameSize(keys: set<Bytes>, texts: set<string>)
    requires forall k {:trigger k in keys} :: k in keys ==> Encode(k) in texts
    requires forall t {:trigger t in texts} :: t in texts ==> exists k :: k in keys && Encode(k) == t
    ensures |keys| == |texts|
  {
    if keys == {} {
      assert texts == {};
    } else {
      var k :| k in keys;
      var fewer, others := keys - {k}, texts - {Encode(k)};
      forall j | j in fewer ensures Encode(j) in others {
        if Encode(j) == Encode(k) {
          EncodeInjective(j, k);
        }
      }
      forall t | t in others ensures exists j :: j in fewer && Encode(j) == t {
        var j :| j in keys && Encode(j) == t;
        assert j in fewer;
      }
      SameSize(fewer, others);
    }
  }

  lemma ChoosersAgree(final: map<string, Object>, latest: map<Bytes, Ballot>, s: int)
    requires Agree(final, latest)
    ensures |Choosers(final, s)| == |B.Choosing(latest, s)|
  {
    var keys, texts := B.Choosing(latest, s), Choosers(final, s);
    forall t | t in texts ensures exists k :: k in keys && Encode(k) == t {
      var k :| k in latest && Encode(k) == t;
      assert k in keys;
    }
    SameSize(keys, texts);
  }

  lemma SelectionsAgree(n: int, final: map<string, Object>, latest: map<Bytes, Ballot>, s: int)
    requires Agree(final, latest)
    ensures s in OutsideSelections(n, final) <==> s in B.ProtestSelections(n, latest)
  {
    if s in OutsideSelections(n, final) {
      var t :| t in final && !(1 <= SelectionOf(final[t]) <= n) && SelectionOf(final[t]) == s;
      var k :| k in latest && Encode(k) == t;
      assert latest[k].selection == s;
    }
    if s in B.ProtestSelections(n, latest) {
      var k :| k in latest && !(1 <= latest[k].selection <= n) && latest[k].selection == s;
      assert Encode(k) in final && SelectionOf(final[Encode(k)]) == s;
    }
  }

  lemma OptionsAgree(n: int, final: map<string, Object>, latest: map<Bytes, Ballot>)
    requires Agree(final, latest)
    ensures Options(n, final) == B.OptionCounts(n, latest)
  {
    forall s ensures |Choosers(final, s)| == |B.Choosing(latest, s)| {
      ChoosersAgree(final, latest, s);
    }
  }

  lemma OutsideAgree(n: int, final: map<string, Object>, latest: map<Bytes, Ballot>)
    requires Agree(final, latest)
    ensures Outside(n, final) == B.ProtestCodes(n, latest)
  {
    forall s ensures s in OutsideSelections(n, final) <==> s in B.ProtestSelections(n, latest) {
      SelectionsAgree(n, final, latest, s);
    }
    assert OutsideSelections(n, final) == B.ProtestSelections(n, latest);
    forall s ensures |Choosers(final, s)| == |B.Choosing(latest, s)| {
      ChoosersAgree(final, latest, s);
    }
  }

  /** The verifier's own count is the box's. */
  lemma CountsAgree(n: int, final: map<string, Object>, latest: map<Bytes, Ballot>)
    requires Agree(final, latest)
    ensures Options(n, final) == B.OptionCounts(n, latest)
    ensures Outside(n, final) == B.ProtestCodes(n, latest)
    ensures |final| == |latest|
  {
    OptionsAgree(n, final, latest);
    OutsideAgree(n, final, latest);
    SameSize(latest.Keys, final.Keys);
  }

  /** The tally of rows that carry the box's ballots is the tally of the box. */
  lemma TallyAgrees(c: Config, p: B.Poll, ledger: LedgerFile, r: B.Registry)
    requires c.numChoices == p.numChoices && Represents(ledger.accepted, r.accepted)
    ensures Readable(ledger.accepted)
    ensures var tally, figures := TallyOf(c, ledger), B.FiguresOf(p.numChoices, p.link, r);
            && tally.options == figures.counts && tally.outside == figures.protestCodes
            && tally.voters == figures.voters && tally.ballots == |r.accepted|
  {
    FinalIsEffective(ledger.accepted, r.accepted, |ledger.accepted|);
    assert r.accepted[..|r.accepted|] == r.accepted;
    CountsAgree(p.numChoices, Final(ledger.accepted, |ledger.accepted|), B.Effective(r.accepted));
  }

  // ---- every honest record passes ---------------------------------------------------------

  lemma DumpedRows(c: Config, p: B.Poll, s: B.Box)
    requires s.closed
    ensures LedgerDump(c, p, s).Some?
    ensures var ledger := LedgerDump(c, p, s).value;
            && |ledger.accepted| == |s.registry.accepted|
            && ledger.head == Head(p.link, s.registry.accepted)
            && forall i :: 0 <= i < |ledger.accepted| ==>
                 ledger.accepted[i]
                 == Verifiers.Row(i, HeadAt(p.link, s.registry.accepted, i + 1), ToDict(s.registry.accepted[i]))
  {
    var accepted := s.registry.accepted;
    var hashes := Hashes(Chain(p.link, accepted));
    forall i | 0 <= i < |accepted| ensures hashes[i] == HeadAt(p.link, accepted, i + 1) {
      assert Chain(p.link, accepted)[i] == EntryAt(p.link, accepted, i);
    }
  }

  /** The rows of these ballots, chained as the box chained them. */
  ghost predicate HonestRows(p: B.Poll, rows: seq<Verifiers.Row>, accepted: seq<Ballot>) {
    |rows| == |accepted|
    && forall i :: 0 <= i < |rows| ==>
         rows[i] == Verifiers.Row(i, HeadAt(p.link, accepted, i + 1), ToDict(accepted[i]))
  }

  lemma HonestRowsRepresent(p: B.Poll, rows: seq<Verifiers.Row>, accepted: seq<Ballot>)
    requires HonestRows(p, rows, accepted)
    ensures Represents(rows, accepted) && SameTextsAs(rows, accepted)
  {
    forall i | 0 <= i < |rows| ensures Read(rows[i].record) == Some(FactsOf(accepted[i])) {
      ReadOfBallot(accepted[i]);
    }
  }

  lemma HonestWalk(c: Config, p: B.Poll, a: O.Authority, rows: seq<Verifiers.Row>, accepted: seq<Ballot>)
    requires Describes(c, p, a) && HonestRows(p, rows, accepted)
    ensures Walk(c.link, GENESIS, rows, |rows|) == Scan(Head(p.link, accepted), true)
  {
    HonestRowsRepresent(p, rows, accepted);
    forall k | 0 <= k <= |rows| ensures HeadFrom(c.link, GENESIS, Records(rows), k) == HeadAt(p.link, accepted, k) {
      ChainAgrees(c, p, rows, accepted, k);
    }
    WalkIsChain(c.link, GENESIS, rows, |rows|);
  }

  lemma GenuineRecord(c: Config, p: B.Poll, a: O.Authority, o: Object, b: Ballot)
    requires Describes(c, p, a) && Read(o) == Some(FactsOf(b))
    requires p.tokenOk(b.adhocKey, b.token)
    requires p.verify(b.adhocKey, b.signature, p.payload(B.VoteStatement(b)))
    ensures TokenHolds(c, o) && VoteHolds(c, o)
  {
    VotePayloadAgrees(c.h, b);
  }

  lemma HonestRecords(c: Config, p: B.Poll, a: O.Authority, rows: seq<Verifiers.Row>, accepted: seq<Ballot>)
    requires Describes(c, p, a) && Represents(rows, accepted) && B.AllGenuine(p, accepted)
    ensures AllRecords(rows, o => TokenHolds(c, o)) && AllRecords(rows, o => VoteHolds(c, o))
  {
    forall i | 0 <= i < |rows| ensures TokenHolds(c, rows[i].record) && VoteHolds(c, rows[i].record) {
      GenuineRecord(c, p, a, rows[i].record, accepted[i]);
    }
  }

  lemma {:induction false} AllDiffer(texts: seq<string>)
    requires forall i, j :: 0 <= i < j < |texts| ==> texts[i] != texts[j]
    ensures |Distinct(texts)| == |texts|
  {
    if texts == [] {
      assert Distinct(texts) == {};
    } else {
      var n := |texts| - 1;
      AllDiffer(texts[..n]);
      assert texts == texts[..n] + [texts[n]];
      assert Distinct(texts) == Distinct(texts[..n]) + {texts[n]};
      assert texts[n] !in Distinct(texts[..n]);
    }
  }

  lemma HonestTextsDiffer(c: Config, p: B.Poll, a: O.Authority, rows: seq<Verifiers.Row>, accepted: seq<Ballot>)
    requires Describes(c, p, a) && SameTextsAs(rows, accepted) && B.AllDifferent(p, accepted)
    ensures |Distinct(TextsOf(rows))| == |rows|
  {
    var texts := TextsOf(rows);
    forall i, j | 0 <= i < j < |rows| ensures texts[i] != texts[j] {
      assert p.text(accepted[i]) != p.text(accepted[j]);
    }
    AllDiffer(texts);
  }

  lemma Signs(c: Config, p: B.Poll, a: O.Authority, s: Statement)
    requires Describes(c, p, a)
    ensures c.verify(c.boxKey, p.sign(p.payload(s)), Payload(c.h, s))
    ensures OfficeSigned(c, s, a.sign(a.payload(s)))
  {
  }

  lemma HonestSignatures(c: Config, p: B.Poll, a: O.Authority, o: O.Office, head: Bytes)
    requires Describes(c, p, a)
    ensures BoxSigned(c, head, p.sign(p.payload(RegistryHead(p.electionId, "accepted", head))))
    ensures var releases := ReleasesDump(c, a, o);
            && OfficeSigned(c, ReleaseHead(c.electionId, releases.head), releases.headSignature)
            && OfficeSigned(c, ReleaseCount(c.electionId, releases.count), releases.countSignature)
  {
    Signs(c, p, a, RegistryHead(c.electionId, "accepted", head));
    Signs(c, p, a, ReleaseHead(c.electionId, Head(a.link, o.log)));
    Signs(c, p, a, ReleaseCount(c.electionId, |o.log|));
  }

  /** What the dump says of itself, and its rows. */
  lemma DumpedFile(c: Config, p: B.Poll, a: O.Authority, s: B.Box)
    requires Describes(c, p, a) && s.closed
    ensures LedgerDump(c, p, s).Some?
    ensures var ledger := LedgerDump(c, p, s).value;
            && HonestRows(p, ledger.accepted, s.registry.accepted) && Headed(c, p, ledger, s.registry.accepted)
            && ledger.rejected == |s.registry.rejected|
  {
    DumpedRows(c, p, s);
    Signs(c, p, a, RegistryHead(c.electionId, "accepted", Head(p.link, s.registry.accepted)));
  }

  lemma HonestVerdicts(c: Config, p: B.Poll, a: O.Authority, ledger: LedgerFile, o: O.Office, accepted: seq<Ballot>)
    requires Describes(c, p, a) && HonestRows(p, ledger.accepted, accepted) && Readable(ledger.accepted)
    requires ledger.genesis == GENESIS
    requires B.AllGenuine(p, accepted) && B.AllDifferent(p, accepted)
    ensures AllRecords(ledger.accepted, o => TokenHolds(c, o)) && AllRecords(ledger.accepted, o => VoteHolds(c, o))
    ensures |Distinct(TextsOf(ledger.accepted))| == |ledger.accepted|
    ensures Walk(c.link, ledger.genesis, ledger.accepted, |ledger.accepted|) == Scan(Head(p.link, accepted), true)
  {
    var rows := ledger.accepted;
    HonestRowsRepresent(p, rows, accepted);
    HonestWalk(c, p, a, rows, accepted);
    HonestRecords(c, p, a, rows, accepted);
    HonestTextsDiffer(c, p, a, rows, accepted);
  }

  /** The file names this election and the configuration, starts from genesis, and carries the head
      of these ballots under the box's signature. */
  ghost predicate Headed(c: Config, p: B.Poll, ledger: LedgerFile, accepted: seq<Ballot>) {
    && ledger.format == "ovpoc-ledger/1" && ledger.electionId == c.electionId && ledger.configDigest == c.digest
    && ledger.canonical && ledger.genesis == GENESIS && ledger.head == Head(p.link, accepted)
    && BoxSigned(c, ledger.head, ledger.headSignature)
  }

  lemma ReleasesPass(c: Config, p: B.Poll, a: O.Authority, o: O.Office)
    requires Describes(c, p, a)
    ensures var releases := ReleasesDump(c, a, o);
            && releases.configDigest == c.digest && releases.count == |o.log|
            && HeadFrom(c.releaseLink, releases.genesis, releases.commitments, |releases.commitments|) == releases.head
            && OfficeSigned(c, ReleaseHead(c.electionId, releases.head), releases.headSignature)
            && OfficeSigned(c, ReleaseCount(c.electionId, releases.count), releases.countSignature)
  {
    ReleasesAgree(c, a, o.log, |o.log|);
    HonestSignatures(c, p, a, o, GENESIS);
  }

  lemma HonestFilePasses(c: Config, p: B.Poll, a: O.Authority, ledger: LedgerFile, o: O.Office, accepted: seq<Ballot>)
    requires Describes(c, p, a) && HonestRows(p, ledger.accepted, accepted) && Headed(c, p, ledger, accepted)
    requires B.AllGenuine(p, accepted) && B.AllDifferent(p, accepted)
    requires |B.Effective(accepted)| <= |o.log|
    ensures Readable(ledger.accepted) && VerdictsOf(c, ledger, ReleasesDump(c, a, o)).AllHold()
    ensures var tally, figures := TallyOf(c, ledger), B.FiguresOf(p.numChoices, p.link, B.Registry(accepted, []));
            && tally.options == figures.counts && tally.outside == figures.protestCodes
            && tally.voters == figures.voters && tally.ballots == |accepted|
  {
    HonestRowsRepresent(p, ledger.accepted, accepted);
    TallyAgrees(c, p, ledger, B.Registry(accepted, []));
    HonestVerdicts(c, p, a, ledger, o, accepted);
    ReleasesPass(c, p, a, o);
  }

  /** An honest record passes every check, and the verifier's tally is the box's own count. */
  lemma HonestRecordPasses(c: Config, p: B.Poll, a: O.Authority, s: B.Box, o: O.Office)
    requires Describes(c, p, a) && s.closed
    requires B.AllGenuine(p, s.registry.accepted) && B.AllDifferent(p, s.registry.accepted)
    requires |B.Effective(s.registry.accepted)| <= |o.log|
    ensures LedgerDump(c, p, s).Some?
    ensures var ledger := LedgerDump(c, p, s).value;
            && Readable(ledger.accepted)
            && VerdictsOf(c, ledger, ReleasesDump(c, a, o)).AllHold()
            && (var tally, figures := TallyOf(c, ledger), B.FiguresOf(p.numChoices, p.link, s.registry);
                && tally.options == figures.counts && tally.outside == figures.protestCodes
                && tally.voters == figures.voters && tally.rejected == figures.rejected
                && tally.ballots == |s.registry.accepted|)
  {
    DumpedFile(c, p, a, s);
    HonestFilePasses(c, p, a, LedgerDump(c, p, s).value, o, s.registry.accepted);
  }

  /** End to end: whatever happens in an election, in whatever order, once the box is closed the
      published files pass the recount of an outsider, and with the box's figures. */
  lemma EveryElectionVerifies(c: Config, a: O.Authority, p: B.Poll, enrols: bool, interval: nat, now: real,
                              events: seq<E.Event>)
    requires Describes(c, p, a)
    requires var start := E.Election(O.NewOffice(enrols), B.NewBox(interval, now));
             E.NoTokenTooMany(a, p, start, events) && E.HappenAll(a, p, start, events).box.closed
    ensures var end := E.HappenAll(a, p, E.Election(O.NewOffice(enrols), B.NewBox(interval, now)), events);
            var ledger := LedgerDump(c, p, end.box);
            && ledger.Some? && Readable(ledger.value.accepted)
            && VerdictsOf(c, ledger.value, ReleasesDump(c, a, end.office)).AllHold()
            && TallyOf(c, ledger.value).options == B.FiguresOf(p.numChoices, p.link, end.box.registry).counts
            && TallyOf(c, ledger.value).outside == B.FiguresOf(p.numChoices, p.link, end.box.registry).protestCodes
  {
    var start := E.Election(O.NewOffice(enrols), B.NewBox(interval, now));
    E.NewElection(a, p, enrols, interval, now);
    E.RunsKeepTheBooks(a, p, start, events);
    E.CountAudit(a, p, start, events);
    var end := E.HappenAll(a, p, start, events);
    HonestRecordPasses(c, p, a, end.box, end.office);
  }
}
