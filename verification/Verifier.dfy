/** The outside verifier: a second implementation of the chain, of supersession and of the count,
    over the published files alone. */
module Verifiers {
  import opened Base64
  import opened Canonical
  import opened HashChains
  import opened Ledgers
  import opened Statements

  // ---- the files -----------------------------------------------------------------

  datatype Row = Row(index: int, commitment: Bytes, record: Object)

  /** The ledger dump. `canonical` tells whether the file is byte for byte its own canonical form. */
  datatype LedgerFile = LedgerFile(format: string, electionId: string, configDigest: Bytes, canonical: bool,
                                   genesis: Bytes, accepted: seq<Row>, rejected: nat,
                                   head: Bytes, headSignature: Bytes)

  /** The release register: the commitments as the texts they are published as. */
  datatype ReleasesFile = ReleasesFile(configDigest: Bytes, genesis: Bytes, commitments: seq<string>,
                                       head: Bytes, headSignature: Bytes, count: int, countSignature: Bytes)

  /** The configuration every key comes from, the library's two verifiers, and the two ways an entry
      is linked: a ballot record to the chain, and a commitment. */
  datatype Config = Config(digest: Bytes, electionId: string, numChoices: int, generated: bool,
                           tokenOk: (Bytes, Bytes) -> bool, boxKey: Bytes, officeKey: Bytes,
                           verify: (Bytes, Bytes, Bytes) -> bool, h: HashFunction,
                           link: Link<Object>, releaseLink: Link<string>)

  function ReleaseText(commitment: string): string { CanonicalBytes([Member("commitment", Text(commitment))]) }

  /** Both links are the hash of index, previous hash and canonical text. */
  ghost predicate LinksByHash(c: Config) {
    Computes(c.link, c.h, CanonicalBytes) && Computes(c.releaseLink, c.h, ReleaseText)
  }

  // ---- reading a record ------------------------------------------------------------

  datatype Facts = Facts(keyText: string, key: Bytes, token: Bytes, nonceText: string, signature: Bytes, selection: int)

  function TextField(o: Object, key: string): Option<string> {
    match Lookup(o, key)
    case Some(Text(t)) => Some(t)
    case _ => None
  }

  /** What the verifier reads off a record; None where it raises. */
  function Read(o: Object): Option<Facts> {
    match (TextField(o, "adhoc_public_key"), TextField(o, "nonce"), Lookup(o, "selection"),
           BytesField(o, "token"), BytesField(o, "vote_signature"))
    case (Some(keyText), Some(nonceText), Some(Integer(selection)), Some(token), Some(signature)) =>
      (match Decode(keyText)
       case Some(key) => Some(Facts(keyText, key, token, nonceText, signature, selection))
       case None => None)
    case _ => None
  }

  predicate Readable(rows: seq<Row>) {
    forall i :: 0 <= i < |rows| ==> Read(rows[i].record).Some?
  }

  /** The payload the vote signature should be over, rebuilt from the record's own texts. */
  function VotePayload(h: HashFunction, f: Facts): Bytes {
    h(CanonicalBytes([Member("adhoc_public_key", Text(f.keyText)), Member("nonce", Text(f.nonceText)),
                      Member("selection", Integer(f.selection))]))
  }

  predicate TokenHolds(c: Config, o: Object) {
    Read(o).Some? && c.tokenOk(Read(o).value.key, Read(o).value.token)
  }

  predicate VoteHolds(c: Config, o: Object) {
    Read(o).Some? && c.verify(Read(o).value.key, Read(o).value.signature, VotePayload(c.h, Read(o).value))
  }

  predicate AllRecords(rows: seq<Row>, holds: Object -> bool) {
    forall i :: 0 <= i < |rows| ==> holds(rows[i].record)
  }

  // ---- the chain -------------------------------------------------------------------

  datatype Scan = Scan(head: Bytes, intact: bool)

  /** The walk along the chain: it stops at the first row that does not follow. */
  function Walk(link: Link<Object>, genesis: Bytes, rows: seq<Row>, k: nat): Scan
    requires k <= |rows|
  {
    if k == 0 then Scan(genesis, true)
    else
      var before := Walk(link, genesis, rows, k - 1);
      if !before.intact then before
      else
        var head := link(k - 1, rows[k - 1].record, before.head);
        Scan(head, head == rows[k - 1].commitment && rows[k - 1].index == k - 1)
  }

  /** The head after k payloads of a chain that starts anywhere. */
  function HeadFrom<P>(link: Link<P>, genesis: Bytes, payloads: seq<P>, k: nat): Bytes
    requires k <= |payloads|
  {
    if k == 0 then genesis else link(k - 1, payloads[k - 1], HeadFrom(link, genesis, payloads, k - 1))
  }

  function Records(rows: seq<Row>): (records: seq<Object>)
    ensures |records| == |rows|
  {
    seq(|rows|, i requires 0 <= i < |rows| => rows[i].record)
  }

  // ---- supersession and the count -----------------------------------------------------

  /** The last value under each key. */
  function Latest<V>(keys: seq<string>, values: seq<V>, k: nat): map<string, V>
    requires k <= |keys| == |values|
  {
    if k == 0 then map[] else Latest(keys, values, k - 1)[keys[k - 1] := values[k - 1]]
  }

  function KeysRead(rows: seq<Row>): (keys: seq<string>)
    requires Readable(rows)
    ensures |keys| == |rows|
  {
    seq(|rows|, i requires 0 <= i < |rows| => Read(rows[i].record).value.keyText)
  }

  /** The last record under each key text. */
  function Final(rows: seq<Row>, k: nat): map<string, Object>
    requires k <= |rows| && Readable(rows)
  {
    Latest(KeysRead(rows), Records(rows), k)
  }

  function SelectionOf(o: Object): int {
    if Read(o).Some? then Read(o).value.selection else 0
  }

  /** Whose surviving record carries this selection. */
  function Choosers(final: map<string, Object>, s: int): set<string> {
    set k | k in final && SelectionOf(final[k]) == s
  }

  function Options(n: int, final: map<string, Object>): map<int, nat> {
    map s | 1 <= s <= n :: |Choosers(final, s)|
  }

  function OutsideSelections(n: int, final: map<string, Object>): set<int> {
    set k | k in final && !(1 <= SelectionOf(final[k]) <= n) :: SelectionOf(final[k])
  }

  function Outside(n: int, final: map<string, Object>): map<int, nat> {
    map s | s in OutsideSelections(n, final) :: |Choosers(final, s)|
  }

  // ---- the report --------------------------------------------------------------------

  datatype Tally = Tally(electionId: string, configDigest: Bytes, options: map<int, nat>, outside: map<int, nat>,
                         ballots: nat, voters: nat, rejected: nat)

  function TallyOf(c: Config, ledger: LedgerFile): Tally
    requires Readable(ledger.accepted)
  {
    var final := Final(ledger.accepted, |ledger.accepted|);
    Tally(c.electionId, c.digest, Options(c.numChoices, final), Outside(c.numChoices, final),
          |ledger.accepted|, |final|, ledger.rejected)
  }

  /** The records as canonical bytes. */
  function TextsOf(rows: seq<Row>): (texts: seq<string>)
    ensures |texts| == |rows|
  {
    seq(|rows|, i requires 0 <= i < |rows| => CanonicalBytes(rows[i].record))
  }

  function Distinct(texts: seq<string>): set<string> {
    set t | t in texts
  }

  /** The verdicts of the checks, in the order they are made. */
  datatype Verdicts = Verdicts(
    format: bool, election: bool, configuration: bool, registerConfiguration: bool, canonical: bool,
    tokens: bool, votes: bool, distinct: bool,
    intact: bool, head: bool, headSigned: bool,
    register: bool, registerSigned: bool, countSigned: bool, audit: bool)
  {
    /** `Report.ok`: nothing failed. */
    predicate AllHold() {
      && format && election && configuration && registerConfiguration && canonical
      && tokens && votes && distinct
      && intact && head && headSigned
      && register && registerSigned && countSigned && audit
    }
  }

  ghost function VerdictsOf(c: Config, ledger: LedgerFile, releases: ReleasesFile): Verdicts
    requires Readable(ledger.accepted)
  {
    var rows := ledger.accepted;
    var walk := Walk(c.link, ledger.genesis, rows, |rows|);
    var officeHead := HeadFrom(c.releaseLink, releases.genesis, releases.commitments, |releases.commitments|);
    Verdicts(
      ledger.format == "ovpoc-ledger/1", ledger.electionId == c.electionId, ledger.configDigest == c.digest,
      releases.configDigest == c.digest, ledger.canonical,
      AllRecords(rows, o => TokenHolds(c, o)), AllRecords(rows, o => VoteHolds(c, o)),
      |Distinct(TextsOf(rows))| == |rows|,
      walk.intact, walk.head == ledger.head, BoxSigned(c, walk.head, ledger.headSignature),
      officeHead == releases.head, OfficeSigned(c, ReleaseHead(c.electionId, officeHead), releases.headSignature),
      OfficeSigned(c, ReleaseCount(c.electionId, releases.count), releases.countSignature),
      |Final(rows, |rows|)| <= releases.count)
  }

  predicate BoxSigned(c: Config, head: Bytes, signature: Bytes) {
    c.verify(c.boxKey, signature, Payload(c.h, RegistryHead(c.electionId, "accepted", head)))
  }

  predicate OfficeSigned(c: Config, statement: Statement, signature: Bytes) {
    c.verify(c.officeKey, signature, Payload(c.h, statement))
  }

  datatype Report = Report(verdicts: Verdicts, tally: Tally)

  // ---- the checks, as they are run ------------------------------------------------------

  /** `run_checks`; None where a record cannot be read. */
  method RunChecks(c: Config, ledger: LedgerFile, releases: ReleasesFile) returns (report: Option<Report>)
    ensures report.None? <==> !Readable(ledger.accepted)
    ensures report.Some? ==> report.value == Report(VerdictsOf(c, ledger, releases), TallyOf(c, ledger))
  {
    if exists i :: 0 <= i < |ledger.accepted| && Read(ledger.accepted[i].record).None? {
      return None;
    }
    var rows := ledger.accepted;
    var tokenHolds: Object -> bool, voteHolds: Object -> bool := o => TokenHolds(c, o), o => VoteHolds(c, o);
    var tokens, votes := CountHolding(rows, tokenHolds, voteHolds);
    var distinct := |Distinct(TextsOf(rows))| == |rows|;
    var walk := FollowChain(c.link, ledger.genesis, rows);
    var officeHead := Rebuild(c.releaseLink, releases.genesis, releases.commitments);
    var final := Supersede(rows);
    var verdicts := Verdicts(
      ledger.format == "ovpoc-ledger/1", ledger.electionId == c.electionId, ledger.configDigest == c.digest,
      releases.configDigest == c.digest, ledger.canonical,
      tokens == |rows|, votes == |rows|, distinct,
      walk.intact, walk.head == ledger.head, BoxSigned(c, walk.head, ledger.headSignature),
      officeHead == releases.head, OfficeSigned(c, ReleaseHead(c.electionId, officeHead), releases.headSignature),
      OfficeSigned(c, ReleaseCount(c.electionId, releases.count), releases.countSignature),
      |final| <= releases.count);
    var options, outside := CountSelections(c.numChoices, final);
    return Some(Report(verdicts, Tally(c.electionId, c.digest, options, outside, |rows|, |final|, ledger.rejected)));
  }

  /** The loop over the records, with what is asked of each as an argument. */
  method CountHolding(rows: seq<Row>, tokenHolds: Object -> bool, voteHolds: Object -> bool)
    returns (tokens: nat, votes: nat)
    ensures tokens == |rows| <==> AllRecords(rows, tokenHolds)
    ensures votes == |rows| <==> AllRecords(rows, voteHolds)
  {
    tokens, votes := 0, 0;
    for i := 0 to |rows|
      invariant tokens <= i && votes <= i
      invariant tokens == i <==> forall j :: 0 <= j < i ==> tokenHolds(rows[j].record)
      invariant votes == i <==> forall j :: 0 <= j < i ==> voteHolds(rows[j].record)
    {
      if tokenHolds(rows[i].record) {
        tokens := tokens + 1;
      }
      if voteHolds(rows[i].record) {
        votes := votes + 1;
      }
    }
  }

  method FollowChain(link: Link<Object>, genesis: Bytes, rows: seq<Row>) returns (walk: Scan)
    ensures walk == Walk(link, genesis, rows, |rows|)
  {
    var head := genesis;
    for i := 0 to |rows|
      invariant Walk(link, genesis, rows, i) == Scan(head, true)
    {
      head := link(i, rows[i].record, head);
      if head != rows[i].commitment || rows[i].index != i {
        BrokenStays(link, genesis, rows, i + 1, |rows|);
        return Scan(head, false);
      }
    }
    return Scan(head, true);
  }

  lemma {:induction false} BrokenStays(link: Link<Object>, genesis: Bytes, rows: seq<Row>, j: nat, k: nat)
    requires j <= k <= |rows| && !Walk(link, genesis, rows, j).intact
    ensures Walk(link, genesis, rows, k) == Walk(link, genesis, rows, j)
  {
    if j < k {
      BrokenStays(link, genesis, rows, j, k - 1);
    }
  }

  method Rebuild(link: Link<string>, genesis: Bytes, commitments: seq<string>) returns (head: Bytes)
    ensures head == HeadFrom(link, genesis, commitments, |commitments|)
  {
    head := genesis;
    for i := 0 to |commitments|
      invariant head == HeadFrom(link, genesis, commitments, i)
    {
      head := link(i, commitments[i], head);
    }
  }

  method Supersede(rows: seq<Row>) returns (final: map<string, Object>)
    requires Readable(rows)
    ensures final == Final(rows, |rows|)
  {
    final := map[];
    for i := 0 to |rows|
      invariant final == Final(rows, i)
    {
      final := final[Read(rows[i].record).value.keyText := rows[i].record];
    }
  }

  // ---- counting -----------------------------------------------------------------------

  function Selections(final: map<string, Object>): set<int> {
    set k | k in final :: SelectionOf(final[k])
  }

  /** `Counter(...)`: one counter for every selection, listed or not. */
  ghost predicate Counted(counts: map<int, nat>, final: map<string, Object>) {
    && counts.Keys == Selections(final)
    && forall s {:trigger counts[s]} :: s in counts ==> counts[s] == |Choosers(final, s)|
  }

  method CountSelections(n: int, final: map<string, Object>) returns (options: map<int, nat>, outside: map<int, nat>)
    ensures options == Options(n, final) && outside == Outside(n, final)
  {
    var counts: map<int, nat> := map[];
    var left := final.Keys;
    ghost var done: map<string, Object> := map[];
    while left != {}
      invariant forall k :: k in left ==> k in final && k !in done
      invariant forall k :: k in final && k !in left ==> k in done
      invariant forall k :: k in done ==> k in final && done[k] == final[k]
      invariant Counted(counts, done)
      decreases left
    {
      var k :| k in left;
      var s := SelectionOf(final[k]);
      CountedOneMore(counts, done, k, final[k]);
      done := done[k := final[k]];
      left := left - {k};
      counts := Bump(counts, s);
    }
    assert done == final;
    ReadOptions(n, counts, final);
    ReadOutside(n, counts, final);
    options := ReadCounter(n, counts);
    outside := map s | s in counts && !(1 <= s <= n) :: counts[s];
  }

  function Bump(counter: map<int, nat>, s: int): map<int, nat> {
    counter[s := (if s in counter then counter[s] else 0) + 1]
  }

  function ReadCounter(n: int, counter: map<int, nat>): map<int, nat> {
    map s | 1 <= s <= n :: if s in counter then counter[s] else 0
  }

  lemma ChoosersOneMore(m: map<string, Object>, k: string, o: Object, s: int)
    requires k !in m
    ensures |Choosers(m[k := o], s)| == |Choosers(m, s)| + (if s == SelectionOf(o) then 1 else 0)
  {
    assert k !in Choosers(m, s);
    assert Choosers(m[k := o], s) == if s == SelectionOf(o) then Choosers(m, s) + {k} else Choosers(m, s);
  }

  lemma SelectionsOneMore(m: map<string, Object>, k: string, o: Object)
    requires k !in m
    ensures Selections(m[k := o]) == Selections(m) + {SelectionOf(o)}
  {
    var more := m[k := o];
    forall s | s in Selections(m) ensures s in Selections(more) {
      var i :| i in m && SelectionOf(m[i]) == s;
      assert more[i] == m[i];
    }
    assert more[k] == o;
  }

  lemma NotSelected(m: map<string, Object>, s: int)
    ensures s !in Selections(m) ==> |Choosers(m, s)| == 0
  {
    if k :| k in Choosers(m, s) {
      assert SelectionOf(m[k]) == s;
    }
  }

  lemma CountedOneMore(counts: map<int, nat>, m: map<string, Object>, k: string, o: Object)
    requires k !in m && Counted(counts, m)
    ensures Counted(Bump(counts, SelectionOf(o)), m[k := o])
  {
    SelectionsOneMore(m, k, o);
    var next := Bump(counts, SelectionOf(o));
    forall s | s in next ensures next[s] == |Choosers(m[k := o], s)| {
      ChoosersOneMore(m, k, o, s);
      NotSelected(m, s);
    }
  }

  lemma ReadOptions(n: int, counts: map<int, nat>, final: map<string, Object>)
    requires Counted(counts, final)
    ensures ReadCounter(n, counts) == Options(n, final)
  {
    forall s ensures (if s in counts then counts[s] else 0) == |Choosers(final, s)| {
      NotSelected(final, s);
    }
  }

  lemma ReadOutside(n: int, counts: map<int, nat>, final: map<string, Object>)
    requires Counted(counts, final)
    ensures (map s | s in counts && !(1 <= s <= n) :: counts[s]) == Outside(n, final)
  {
    var outside := map s | s in counts && !(1 <= s <= n) :: counts[s];
    assert outside.Keys == OutsideSelections(n, final);
  }
}
