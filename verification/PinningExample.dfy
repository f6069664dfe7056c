/** One small election in which everything that is supposed of a file holds: a box opened, looked at,
    given one ballot, closed, and looked at again. */
module PinningExamples {
  import opened Base64
  import opened Canonical
  import opened HashChains
  import opened Ledgers
  import opened Statements
  import opened Verifiers
  import opened Recounts
  import opened Pinnings
  import Octets
  import B = BoxModel
  import O = OfficeModel
  import R = OfficeRecords

  const ELECTION := "e"

  function Fill(ch: char): (b: Bytes)
    requires ch as int < 256
    ensures |b| == 32 && b[0] == ch
  {
    seq(32, _ => ch)
  }

  /** The one ballot. Signing is the identity here, so its signature is the payload it is over. */
  function TheBallot(): Ballot { Ballot(1, Fill('k'), Fill('t'), Fill('n'), Fill('c')) }

  function EntryText(): string { HashInput(0, RecordText(TheBallot()), GENESIS) }

  function HeadText(head: Bytes): string { StatementText(RegistryHead(ELECTION, "accepted", head)) }

  /** Tells the entry of that ballot and the statements of the two heads from everything else. */
  function Hash(x: string): (b: Bytes)
    ensures |b| == 32
  {
    if x == EntryText() then Fill('a')
    else if x == HeadText(Fill('a')) then Fill('b')
    else if x == HeadText(GENESIS) then Fill('d')
    else Fill('c')
  }

  function Same(key: Bytes, signature: Bytes, message: Bytes): bool { signature == message }

  function ThePoll(): B.Poll {
    B.MakePoll(ELECTION, 1, Hash, (k, t) => true, Same, Fill('x'), m => m)
  }

  function TheOffice(): O.Authority {
    O.Authority(ELECTION, id => None, Same, s => Payload(Hash, s), None, (d, n) => O.Refused(""),
                x => x, (id, opening) => opening, (c, s) => true, m => m, EntryLink(Hash, R.CommitmentText))
  }

  function TheConfig(): Config {
    MakeConfig(Fill('0'), ELECTION, 1, false, Hash, (k, t) => true, Same, Fill('x'), Fill('y'))
  }

  lemma Described()
    ensures Describes(TheConfig(), ThePoll(), TheOffice())
  {
    MadeConfigDescribes(TheConfig(), ThePoll(), TheOffice(), m => m);
  }

  // ---- the hash -------------------------------------------------------------------------------

  lemma {:induction false} ZeroOctets(k: nat)
    ensures forall i :: 0 <= i < k ==> Octets.ToOctets(0, k)[i] == 0
  {
    if k > 0 {
      ZeroOctets(k - 1);
    }
  }

  /** An entry's text opens with its index, a statement's with a brace. */
  lemma StatementIsNoEntry(s: Statement)
    ensures StatementText(s) != EntryText()
  {
    ZeroOctets(8);
    assert EntryText()[0] == IndexBytes(0)[0] == 0 as char;
    assert StatementText(s)[0] == '{';
  }

  lemma HeadTextsDiffer()
    ensures HeadText(Fill('a')) != HeadText(GENESIS)
  {
    assert GENESIS[0] == 0 as char;
    StatementsSeparated(RegistryHead(ELECTION, "accepted", Fill('a')), RegistryHead(ELECTION, "accepted", GENESIS));
  }

  /** What hashes like the statement of one of the two heads is that statement. */
  lemma HeadsStandOut(head: Bytes, x: string)
    requires head == Fill('a') || head == GENESIS
    ensures Hash(x) == Hash(HeadText(head)) <==> x == HeadText(head)
  {
    HeadTextsDiffer();
    StatementIsNoEntry(RegistryHead(ELECTION, "accepted", Fill('a')));
    StatementIsNoEntry(RegistryHead(ELECTION, "accepted", GENESIS));
  }

  lemma TheBallotIsGenuine()
    ensures B.AllGenuine(ThePoll(), [TheBallot()])
  {
    var v := B.VoteStatement(TheBallot());
    StatementIsNoEntry(v);
    StatementsSeparated(v, RegistryHead(ELECTION, "accepted", Fill('a')));
    StatementsSeparated(v, RegistryHead(ELECTION, "accepted", GENESIS));
  }

  lemma OneEntry(p: B.Poll, b: Ballot)
    requires Computes(p.link, p.h, p.text)
    ensures Head(p.link, [b]) == p.h(HashInput(0, p.text(b), GENESIS))
  {
    HeadIsHash(p.h, p.link, p.text, [b], 1);
  }

  // ---- the run ----------------------------------------------------------------------------------

  function RunOf(b: Ballot): Run {
    [(B.DoOpen, 0.0), (B.DoLook, 0.0), (B.DoSubmit(b), 0.0), (B.DoClose(0.0), 0.0), (B.DoLook, 0.0)]
  }

  lemma RunStep(p: B.Poll, s: B.Box, run: Run, n: nat)
    requires n < |run|
    ensures B.OperateAll(p, s, run[..n + 1]) == B.Operate(p, B.OperateAll(p, s, run[..n]), run[n].0, run[n].1)
  {
    assert run[..n + 1][..n] == run[..n];
  }

  lemma SeenStep(p: B.Poll, s: B.Box, run: Run, n: nat, k: nat)
    requires n < |run|
    ensures B.SeenHolding(p, s, run[..n + 1], k)
       <==> B.SeenHolding(p, s, run[..n], k)
            || (run[n].0.DoLook? && |B.OperateAll(p, s, run[..n]).registry.accepted| == k)
  {
    assert run[..n + 1][..n] == run[..n];
  }

  lemma OpeningAdmits(p: B.Poll, b: Ballot)
    requires B.AllGenuine(p, [b])
    ensures var open := B.Operate(p, B.NewBox(0, 0.0), B.DoOpen, 0.0);
            && open.registry.accepted == [] && !open.closed && open.interval == 0
            && B.Operate(p, open, B.DoLook, 0.0) == open
            && B.Operate(p, open, B.DoSubmit(b), 0.0).registry.accepted == [b]
  {
    var open := B.Operate(p, B.NewBox(0, 0.0), B.DoOpen, 0.0);
    assert open.acts[0].phase == "opened";
    assert B.RecordDigests(p, []) == {};
    assert [b][0] == b;
  }

  lemma ClosingKeeps(p: B.Poll, s: B.Box)
    ensures var closed := B.Operate(p, s, B.DoClose(0.0), 0.0);
            && closed.closed && closed.registry == s.registry && B.Operate(p, closed, B.DoLook, 0.0) == closed
  {
    B.CatchUpKeepsRegistry(p, s, 0.0);
  }

  /** The box ends closed with its one ballot, and was seen both without it and with it. */
  lemma RunEnds(p: B.Poll, b: Ballot)
    requires B.AllGenuine(p, [b])
    ensures var s, run := B.NewBox(0, 0.0), RunOf(b);
            && B.OperateAll(p, s, run[..2]).registry.accepted == []
            && B.OperateAll(p, s, run).registry.accepted == [b] && B.OperateAll(p, s, run).closed
            && B.SeenHolding(p, s, run, 0) && B.SeenHolding(p, s, run, 1)
  {
    var s, run := B.NewBox(0, 0.0), RunOf(b);
    OpeningAdmits(p, b);
    RunStates(p, s, run);
    ClosingKeeps(p, B.OperateAll(p, s, run[..3]));
    assert run[..5] == run;
    SeenStep(p, s, run, 1, 0);
    SeenStep(p, s, run, 2, 0);
    SeenStep(p, s, run, 3, 0);
    SeenStep(p, s, run, 4, 0);
    SeenStep(p, s, run, 4, 1);
  }

  lemma RunStates(p: B.Poll, s: B.Box, run: Run)
    requires |run| == 5
    ensures forall n :: 0 <= n < 5 ==>
      B.OperateAll(p, s, run[..n + 1]) == B.Operate(p, B.OperateAll(p, s, run[..n]), run[n].0, run[n].1)
    ensures B.OperateAll(p, s, run[..0]) == s
  {
    forall n | 0 <= n < 5
      ensures B.OperateAll(p, s, run[..n + 1]) == B.Operate(p, B.OperateAll(p, s, run[..n]), run[n].0, run[n].1)
    {
      RunStep(p, s, run, n);
    }
  }

  // ---- the files ----------------------------------------------------------------------------------

  lemma FirstInputs(c: Config, p: B.Poll, b: Ballot)
    requires p.text(b) == RecordText(b)
    ensures InputAt(p.link, p.text, [b], 0) == HashInput(0, RecordText(b), GENESIS)
    ensures InputFrom(c.link, GENESIS, [ToDict(b)], 0) == HashInput(0, RecordText(b), GENESIS)
  {
  }

  lemma OneEntryNoCollision(c: Config, p: B.Poll, records: seq<Object>, b: Ballot)
    requires records == [] || records == [ToDict(b)]
    requires p.text(b) == RecordText(b) && c.h(HashInput(0, RecordText(b), GENESIS)) != GENESIS
    ensures NoCollisionFrom(c, p, GENESIS, records, [b])
  {
    FirstInputs(c, p, b);
    assert |records| <= 1;
  }

  lemma HonestRecord(p: B.Poll, rows: seq<Verifiers.Row>, b: Ballot)
    requires HonestRows(p, rows, [b]) || HonestRows(p, rows, [])
    ensures Records(rows) == [] || Records(rows) == [ToDict(b)]
    ensures forall i :: 0 <= i < |rows| ==> DistinctKeys(rows[i].record)
  {
    BallotKeysDistinct(b);
  }

  /** A file over this run whose head is one of the two is as it is supposed. */
  lemma SmallFileSupposed(c: Config, p: B.Poll, start: B.Box, run: Run, b: Ballot, ledger: LedgerFile, k: nat)
    requires AcceptedAfter(p, start, run) == [b] && B.SeenHolding(p, start, run, k) && k <= 1
    requires HonestRows(p, ledger.accepted, [b]) || HonestRows(p, ledger.accepted, [])
    requires ledger.genesis == GENESIS && ledger.head == HeadAt(p.link, [b], k)
    requires IsSha256(c.h) && p.text(b) == RecordText(b) && c.h(HashInput(0, RecordText(b), GENESIS)) != GENESIS
    requires HeadStandsOut(c, p, start, run, ledger.head)
    ensures Supposed(c, p, start, run, ledger)
  {
    HonestRecord(p, ledger.accepted, b);
    OneEntryNoCollision(c, p, Records(ledger.accepted), b);
    SeenIsUnforged(c, p, start, run, k, ledger.headSignature);
  }

  lemma HashIsLong()
    ensures IsSha256(Hash)
  {
  }

  lemma EntryHash(x: string)
    requires x == EntryText()
    ensures Hash(x) == Fill('a') != GENESIS
  {
    assert GENESIS[0] == 0 as char;
  }

  /** What TheConfig and ThePoll are, as far as the files go. */
  lemma TheParts()
    ensures var c, p := TheConfig(), ThePoll();
            && c.h == Hash && p.h == Hash && Computes(p.link, Hash, p.text) && p.electionId == ELECTION
            && p.text(TheBallot()) == RecordText(TheBallot())
  {
    B.MadePollIsSound(ELECTION, 1, Hash, (k, t) => true, Same, Fill('x'), m => m);
  }

  lemma TheHeadsStandOut(start: B.Box, run: Run, head: Bytes)
    requires head == Fill('a') || head == GENESIS
    ensures HeadStandsOut(TheConfig(), ThePoll(), start, run, head)
  {
    forall st ensures Payload(Hash, st) == Payload(Hash, B.HeadStatement(ThePoll(), "accepted", head))
                  ==> StatementText(st) == StatementText(B.HeadStatement(ThePoll(), "accepted", head)) {
      HeadsStandOut(head, StatementText(st));
    }
  }

  /** The file of a closed box with one ballot, and the same cut back to when it had none. */
  lemma BothFilesPass(c: Config, p: B.Poll, a: O.Authority, o: O.Office, s: B.Box, seen: B.Box, b: Ballot)
    requires Describes(c, p, a) && s.closed && s.registry.accepted == [b] && seen.registry.accepted == []
    requires B.AllGenuine(p, [b]) && |o.log| == 1
    ensures LedgerDump(c, p, s).Some?
    ensures var whole, releases := LedgerDump(c, p, s).value, ReleasesDump(c, a, o);
            var cut := CutBack(whole, B.ViewOf(p, seen));
            && HonestRows(p, whole.accepted, [b]) && Headed(c, p, whole, [b])
            && HonestRows(p, cut.accepted, []) && Headed(c, p, cut, [])
            && Readable(whole.accepted) && VerdictsOf(c, whole, releases).AllHold()
            && Readable(cut.accepted) && VerdictsOf(c, cut, releases).AllHold()
  {
    DumpedFile(c, p, a, s);
    var whole := LedgerDump(c, p, s).value;
    CutFile(c, p, a, whole, [b], seen);
    B.VotersAtMostBallots([b]);
    HonestFilePasses(c, p, a, whole, o, [b]);
    HonestFilePasses(c, p, a, CutBack(whole, B.ViewOf(p, seen)), o, []);
  }

  /** Everything that is supposed can hold at once, of a complete file and of one cut short: both pass
      every check, and the published count tells them apart. */
  lemma SuppositionsCanHold()
    returns (c: Config, p: B.Poll, a: O.Authority, start: B.Box, run: Run, releases: ReleasesFile,
             whole: LedgerFile, cut: LedgerFile)
    ensures Describes(c, p, a)
    ensures Supposed(c, p, start, run, whole) && Supposed(c, p, start, run, cut)
    ensures Readable(whole.accepted) && VerdictsOf(c, whole, releases).AllHold()
    ensures Readable(cut.accepted) && VerdictsOf(c, cut, releases).AllHold()
    ensures |whole.accepted| == |AcceptedAfter(p, start, run)| == 1 && |cut.accepted| == 0
    ensures Grounded(whole) && Grounded(cut)
  {
    c, p, a, start, run := TheConfig(), ThePoll(), TheOffice(), B.NewBox(0, 0.0), RunOf(TheBallot());
    var b, o := TheBallot(), O.NewOffice(false).(log := [""]);
    var s, seen := B.OperateAll(p, start, run), B.OperateAll(p, start, run[..2]);
    Described();
    TheParts();
    HashIsLong();
    EntryHash(HashInput(0, RecordText(b), GENESIS));
    TheBallotIsGenuine();
    RunEnds(p, b);
    OneEntry(p, b);
    whole, releases := LedgerDump(c, p, s).value, ReleasesDump(c, a, o);
    cut := CutBack(whole, B.ViewOf(p, seen));
    BothFilesPass(c, p, a, o, s, seen, b);
    TheHeadsStandOut(start, run, Fill('a'));
    TheHeadsStandOut(start, run, GENESIS);
    SmallFileSupposed(c, p, start, run, b, whole, 1);
    SmallFileSupposed(c, p, start, run, b, cut, 0);
  }
}
