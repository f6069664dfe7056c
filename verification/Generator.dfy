/** Filling an election: every token issued by the office, every ballot cast into the box, the box
    closed, on the very objects a real election uses. */
module Generators {
  import opened Base64
  import opened Statements
  import opened GeneratorModel
  import opened Octets
  import V = VoterSide
  import S = BlindSignature
  import Pss = PssEncoding
  import O = OfficeModel
  import B = BoxModel
  import Offices
  import BallotBoxes

  /** What the citizens bring to the office: blinded keys, wallet signatures; and what the office
      draws and computes for each. */
  datatype Tickets = Tickets(blinded: string -> Bytes, wallet: string -> Bytes, opening: string -> Bytes,
                             raw: string -> Bytes, now: int)

  /** What they bring to the box. */
  datatype Voters = Voters(key: string -> Bytes, token: string -> Bytes, nonce: nat -> Bytes,
                           sign: (string, Bytes) -> Bytes)

  // ---- issuing --------------------------------------------------------------------------

  /** The office has no reason to refuse this citizen. */
  ghost predicate Entitled(a: O.Authority, t: Tickets, id: string) {
    && O.Identified(a, id, t.blinded(id), t.wallet(id))
    && !a.lookup(id).value.revoked && !a.lookup(id).value.expired(t.now)
  }

  /** The keys of the election: the office's pair with its primes, and the hash of the token scheme. */
  datatype Scheme = Scheme(hash: Pss.HashFunction, pub: S.PublicKey, priv: S.PrivateKey, p: nat, q: nat)

  /** What each citizen draws for blinding. */
  datatype Blinds = Blinds(salt: string -> Octets, factor: string -> nat)

  ghost predicate InForce(k: Scheme, a: O.Authority, p: B.Poll) {
    Pss.IsHash(k.hash) && S.IsKeyPair(k.pub, k.priv, k.p, k.q) && k.pub.n > 0 && V.OneKey(a, p, k.hash, k.pub)
  }

  /** What this citizen brings to the office is their blinded key; what the office answers is its
      signature on that; and what they bring to the box is what the answer unblinds to. */
  ghost predicate AsksAndUnblinds(k: Scheme, t: Tickets, w: Voters, x: Blinds, id: string)
    requires Pss.IsHash(k.hash) && k.priv.n > 0
  {
    && |x.salt(id)| == Pss.SALT_LEN && 1 <= x.factor(id) < k.pub.n
    && V.GrantFor(k.hash, k.pub, k.priv, w.key(id), x.salt(id), x.factor(id))
       == Some(V.Grant(t.blinded(id), t.raw(id), w.token(id)))
  }

  lemma AnswerHolds(k: Scheme, a: O.Authority, p: B.Poll, t: Tickets, w: Voters, x: Blinds, id: string)
    requires InForce(k, a, p) && AsksAndUnblinds(k, t, w, x, id)
    ensures a.passes(t.blinded(id), t.raw(id)) && p.tokenOk(w.key(id), w.token(id))
  {
    V.GrantHolds(a, p, k.hash, k.pub, k.priv, k.p, k.q, w.key(id), x.salt(id), x.factor(id));
  }

  function IssueTo(a: O.Authority, s: O.Office, t: Tickets, id: string): O.Step {
    O.Issue(a, s, id, t.blinded(id), t.wallet(id), t.now, t.opening(id), Some(t.raw(id)))
  }

  /** Nobody waits, and these have been released to, out of a register of those. */
  ghost predicate Issuing(s: O.Office, register: set<string>, released: seq<string>) {
    && s.register == register && s.reserved == map[] && |s.log| == |released|
    && forall id {:trigger id in s.released} :: id in s.released <==> id in released
  }

  lemma IssueSucceeds(a: O.Authority, s: O.Office, t: Tickets, id: string, register: set<string>, released: seq<string>)
    requires Issuing(s, register, released) && Entitled(a, t, id) && id in register && id !in released
    requires a.passes(t.blinded(id), t.raw(id))
    ensures IssueTo(a, s, t, id).answer == O.Told(O.Issued, Some(t.raw(id)))
    ensures Issuing(IssueTo(a, s, t, id).office, register, released + [id])
  {
    var held := O.Reserve(a, s, id, t.blinded(id), t.wallet(id), t.now);
    ReserveSucceeds(a, s, t, id);
    var r := O.Request(id, t.blinded(id), O.Wallet(t.wallet(id)));
    var u := O.Release(a, held.office, r, t.opening(id), Some(t.raw(id))).office;
    assert u.reserved == map[id := t.blinded(id)] - {id} == map[];
  }

  lemma ReserveSucceeds(a: O.Authority, s: O.Office, t: Tickets, id: string)
    requires Entitled(a, t, id) && id in s.register && id !in s.released && s.reserved == map[]
    ensures var held := O.Reserve(a, s, id, t.blinded(id), t.wallet(id), t.now);
            && held.answer == O.Told(O.Reserved, None)
            && O.SameBooks(s.(reserved := map[id := t.blinded(id)]), held.office)
  {
    assert s.reserved[id := t.blinded(id)] == map[id := t.blinded(id)];
  }

  // ---- casting ----------------------------------------------------------------------------

  /** `cast`. */
  function CastBallot(p: B.Poll, w: Voters, v: string, selection: int, k: nat): Ballot {
    Ballot(selection, w.key(v), w.token(v), w.nonce(k),
           w.sign(v, p.payload(Vote(selection, w.key(v), w.nonce(k)))))
  }

  function BallotsOf(p: B.Poll, w: Voters, draws: Draws, chosen: map<string, int>): (ballots: seq<Ballot>)
    requires forall v :: v in draws.events ==> v in chosen
    ensures |ballots| == |draws.events|
  {
    seq(|draws.events|, k requires 0 <= k < |draws.events| =>
      CastBallot(p, w, draws.events[k], SelectionAt(draws, chosen, k), k))
  }

  /** Tokens verify for the keys they were issued for, and signatures for the keys they are made with. */
  ghost predicate HonestVoters(p: B.Poll, w: Voters, citizens: seq<string>) {
    && (forall v {:trigger w.token(v)} :: v in citizens ==> p.tokenOk(w.key(v), w.token(v)))
    && (forall v, m {:trigger w.sign(v, m)} :: v in citizens ==> p.verify(w.key(v), w.sign(v, m), m))
  }

  lemma CastIsGenuine(p: B.Poll, w: Voters, citizens: seq<string>, v: string, selection: int, k: nat)
    requires HonestVoters(p, w, citizens) && v in citizens
    ensures var b := CastBallot(p, w, v, selection, k);
            p.tokenOk(b.adhocKey, b.token) && p.verify(b.adhocKey, b.signature, p.payload(B.VoteStatement(b)))
  {
    assert p.tokenOk(w.key(v), w.token(v));
  }

  lemma BallotsAreGenuine(p: B.Poll, w: Voters, draws: Draws, chosen: map<string, int>, citizens: seq<string>)
    requires HonestVoters(p, w, citizens)
    requires forall v :: v in draws.events ==> v in chosen && v in citizens
    ensures B.AllGenuine(p, BallotsOf(p, w, draws, chosen))
  {
    var ballots := BallotsOf(p, w, draws, chosen);
    forall k | 0 <= k < |ballots|
      ensures p.tokenOk(ballots[k].adhocKey, ballots[k].token)
      ensures p.verify(ballots[k].adhocKey, ballots[k].signature, p.payload(B.VoteStatement(ballots[k])))
    {
      CastIsGenuine(p, w, citizens, draws.events[k], SelectionAt(draws, chosen, k), k);
    }
  }

  /** `last_at`. */
  method LastAt(events: seq<string>) returns (last: map<string, nat>)
    ensures forall k :: 0 <= k < |events| ==> events[k] in last && (last[events[k]] == k <==> IsLast(events, k))
  {
    last := map[];
    for i := 0 to |events|
      invariant forall k :: 0 <= k < i ==> events[k] in last && k <= last[events[k]] < i
      invariant forall v :: v in last ==> last[v] < i && events[last[v]] == v
    {
      last := last[events[i] := i];
    }
    forall k | 0 <= k < |events| ensures last[events[k]] == k <==> IsLast(events, k) {
      if last[events[k]] == k {
        forall j | k < j < |events| ensures events[j] != events[k] {
          assert j <= last[events[j]];
        }
      }
    }
  }

  /** `dict(zip(casting, final))`. */
  method Zip(casting: seq<string>, final: seq<int>) returns (chosen: map<string, int>)
    requires |casting| == |final|
    ensures chosen == Chosen(casting, final, |casting|)
  {
    chosen := map[];
    for i := 0 to |casting|
      invariant chosen == Chosen(casting, final, i)
    {
      chosen := chosen[casting[i] := final[i]];
    }
  }

  // ---- an open box takes a genuine ballot ---------------------------------------------------

  /** The box is open and has accepted these and rejected none. */
  ghost predicate Taking(s: B.Box, accepted: seq<Ballot>) {
    B.Opened(s) && !s.closed && s.registry == B.Registry(accepted, [])
  }

  lemma SubmitTakes(p: B.Poll, s: B.Box, ballots: seq<Ballot>, k: nat, now: real)
    requires AreGenuine(p, ballots) && k < |ballots| && Taking(s, ballots[..k])
    ensures Taking(B.Submit(p, s, ballots[k], now), ballots[..k + 1])
    ensures B.SubmitAnswer(p, s, ballots[k], now).accepted
  {
    B.CatchUpKeepsRegistry(p, s, now);
    NextAccepted(p, ballots, k);
    assert ballots[..k + 1] == ballots[..k] + [ballots[k]];
  }

  lemma OpenTakes(p: B.Poll, interval: nat, start: real, now: real)
    ensures B.Open(p, B.NewBox(interval, start), now).Some?
    ensures Taking(B.Open(p, B.NewBox(interval, start), now).value, [])
  {
    var box := B.Open(p, B.NewBox(interval, start), now).value;
    assert box.acts[0].phase == "opened";
  }

  lemma CloseKeeps(p: B.Poll, s: B.Box, accepted: seq<Ballot>, now: real, declared: real)
    requires Taking(s, accepted)
    ensures var c := B.Close(p, s, now, declared);
            && c.closed && c.registry == B.Registry(accepted, [])
            && B.Tally(p, c) == Some(B.FinalCount(p.count(c.registry)))
            && c.snapshots != [] && c.snapshots[|c.snapshots| - 1].figures == p.count(c.registry)
  {
    B.CatchUpKeepsRegistry(p, s, now);
  }

  // ---- populate, phase by phase --------------------------------------------------------------

  /** `_enrol_quietly`, as far as the office. */
  method EnrolAll(vro: Offices.VRO, citizens: seq<string>)
    requires vro.Valid() && Issuing(vro.State(), {}, [])
    modifies vro`register
    ensures vro.Valid() && Issuing(vro.State(), Elements(citizens), [])
  {
    for i := 0 to |citizens|
      invariant vro.Valid() && Issuing(vro.State(), Elements(citizens[..i]), [])
    {
      vro.Enrol(citizens[i]);
      assert citizens[..i + 1] == citizens[..i] + [citizens[i]];
      assert Elements(citizens[..i + 1]) == Elements(citizens[..i]) + {citizens[i]};
    }
    assert citizens[..|citizens|] == citizens;
  }

  /** First the tokens, asked for in a shuffled order. False where the office refuses. */
  method IssueAll(vro: Offices.VRO, issuance: seq<string>, t: Tickets, ghost register: set<string>) returns (ok: bool)
    requires vro.Valid() && Issuing(vro.State(), register, []) && AllDistinct(issuance)
    requires forall id :: id in issuance ==> id in register && Entitled(vro.authority, t, id)
    requires forall id :: id in issuance ==> vro.authority.passes(t.blinded(id), t.raw(id))
    modifies vro, vro.releaseLog
    ensures vro.Valid() && ok && Issuing(vro.State(), register, issuance)
  {
    for i := 0 to |issuance|
      invariant vro.Valid() && Issuing(vro.State(), register, issuance[..i])
    {
      var id := issuance[i];
      assert id in issuance && id !in issuance[..i];
      ghost var before := vro.State();
      IssueSucceeds(vro.authority, before, t, id, register, issuance[..i]);
      var answer := vro.IssueToken(id, t.blinded(id), t.wallet(id), t.now, t.opening(id), Some(t.raw(id)));
      if answer != O.Told(O.Issued, Some(t.raw(id))) {
        return false;
      }
      assert issuance[..i + 1] == issuance[..i] + [id];
    }
    assert issuance[..|issuance|] == issuance;
    return true;
  }

  /** Then the ballots, submitted in another shuffled order. False where the box refuses. */
  method CastAll(box: BallotBoxes.BallotBox, w: Voters, draws: Draws, chosen: map<string, int>, clock: nat -> real)
    returns (ok: bool)
    requires box.Valid() && Taking(box.State(), [])
    requires forall v :: v in draws.events ==> v in chosen
    requires AreGenuine(box.poll, BallotsOf(box.poll, w, draws, chosen))
    modifies box, box.accepted, box.rejected
    ensures box.Valid() && ok && Taking(box.State(), BallotsOf(box.poll, w, draws, chosen))
  {
    ghost var ballots := BallotsOf(box.poll, w, draws, chosen);
    var last := LastAt(draws.events);
    for k := 0 to |draws.events|
      invariant box.Valid() && Taking(box.State(), ballots[..k])
    {
      var v := draws.events[k];
      var selection := if last[v] == k then chosen[v] else draws.superseded(k);
      assert selection == SelectionAt(draws, chosen, k);
      SubmitTakes(box.poll, box.State(), ballots, k, clock(k));
      var answer := box.Submit(CastBallot(box.poll, w, v, selection, k), clock(k));
      if !answer.accepted {
        return false;
      }
    }
    assert ballots[..|draws.events|] == ballots;
    return true;
  }

  /** A citizen's signatures verify under their ad-hoc key. */
  ghost predicate SignForThemselves(p: B.Poll, w: Voters, citizens: seq<string>) {
    forall v, m {:trigger w.sign(v, m)} :: v in citizens ==> p.verify(w.key(v), w.sign(v, m), m)
  }

  /** Everybody plays their part: the citizens are entitled, ask with their blinded keys and unblind
      the office's answers, their keys differ, they sign for themselves, and no two records have the
      same digest. */
  ghost predicate EverybodyHonest(a: O.Authority, p: B.Poll, d: Distribution, draws: Draws, t: Tickets, w: Voters,
                                  k: Scheme, x: Blinds)
    requires Check(d, p.numChoices) && AreDrawn(d, draws)
  {
    && InForce(k, a, p)
    && DistinctSelections(d.perOption) && DistinctSelections(d.protest)
    && (forall id :: id in draws.issuance ==> Entitled(a, t, id))
    && (forall id :: id in draws.issuance ==> AsksAndUnblinds(k, t, w, x, id))
    && SignForThemselves(p, w, draws.issuance)
    && DifferentKeys(Casting(d, draws), w.key)
    && (forall v :: v in draws.events ==> v in TheChoice(d, draws))
    && DigestsDiffer(p, BallotsOf(p, w, draws, TheChoice(d, draws)))
  }

  lemma AnswersHold(k: Scheme, a: O.Authority, p: B.Poll, t: Tickets, w: Voters, x: Blinds, citizens: seq<string>)
    requires InForce(k, a, p) && SignForThemselves(p, w, citizens)
    requires forall id :: id in citizens ==> AsksAndUnblinds(k, t, w, x, id)
    ensures forall id :: id in citizens ==> a.passes(t.blinded(id), t.raw(id))
    ensures HonestVoters(p, w, citizens)
  {
    forall id | id in citizens ensures a.passes(t.blinded(id), t.raw(id)) && p.tokenOk(w.key(id), w.token(id)) {
      AnswerHolds(k, a, p, t, w, x, id);
    }
  }

  ghost predicate DigestsDiffer(p: B.Poll, ballots: seq<Ballot>) {
    forall i, j :: 0 <= i < j < |ballots| ==> B.RecordDigest(p, ballots[i]) != B.RecordDigest(p, ballots[j])
  }

  /** Every casting citizen's own selection. */
  function TheChoice(d: Distribution, draws: Draws): map<string, int>
    requires 0 <= d.abstentions <= |draws.orderBlind|
  {
    var casting := Casting(d, draws);
    Chosen(casting, draws.final, if |casting| <= |draws.final| then |casting| else |draws.final|)
  }

  lemma ChoiceCovers(d: Distribution, draws: Draws, n: int)
    requires Check(d, n) && DistinctSelections(d.perOption) && DistinctSelections(d.protest) && AreDrawn(d, draws)
    ensures |Casting(d, draws)| == |draws.final|
    ensures forall v :: v in draws.events ==> v in TheChoice(d, draws) && v in draws.issuance
  {
    CastingIsRight(d, draws);
    EverybodyCastsSomething(d, draws, n);
    var casting := Casting(d, draws);
    forall v | v in draws.events ensures v in TheChoice(d, draws) {
      var i :| 0 <= i < |casting| && casting[i] == v;
      ChosenAt(casting, draws.final, |casting|, i);
    }
  }

  lemma BallotsAreCast(p: B.Poll, w: Voters, d: Distribution, draws: Draws, n: int)
    requires Check(d, n) && DistinctSelections(d.perOption) && DistinctSelections(d.protest) && AreDrawn(d, draws)
    ensures forall v :: v in draws.events ==> v in TheChoice(d, draws)
    ensures AreCast(draws, Casting(d, draws), w.key, BallotsOf(p, w, draws, TheChoice(d, draws)))
  {
    ChoiceCovers(d, draws, n);
  }

  /** The ballots cast and the box closed: the plan is met. */
  method CastAndClose(box: BallotBoxes.BallotBox, d: Distribution, draws: Draws, w: Voters, clock: nat -> real)
    returns (ok: bool)
    requires box.Valid() && Taking(box.State(), [])
    requires Check(d, box.poll.numChoices) && AreDrawn(d, draws)
    requires DistinctSelections(d.perOption) && DistinctSelections(d.protest)
    requires DifferentKeys(Casting(d, draws), w.key) && HonestVoters(box.poll, w, draws.issuance)
    requires (forall v :: v in draws.events ==> v in TheChoice(d, draws))
             && DigestsDiffer(box.poll, BallotsOf(box.poll, w, draws, TheChoice(d, draws)))
    modifies box, box.accepted, box.rejected
    ensures box.Valid() && ok && box.closed
    ensures |box.accepted.records| == CastingCount(d) + d.revotes && box.rejected.records == []
    ensures MeetsPlan(box.poll.count(box.State().registry), d, box.poll.numChoices)
    ensures B.Tally(box.poll, box.State()) == Some(B.FinalCount(box.poll.count(box.State().registry)))
  {
    ghost var p := box.poll;
    ChoiceCovers(d, draws, p.numChoices);
    var chosen := Zip(Casting(d, draws), draws.final);
    BallotsAreGenuine(p, w, draws, chosen, draws.issuance);
    ok := CastAll(box, w, draws, chosen, clock);
    ghost var ballots := BallotsOf(p, w, draws, chosen);
    CloseKeeps(p, box.State(), ballots, clock(|draws.events|), clock(|draws.events| + 1));
    box.Close(clock(|draws.events|), clock(|draws.events| + 1));
    BallotsAreCast(p, w, d, draws, p.numChoices);
    PlanIsMet(p, d, draws, w.key, ballots);
  }

  /** `populate`: the election is filled, and closed. It ends as planned for every outcome of the
      draws: the published figures are the plan's, everything submitted was accepted, and the office
      has logged one release for every citizen. */
  method Populate(vro: Offices.VRO, box: BallotBoxes.BallotBox, d: Distribution, draws: Draws, t: Tickets, w: Voters,
                  clock: nat -> real, ghost k: Scheme, ghost x: Blinds)
    returns (ok: bool)
    requires vro.Valid() && Issuing(vro.State(), {}, [])
    requires box.Valid() && exists interval, start :: box.State() == B.NewBox(interval, start)
    requires Check(d, box.poll.numChoices) ==>
               AreDrawn(d, draws) && EverybodyHonest(vro.authority, box.poll, d, draws, t, w, k, x)
    modifies vro, vro.releaseLog, box, box.accepted, box.rejected
    ensures vro.Valid() && box.Valid() && (ok <==> Check(d, box.poll.numChoices))
    ensures ok ==>
              && box.closed && |box.accepted.records| == CastingCount(d) + d.revotes && box.rejected.records == []
              && MeetsPlan(box.poll.count(box.State().registry), d, box.poll.numChoices)
              && B.Tally(box.poll, box.State()) == Some(B.FinalCount(box.poll.count(box.State().registry)))
              && |vro.releaseLog.records| == Citizens(d)
    ensures !ok ==> vro.State() == old(vro.State()) && box.State() == old(box.State())
  {
    if !Check(d, box.poll.numChoices) {
      return false;
    }
    var citizens := Identifiers(Citizens(d));
    EnrolAll(vro, citizens);
    ghost var interval, start :| box.State() == B.NewBox(interval, start);
    OpenTakes(box.poll, interval, start, clock(0));
    var _ := box.Open(clock(0));
    CastingIsRight(d, draws);
    SameMultisetSameSize(draws.issuance, citizens);
    AnswersHold(k, vro.authority, box.poll, t, w, x, draws.issuance);
    ok := IssueAll(vro, draws.issuance, t, Elements(citizens));
    ok := CastAndClose(box, d, draws, w, clock);
  }
}
