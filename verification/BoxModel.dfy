/** What the ballot box does, as steps over its state: admission, counting, the publication
    cadence and the phases. The class BallotBox is proved against these steps. */
module BoxModel {
  import opened Base64
  import opened HashChains
  import opened Ledgers
  import opened Statements

  const BOX_CLOSED := "voting has closed"
  const ALREADY_ACCEPTED := "already accepted"
  const NOT_OPEN := "the poll has not opened"
  const BAD_TOKEN := "token not signed by VRO"
  const BAD_SIGNATURE := "vote signature invalid"

  datatype Rejection = Rejection(ballot: Ballot, reason: string)

  /** What is fixed about a poll and its box: the hash, how records and statements are turned into
      bytes, the two verifiers, the box's own statement key and signature, and how it counts. */
  datatype Poll = Poll(
    electionId: string,
    numChoices: int,
    h: HashFunction,
    text: Serialiser<Ballot>,
    rejectedText: Serialiser<Rejection>,
    payload: Statement -> Bytes,
    tokenOk: (Bytes, Bytes) -> bool,
    verify: (Bytes, Bytes, Bytes) -> bool,
    statementKey: Bytes,
    sign: Bytes -> Bytes,
    link: Link<Ballot>,
    rejectedLink: Link<Rejection>,
    count: Registry -> Figures)

  // ---- admission -------------------------------------------------------------

  datatype Registry = Registry(accepted: seq<Ballot>, rejected: seq<Rejection>)

  function VoteStatement(b: Ballot): Statement { Vote(b.selection, b.adhocKey, b.nonce) }

  /** `digest(ballot.to_dict())`. */
  function RecordDigest(p: Poll, b: Ballot): Bytes { p.h(p.text(b)) }

  function RecordDigests(p: Poll, accepted: seq<Ballot>): set<Bytes> {
    set i | 0 <= i < |accepted| :: RecordDigest(p, accepted[i])
  }

  /** Why a submission is refused, or None. */
  function Objection(p: Poll, accepted: seq<Ballot>, b: Ballot): Option<string> {
    if !p.tokenOk(b.adhocKey, b.token) then Some(BAD_TOKEN)
    else if !p.verify(b.adhocKey, b.signature, p.payload(VoteStatement(b))) then Some(BAD_SIGNATURE)
    else if RecordDigest(p, b) in RecordDigests(p, accepted) then Some(ALREADY_ACCEPTED)
    else None
  }

  function Admit(p: Poll, r: Registry, b: Ballot): Registry {
    match Objection(p, r.accepted, b)
    case None => r.(accepted := r.accepted + [b])
    case Some(reason) => r.(rejected := r.rejected + [Rejection(b, reason)])
  }

  // ---- counting --------------------------------------------------------------

  /** Last accepted ballot per ad-hoc key. The source keys its dict by the base64 text of the
      key, which is the same thing. */
  function Effective(accepted: seq<Ballot>): map<Bytes, Ballot> {
    if accepted == [] then map[]
    else
      var last := accepted[|accepted| - 1];
      Effective(accepted[..|accepted| - 1])[last.adhocKey := last]
  }

  /** The keys whose effective ballot carries this selection. */
  function Choosing(latest: map<Bytes, Ballot>, selection: int): set<Bytes> {
    set k | k in latest && latest[k].selection == selection
  }

  function OnTheList(numChoices: int, latest: map<Bytes, Ballot>): set<Bytes> {
    set k | k in latest && 1 <= latest[k].selection <= numChoices
  }

  function ProtestSelections(numChoices: int, latest: map<Bytes, Ballot>): set<int> {
    set k | k in latest && !(1 <= latest[k].selection <= numChoices) :: latest[k].selection
  }

  function OptionCounts(numChoices: int, latest: map<Bytes, Ballot>): map<int, nat> {
    map i | 1 <= i <= numChoices :: |Choosing(latest, i)|
  }

  function ProtestCodes(numChoices: int, latest: map<Bytes, Ballot>): map<int, nat> {
    map s | s in ProtestSelections(numChoices, latest) :: |Choosing(latest, s)|
  }

  datatype Figures = Figures(counts: map<int, nat>, valid: nat, invalid: nat, protestCodes: map<int, nat>,
                             voters: nat, rejected: nat, ledgerHead: Bytes)

  /** `_count`. */
  function FiguresOf(numChoices: int, link: Link<Ballot>, r: Registry): Figures {
    var latest := Effective(r.accepted);
    var valid := OnTheList(numChoices, latest);
    Figures(
      OptionCounts(numChoices, latest),
      |valid|,
      |latest.Keys - valid|,
      ProtestCodes(numChoices, latest),
      |latest|,
      |r.rejected|,
      Head(link, r.accepted))
  }

  /** The poll counts as `_count` does. */
  ghost predicate CountsVotes(p: Poll) {
    forall r: Registry {:trigger FiguresOf(p.numChoices, p.link, r)} :: p.count(r) == FiguresOf(p.numChoices, p.link, r)
  }

  // ---- state -----------------------------------------------------------------

  datatype Act = Act(phase: string, at: int, signature: Bytes)

  datatype Snapshot = Snapshot(at: int, afterAccepted: nat, figures: Figures)

  /** `interval` is 0 when no cadence is configured. */
  datatype Box = Box(interval: nat, registry: Registry, closed: bool, acts: seq<Act>, snapshots: seq<Snapshot>,
                     anchor: int, next: int)

  datatype Answer = Answer(accepted: bool, reason: string, entryHash: Bytes, index: Option<int>, signature: Bytes)

  predicate HasAct(acts: seq<Act>, phase: string) {
    exists i :: 0 <= i < |acts| && acts[i].phase == phase
  }

  predicate Opened(s: Box) { HasAct(s.acts, "opened") }

  /** Instants are floored to the second. */
  function Seconds(now: real): int { now.Floor }

  function NewBox(interval: nat, now: real): Box {
    Box(interval, Registry([], []), false, [], [], Seconds(now), Seconds(now) + interval)
  }

  function Publish(p: Poll, s: Box, at: int): Box {
    s.(snapshots := s.snapshots + [Snapshot(at, |s.registry.accepted|, p.count(s.registry))])
  }

  function Declare(p: Poll, s: Box, phase: string, now: real): Box {
    var at := Seconds(now);
    s.(acts := s.acts + [Act(phase, at, p.sign(p.payload(PollPhase(p.electionId, phase, at))))])
  }

  /** `_catch_up`: every boundary the clock has passed, in order. */
  function CatchUp(p: Poll, s: Box, now: real): Box
    decreases if s.next <= Seconds(now) then Seconds(now) - s.next + 1 else 0
  {
    if s.closed || s.interval == 0 || now < s.next as real then s
    else CatchUp(p, Publish(p, s, s.next).(next := s.next + s.interval), now)
  }

  /** `open`; None where it raises. */
  function Open(p: Poll, s: Box, now: real): Option<Box> {
    if Opened(s) then None
    else Some(Declare(p, s, "opened", now).(anchor := Seconds(now), next := Seconds(now) + s.interval))
  }

  /** `close`. It may be called twice, or on a box never opened. The clock is read twice: for
      catching up, and again for the closing act. */
  function Close(p: Poll, s: Box, now: real, declared: real): Box {
    Publish(p, Declare(p, CatchUp(p, s, now), "closed", declared), Seconds(declared)).(closed := true)
  }

  /** `set_publication_interval`; None where it raises. */
  function SetInterval(s: Box, seconds: nat, now: real): Option<Box> {
    if Opened(s) then None
    else Some(s.(interval := seconds, anchor := Seconds(now), next := Seconds(now) + seconds))
  }

  /** `submit`, the state. */
  function Submit(p: Poll, s: Box, b: Ballot, now: real): Box {
    var c := CatchUp(p, s, now);
    if !Opened(c) || c.closed then c else c.(registry := Admit(p, c.registry, b))
  }

  function ReceiptFor(p: Poll, accepted: bool, reason: string, index: Option<int>, entryHash: Bytes): Answer {
    Answer(accepted, reason, entryHash, index,
            p.sign(p.payload(Statement.Receipt(p.electionId, accepted, reason, index, entryHash))))
  }

  /** `submit`, the signed receipt. A record's receipt carries its own entry hash and position, in
      whichever registry it went to. */
  function SubmitAnswer(p: Poll, s: Box, b: Ballot, now: real): Answer {
    var c := CatchUp(p, s, now);
    var r := c.registry;
    if !Opened(c) then ReceiptFor(p, false, NOT_OPEN, None, "")
    else if c.closed then ReceiptFor(p, false, BOX_CLOSED, None, "")
    else
      match Objection(p, r.accepted, b)
      case Some(reason) =>
        ReceiptFor(p, false, reason, Some(|r.rejected|), Head(p.rejectedLink, r.rejected + [Rejection(b, reason)]))
      case None =>
        ReceiptFor(p, true, "accepted", Some(|r.accepted|), Head(p.link, r.accepted + [b]))
  }

  // ---- admission is a function of the submissions alone ------------------------

  function AdmitAll(p: Poll, r: Registry, bs: seq<Ballot>): Registry {
    if bs == [] then r else Admit(p, AdmitAll(p, r, bs[..|bs| - 1]), bs[|bs| - 1])
  }

  lemma AdmitAllAppend(p: Poll, r: Registry, bs: seq<Ballot>, b: Ballot)
    ensures AdmitAll(p, r, bs + [b]) == Admit(p, AdmitAll(p, r, bs), b)
  {
    assert (bs + [b])[..|bs|] == bs;
  }

  /** Accepted records are pairwise distinct, as bytes: no ballot is counted from a replay. */
  ghost predicate AllDifferent(p: Poll, accepted: seq<Ballot>) {
    forall i, j :: 0 <= i < j < |accepted| ==> p.text(accepted[i]) != p.text(accepted[j])
  }

  lemma AdmitKeepsDifferent(p: Poll, r: Registry, b: Ballot)
    requires AllDifferent(p, r.accepted)
    ensures AllDifferent(p, Admit(p, r, b).accepted)
  {
    if Objection(p, r.accepted, b).None? {
      forall i | 0 <= i < |r.accepted| ensures p.text(r.accepted[i]) != p.text(b) {
        assert RecordDigest(p, r.accepted[i]) in RecordDigests(p, r.accepted);
      }
    }
  }

  lemma {:induction false} AcceptedRecordsDiffer(p: Poll, r: Registry, bs: seq<Ballot>)
    requires AllDifferent(p, r.accepted)
    ensures AllDifferent(p, AdmitAll(p, r, bs).accepted)
  {
    if bs != [] {
      AcceptedRecordsDiffer(p, r, bs[..|bs| - 1]);
      AdmitKeepsDifferent(p, AdmitAll(p, r, bs[..|bs| - 1]), bs[|bs| - 1]);
    }
  }

  /** Every accepted ballot carries a token and a signature that verify. */
  ghost predicate AllGenuine(p: Poll, accepted: seq<Ballot>) {
    forall i :: 0 <= i < |accepted| ==>
      p.tokenOk(accepted[i].adhocKey, accepted[i].token)
      && p.verify(accepted[i].adhocKey, accepted[i].signature, p.payload(VoteStatement(accepted[i])))
  }

  lemma {:induction false} AcceptedAreGenuine(p: Poll, r: Registry, bs: seq<Ballot>)
    requires AllGenuine(p, r.accepted)
    ensures AllGenuine(p, AdmitAll(p, r, bs).accepted)
  {
    if bs != [] {
      AcceptedAreGenuine(p, r, bs[..|bs| - 1]);
    }
  }

  /** The submissions that were accepted, in order. */
  function AcceptedOf(p: Poll, r: Registry, bs: seq<Ballot>): seq<Ballot> {
    if bs == [] then []
    else
      var before, b := AcceptedOf(p, r, bs[..|bs| - 1]), bs[|bs| - 1];
      if Objection(p, AdmitAll(p, r, bs[..|bs| - 1]).accepted, b).None? then before + [b] else before
  }

  /** Rejected and replayed submissions are inert: leaving every one of them out of any history
      gives the same accepted registry and refuses nothing. */
  lemma {:induction false} RejectedAreInert(p: Poll, r: Registry, bs: seq<Ballot>)
    ensures AdmitAll(p, r, AcceptedOf(p, r, bs)) == Registry(AdmitAll(p, r, bs).accepted, r.rejected)
    ensures AdmitAll(p, r, bs).accepted == r.accepted + AcceptedOf(p, r, bs)
    ensures |AdmitAll(p, r, bs).rejected| + |AcceptedOf(p, r, bs)| == |r.rejected| + |bs|
  {
    if bs != [] {
      var prefix, b := bs[..|bs| - 1], bs[|bs| - 1];
      RejectedAreInert(p, r, prefix);
      if Objection(p, AdmitAll(p, r, prefix).accepted, b).None? {
        AdmitAllAppend(p, r, AcceptedOf(p, r, prefix), b);
      }
    }
  }

  /** So they are in the count: without them every figure is the same but the number of rejections. */
  lemma FiguresIgnoreRejected(p: Poll, r: Registry, bs: seq<Ballot>)
    ensures FiguresOf(p.numChoices, p.link, AdmitAll(p, r, AcceptedOf(p, r, bs)))
         == FiguresOf(p.numChoices, p.link, AdmitAll(p, r, bs)).(rejected := |r.rejected|)
  {
    RejectedAreInert(p, r, bs);
  }

  // ---- the count -------------------------------------------------------------

  lemma {:induction false} EffectiveKeys(accepted: seq<Ballot>)
    ensures Effective(accepted).Keys == set i | 0 <= i < |accepted| :: accepted[i].adhocKey
  {
    if accepted != [] {
      var n := |accepted| - 1;
      EffectiveKeys(accepted[..n]);
      assert accepted == accepted[..n] + [accepted[n]];
    }
  }

  /** The effective ballot of a key is the accepted one after which no other came under that key. */
  lemma {:induction false} EffectiveIsLast(accepted: seq<Ballot>, i: nat)
    requires i < |accepted|
    requires forall j :: i < j < |accepted| ==> accepted[j].adhocKey != accepted[i].adhocKey
    ensures accepted[i].adhocKey in Effective(accepted)
    ensures Effective(accepted)[accepted[i].adhocKey] == accepted[i]
  {
    var n := |accepted| - 1;
    if i < n {
      EffectiveIsLast(accepted[..n], i);
    }
  }

  lemma {:induction false} EffectiveKeepsKey(accepted: seq<Ballot>)
    ensures forall k :: k in Effective(accepted) ==> Effective(accepted)[k].adhocKey == k
  {
    if accepted != [] {
      EffectiveKeepsKey(accepted[..|accepted| - 1]);
    }
  }

  /** Sum of f over lo..hi. */
  function SumOver(f: map<int, nat>, lo: int, hi: int): nat
    requires forall i :: lo <= i <= hi ==> i in f
    decreases hi - lo
  {
    if lo > hi then 0 else f[hi] + SumOver(f, lo, hi - 1)
  }

  /** Every voter is counted once: the options add up to `valid`, and `valid` and `invalid`
      partition the voters. */
  lemma CountPartitions(p: Poll, r: Registry)
    ensures var f := FiguresOf(p.numChoices, p.link, r);
            && f.valid + f.invalid == f.voters
            && SumOver(f.counts, 1, p.numChoices) == f.valid
            && f.voters <= |r.accepted|
  {
    var latest := Effective(r.accepted);
    var valid := OnTheList(p.numChoices, latest);
    assert latest.Keys == valid + (latest.Keys - valid);
    assert |latest| == |latest.Keys|;
    OptionsAddUp(p.numChoices, latest, FiguresOf(p.numChoices, p.link, r).counts);
    VotersAtMostBallots(r.accepted);
  }

  lemma {:induction false} OptionsAddUp(n: int, latest: map<Bytes, Ballot>, counts: map<int, nat>)
    requires forall i :: 1 <= i <= n ==> i in counts && counts[i] == |Choosing(latest, i)|
    ensures SumOver(counts, 1, n) == |OnTheList(n, latest)|
    decreases n
  {
    if n < 1 {
      assert OnTheList(n, latest) == {};
    } else {
      OptionsAddUp(n - 1, latest, counts);
      assert OnTheList(n, latest) == OnTheList(n - 1, latest) + Choosing(latest, n);
      assert OnTheList(n - 1, latest) !! Choosing(latest, n);
    }
  }

  lemma {:induction false} VotersAtMostBallots(accepted: seq<Ballot>)
    ensures |Effective(accepted)| <= |accepted|
  {
    if accepted != [] {
      var n := |accepted| - 1;
      VotersAtMostBallots(accepted[..n]);
      var before := Effective(accepted[..n]);
      assert Effective(accepted).Keys == before.Keys + {accepted[n].adhocKey};
    }
  }

  // ---- the cadence -----------------------------------------------------------

  /** A request that reads the clock while the poll is open: a submission, or a look at the
      published view or the tally. */
  datatype Visit = Visit(now: real, ballot: Option<Ballot>)

  function Serve(p: Poll, s: Box, v: Visit): Box {
    if v.ballot.Some? then Submit(p, s, v.ballot.value, v.now) else CatchUp(p, s, v.now)
  }

  function ServeAll(p: Poll, s: Box, visits: seq<Visit>): Box {
    if visits == [] then s else Serve(p, ServeAll(p, s, visits[..|visits| - 1]), visits[|visits| - 1])
  }

  function Submitted(visits: seq<Visit>): seq<Ballot> {
    if visits == [] then []
    else
      var before, v := Submitted(visits[..|visits| - 1]), visits[|visits| - 1];
      if v.ballot.Some? then before + [v.ballot.value] else before
  }

  /** The ballots submitted at a reading strictly before the boundary. */
  function SubmittedBefore(visits: seq<Visit>, boundary: int): seq<Ballot> {
    if visits == [] then []
    else
      var before, v := SubmittedBefore(visits[..|visits| - 1], boundary), visits[|visits| - 1];
      if v.ballot.Some? && v.now < boundary as real then before + [v.ballot.value] else before
  }

  /** The k-th boundary after the anchor: anchor + k * interval. */
  function Boundary(start: Box, k: nat): int {
    if k == 0 then start.anchor else Boundary(start, k - 1) + start.interval
  }

  /** The clock has reached m boundaries and no more. */
  predicate Reached(start: Box, now: real, m: nat) {
    Boundary(start, m) as real <= now < Boundary(start, m + 1) as real
  }

  /** How many boundaries the clock has reached. */
  function Passed(start: Box, now: real): nat
    requires start.interval > 0 && start.anchor <= Seconds(now)
  {
    (Seconds(now) - start.anchor) / start.interval
  }

  lemma {:induction false} BoundaryProduct(start: Box, k: nat)
    ensures Boundary(start, k) == start.anchor + k * start.interval
  {
    if k > 0 {
      BoundaryProduct(start, k - 1);
      assert k * start.interval == (k - 1) * start.interval + start.interval;
    }
  }

  lemma PassedIsReached(start: Box, now: real)
    requires start.interval > 0 && start.anchor <= Seconds(now)
    ensures Reached(start, now, Passed(start, now))
  {
    var q := Passed(start, now);
    BoundaryProduct(start, q);
    BoundaryProduct(start, q + 1);
    assert (q + 1) * start.interval == q * start.interval + start.interval;
  }

  lemma {:induction false} BoundariesAscend(start: Box, j: nat, k: nat)
    requires start.interval > 0 && j <= k
    ensures Boundary(start, j) <= Boundary(start, k)
    ensures j < k ==> Boundary(start, j) < Boundary(start, k)
  {
    if j < k {
      BoundariesAscend(start, j, k - 1);
    }
  }

  lemma ReachedMonotone(start: Box, early: real, m0: nat, late: real, m: nat)
    requires start.interval > 0 && early <= late && Reached(start, early, m0) && Reached(start, late, m)
    ensures m0 <= m
  {
    if m < m0 {
      BoundariesAscend(start, m + 1, m0);
    }
  }

  function SnapshotOf(p: Poll, at: int, r: Registry): Snapshot {
    Snapshot(at, |r.accepted|, p.count(r))
  }

  /** What a timer would publish at the k-th boundary after the anchor: the figures of exactly the
      submissions made before it. */
  function TimerSnapshot(p: Poll, start: Box, visits: seq<Visit>, k: nat): Snapshot {
    SnapshotOf(p, Boundary(start, k), AdmitAll(p, start.registry, SubmittedBefore(visits, Boundary(start, k))))
  }

  /** The first m of them. */
  function Timer(p: Poll, start: Box, visits: seq<Visit>, m: nat): seq<Snapshot> {
    if m == 0 then [] else Timer(p, start, visits, m - 1) + [TimerSnapshot(p, start, visits, m)]
  }

  ghost predicate Ordered(from: real, visits: seq<Visit>) {
    && (forall i :: 0 <= i < |visits| ==> from <= visits[i].now)
    && (forall i, j :: 0 <= i < j < |visits| ==> visits[i].now <= visits[j].now)
  }

  function LastReading(from: real, visits: seq<Visit>): real {
    if visits == [] then from else visits[|visits| - 1].now
  }

  /** A box as `open` leaves it. */
  ghost predicate JustOpened(s: Box, now: real) {
    Opened(s) && !s.closed && s.interval > 0 && s.anchor == Seconds(now) && s.next == Boundary(s, 1)
  }

  lemma OpenLeavesJustOpened(p: Poll, s: Box, now: real)
    requires !s.closed && s.interval > 0 && Open(p, s, now).Some?
    ensures JustOpened(Open(p, s, now).value, now)
  {
    var acts := Open(p, s, now).value.acts;
    assert acts[|acts| - 1].phase == "opened";
  }

  /** The boundaries after the first m0, up to m, all with the same figures. */
  function Filled(p: Poll, r: Registry, start: Box, m0: nat, m: nat): seq<Snapshot>
    requires m0 <= m
    decreases m
  {
    if m == m0 then [] else Filled(p, r, start, m0, m - 1) + [SnapshotOf(p, Boundary(start, m), r)]
  }

  lemma {:induction false} FilledStep(p: Poll, r: Registry, start: Box, m0: nat, m: nat)
    requires m0 < m
    ensures Filled(p, r, start, m0, m)
         == [SnapshotOf(p, Boundary(start, m0 + 1), r)] + Filled(p, r, start, m0 + 1, m)
    decreases m
  {
    if m0 + 1 < m {
      FilledStep(p, r, start, m0, m - 1);
    }
  }

  /** Catching up publishes each boundary reached, once, in order, with the present figures. */
  lemma {:induction false} CatchUpFills(p: Poll, s: Box, now: real, start: Box, m0: nat, m: nat)
    requires !s.closed && s.interval == start.interval > 0 && Reached(start, now, m)
    requires m0 <= m && s.next == Boundary(start, m0 + 1)
    ensures CatchUp(p, s, now)
         == s.(next := Boundary(start, m + 1), snapshots := s.snapshots + Filled(p, s.registry, start, m0, m))
    decreases m - m0
  {
    if m0 < m {
      BoundariesAscend(start, m0 + 1, m);
      var t := Publish(p, s, s.next).(next := s.next + s.interval);
      CatchUpFills(p, t, now, start, m0 + 1, m);
      assert CatchUp(p, s, now) == CatchUp(p, t, now);
      FilledStep(p, s.registry, start, m0, m);
      JoinSnapshots(s.snapshots, SnapshotOf(p, s.next, s.registry), Filled(p, s.registry, start, m0 + 1, m));
    } else {
      assert CatchUp(p, s, now) == s;
      assert s.snapshots + [] == s.snapshots;
    }
  }

  lemma JoinSnapshots(a: seq<Snapshot>, x: Snapshot, b: seq<Snapshot>)
    ensures (a + [x]) + b == a + ([x] + b)
  {
  }

  lemma AddSnapshot(a: seq<Snapshot>, b: seq<Snapshot>, x: Snapshot)
    ensures (a + b) + [x] == a + (b + [x])
  {
  }

  lemma {:induction false} EverythingBefore(visits: seq<Visit>, boundary: int)
    requires forall i :: 0 <= i < |visits| ==> visits[i].now < boundary as real
    ensures SubmittedBefore(visits, boundary) == Submitted(visits)
  {
    if visits != [] {
      EverythingBefore(visits[..|visits| - 1], boundary);
    }
  }

  lemma LaterVisitUnseen(visits: seq<Visit>, v: Visit, boundary: int)
    requires boundary as real <= v.now
    ensures SubmittedBefore(visits + [v], boundary) == SubmittedBefore(visits, boundary)
  {
    assert (visits + [v])[..|visits|] == visits;
  }

  /** At a boundary no visit has reached, the timer counts everything submitted so far. */
  lemma TimerAhead(p: Poll, start: Box, from: real, visits: seq<Visit>, m0: nat, k: nat)
    requires start.interval > 0 && Ordered(from, visits)
    requires LastReading(from, visits) < Boundary(start, m0 + 1) as real && m0 < k
    ensures TimerSnapshot(p, start, visits, k)
         == SnapshotOf(p, Boundary(start, k), AdmitAll(p, start.registry, Submitted(visits)))
  {
    BoundariesAscend(start, m0 + 1, k);
    EverythingBefore(visits, Boundary(start, k));
  }

  lemma {:induction false} TimerFills(p: Poll, start: Box, visits: seq<Visit>, r: Registry, m0: nat, m: nat)
    requires m0 <= m
    requires forall k: nat {:trigger TimerSnapshot(p, start, visits, k)} :: m0 < k <= m ==>
      TimerSnapshot(p, start, visits, k) == SnapshotOf(p, Boundary(start, k), r)
    ensures Timer(p, start, visits, m) == Timer(p, start, visits, m0) + Filled(p, r, start, m0, m)
    decreases m
  {
    if m0 < m {
      TimerFills(p, start, visits, r, m0, m - 1);
      AddSnapshot(Timer(p, start, visits, m0), Filled(p, r, start, m0, m - 1), TimerSnapshot(p, start, visits, m));
    }
  }

  /** Extending the series: what catching up fills in is what the timer would have published. */
  lemma TimerExtends(p: Poll, start: Box, from: real, visits: seq<Visit>, m0: nat, m: nat)
    requires start.interval > 0 && Ordered(from, visits) && m0 <= m
    requires LastReading(from, visits) < Boundary(start, m0 + 1) as real
    ensures Timer(p, start, visits, m)
         == Timer(p, start, visits, m0) + Filled(p, AdmitAll(p, start.registry, Submitted(visits)), start, m0, m)
  {
    var r := AdmitAll(p, start.registry, Submitted(visits));
    forall k: nat | m0 < k <= m ensures TimerSnapshot(p, start, visits, k) == SnapshotOf(p, Boundary(start, k), r) {
      TimerAhead(p, start, from, visits, m0, k);
    }
    TimerFills(p, start, visits, r, m0, m);
  }

  lemma TimerSameAt(p: Poll, start: Box, visits: seq<Visit>, v: Visit, m: nat, k: nat)
    requires start.interval > 0 && Boundary(start, m) as real <= v.now && k <= m
    ensures TimerSnapshot(p, start, visits + [v], k) == TimerSnapshot(p, start, visits, k)
  {
    BoundariesAscend(start, k, m);
    LaterVisitUnseen(visits, v, Boundary(start, k));
  }

  lemma {:induction false} TimerIgnoresLater(p: Poll, start: Box, visits: seq<Visit>, v: Visit, m: nat, k: nat)
    requires start.interval > 0 && Boundary(start, m) as real <= v.now && k <= m
    ensures Timer(p, start, visits + [v], k) == Timer(p, start, visits, k)
  {
    if k > 0 {
      TimerIgnoresLater(p, start, visits, v, m, k - 1);
      TimerSameAt(p, start, visits, v, m, k);
    }
  }

  /** The box a timer-driven implementation would be in, after m boundaries. */
  function TimerBox(p: Poll, start: Box, visits: seq<Visit>, m: nat): Box {
    start.(registry := AdmitAll(p, start.registry, Submitted(visits)),
           snapshots := start.snapshots + Timer(p, start, visits, m),
           next := Boundary(start, m + 1))
  }

  lemma CatchUpIsTimely(p: Poll, start: Box, from: real, visits: seq<Visit>, m0: nat, now: real, m: nat)
    requires JustOpened(start, from) && Ordered(from, visits) && LastReading(from, visits) <= now
    requires Reached(start, LastReading(from, visits), m0) && Reached(start, now, m)
    ensures CatchUp(p, TimerBox(p, start, visits, m0), now) == TimerBox(p, start, visits, m)
  {
    ReachedMonotone(start, LastReading(from, visits), m0, now, m);
    TimerExtends(p, start, from, visits, m0, m);
    var s := TimerBox(p, start, visits, m0);
    CatchUpFills(p, s, now, start, m0, m);
    var filled := Filled(p, s.registry, start, m0, m);
    assert s.snapshots + filled == start.snapshots + (Timer(p, start, visits, m0) + filled);
  }

  lemma ServeIsTimely(p: Poll, start: Box, from: real, visits: seq<Visit>, m0: nat, v: Visit, m: nat)
    requires JustOpened(start, from) && Ordered(from, visits) && LastReading(from, visits) <= v.now
    requires Reached(start, LastReading(from, visits), m0) && Reached(start, v.now, m)
    ensures Serve(p, TimerBox(p, start, visits, m0), v) == TimerBox(p, start, visits + [v], m)
  {
    CatchUpIsTimely(p, start, from, visits, m0, v.now, m);
    TimerIgnoresLater(p, start, visits, v, m, m);
    assert (visits + [v])[..|visits|] == visits;
    if v.ballot.Some? {
      AdmitAllAppend(p, start.registry, Submitted(visits), v.ballot.value);
    }
  }

  lemma {:induction false} ServeAllIsTimely(p: Poll, start: Box, from: real, visits: seq<Visit>, m: nat)
    requires JustOpened(start, from) && Ordered(from, visits) && Reached(start, LastReading(from, visits), m)
    ensures ServeAll(p, start, visits) == TimerBox(p, start, visits, m)
  {
    if visits == [] {
      if m > 0 {
        BoundariesAscend(start, 1, m);
      }
      assert Timer(p, start, [], 0) == [];
      assert start.snapshots + [] == start.snapshots;
    } else {
      var n := |visits| - 1;
      var before := visits[..n];
      var last := LastReading(from, before);
      PassedIsReached(start, last);
      ServeAllIsTimely(p, start, from, before, Passed(start, last));
      ServeIsTimely(p, start, from, before, Passed(start, last), visits[n], m);
      assert visits == before + [visits[n]];
    }
  }

  /** Lazy publication refines a timer: however often and whenever the box is visited, what has
      been published is what a timer firing at every boundary would have published, each snapshot
      counting exactly the submissions read strictly before its boundary. */
  lemma CadenceRefinesTimer(p: Poll, start: Box, from: real, visits: seq<Visit>)
    requires JustOpened(start, from) && Ordered(from, visits)
    ensures var last := LastReading(from, visits);
            && start.anchor <= Seconds(last)
            && ServeAll(p, start, visits) == TimerBox(p, start, visits, Passed(start, last))
  {
    PassedIsReached(start, LastReading(from, visits));
    ServeAllIsTimely(p, start, from, visits, Passed(start, LastReading(from, visits)));
  }

  lemma {:induction false} TimerLength(p: Poll, start: Box, visits: seq<Visit>, m: nat)
    ensures |Timer(p, start, visits, m)| == m
  {
    if m > 0 {
      TimerLength(p, start, visits, m - 1);
    }
  }

  lemma {:induction false} FilledLength(p: Poll, r: Registry, start: Box, m0: nat, m: nat)
    requires m0 <= m
    ensures |Filled(p, r, start, m0, m)| == m - m0
    decreases m
  {
    if m0 < m {
      FilledLength(p, r, start, m0, m - 1);
    }
  }

  lemma PassedMonotone(start: Box, early: real, late: real)
    requires start.interval > 0 && start.anchor <= Seconds(early) && early <= late
    ensures Passed(start, early) <= Passed(start, late)
  {
    PassedIsReached(start, early);
    PassedIsReached(start, late);
    ReachedMonotone(start, early, Passed(start, early), late, Passed(start, late));
  }

  /** The series a close leaves: every boundary up to its first reading, then the final figures,
      labelled with its second. */
  lemma CloseSeries(p: Poll, start: Box, from: real, visits: seq<Visit>, now: real, declared: real)
    requires JustOpened(start, from) && Ordered(from, visits) && LastReading(from, visits) <= now
    ensures start.anchor <= Seconds(now)
    ensures var closed := Close(p, ServeAll(p, start, visits), now, declared);
            var registry := AdmitAll(p, start.registry, Submitted(visits));
            && closed.closed && closed.registry == registry
            && closed.snapshots == start.snapshots + Timer(p, start, visits, Passed(start, now))
                                   + [SnapshotOf(p, Seconds(declared), registry)]
  {
    var last := LastReading(from, visits);
    CadenceRefinesTimer(p, start, from, visits);
    PassedIsReached(start, last);
    PassedIsReached(start, now);
    CatchUpIsTimely(p, start, from, visits, Passed(start, last), now, Passed(start, now));
  }

  /** The series as a timer running up to this instant leaves it, the final figures last. */
  function CompleteSeries(p: Poll, start: Box, visits: seq<Visit>, at: real): seq<Snapshot>
    requires start.interval > 0 && start.anchor <= Seconds(at)
  {
    start.snapshots + Timer(p, start, visits, Passed(start, at))
    + [SnapshotOf(p, Seconds(at), AdmitAll(p, start.registry, Submitted(visits)))]
  }

  /** The close completes the series up to its own instant exactly when the clock passes no boundary
      between its two readings. What is missing otherwise is every boundary in between, each with
      the final figures. */
  lemma CloseCompletesSeries(p: Poll, start: Box, from: real, visits: seq<Visit>, now: real, declared: real)
    requires JustOpened(start, from) && Ordered(from, visits) && LastReading(from, visits) <= now <= declared
    ensures start.anchor <= Seconds(now) <= Seconds(declared) && Passed(start, now) <= Passed(start, declared)
    ensures Close(p, ServeAll(p, start, visits), now, declared).snapshots == CompleteSeries(p, start, visits, declared)
       <==> Passed(start, now) == Passed(start, declared)
    ensures var registry := AdmitAll(p, start.registry, Submitted(visits));
            Timer(p, start, visits, Passed(start, declared))
            == Timer(p, start, visits, Passed(start, now))
               + Filled(p, registry, start, Passed(start, now), Passed(start, declared))
  {
    var m, n := Passed(start, now), Passed(start, declared);
    CloseSeries(p, start, from, visits, now, declared);
    PassedMonotone(start, now, declared);
    TimerLength(p, start, visits, m);
    TimerLength(p, start, visits, n);
    PassedIsReached(start, now);
    TimerExtends(p, start, from, visits, m, n);
  }

  /** The other case is real: opened at 0 with a boundary every second, and closed with the readings
      0.5 and 2.5, a box has no snapshot for the boundaries 1 and 2. */
  lemma CloseCanMissBoundaries(p: Poll)
    ensures var start := Open(p, NewBox(1, 0.0), 0.0).value;
            && JustOpened(start, 0.0) && Passed(start, 0.5) == 0 && Passed(start, 2.5) == 2
            && Close(p, start, 0.5, 2.5).snapshots == [SnapshotOf(p, 2, start.registry)]
            && CompleteSeries(p, start, [], 2.5)
               == [SnapshotOf(p, 1, start.registry), SnapshotOf(p, 2, start.registry), SnapshotOf(p, 2, start.registry)]
  {
    var start := Open(p, NewBox(1, 0.0), 0.0).value;
    OpenLeavesJustOpened(p, NewBox(1, 0.0), 0.0);
    assert Seconds(0.5) == 0 && Seconds(2.5) == 2;
    CloseSeries(p, start, 0.0, [], 0.5, 2.5);
    assert Boundary(start, 0) == 0 && Boundary(start, 1) == 1 && Boundary(start, 2) == 2;
    assert Timer(p, start, [], 1) == [TimerSnapshot(p, start, [], 1)];
  }

  // ---- after the close -------------------------------------------------------

  /** What may be asked of the box. A close carries its second reading of the clock. */
  datatype Operation =
    | DoOpen
    | DoClose(declared: real)
    | DoSubmit(ballot: Ballot)
    | DoLook
    | DoSetInterval(seconds: nat)

  function Operate(p: Poll, s: Box, op: Operation, now: real): Box {
    match op
    case DoOpen => if Open(p, s, now).Some? then Open(p, s, now).value else s
    case DoClose(declared) => Close(p, s, now, declared)
    case DoSubmit(b) => Submit(p, s, b, now)
    case DoLook => CatchUp(p, s, now)
    case DoSetInterval(seconds) => if SetInterval(s, seconds, now).Some? then SetInterval(s, seconds, now).value else s
  }

  lemma {:induction false} CatchUpKeepsRegistry(p: Poll, s: Box, now: real)
    ensures var c := CatchUp(p, s, now);
            c.registry == s.registry && c.closed == s.closed && c.acts == s.acts && c.interval == s.interval
            && |c.snapshots| >= |s.snapshots| && c.snapshots[..|s.snapshots|] == s.snapshots
    decreases if s.next <= Seconds(now) then Seconds(now) - s.next + 1 else 0
  {
    if !(s.closed || s.interval == 0 || now < s.next as real) {
      var t := Publish(p, s, s.next).(next := s.next + s.interval);
      CatchUpKeepsRegistry(p, t, now);
      assert CatchUp(p, s, now) == CatchUp(p, t, now);
      assert t.snapshots[..|s.snapshots|] == s.snapshots;
      assert CatchUp(p, t, now).snapshots[..|t.snapshots|][..|s.snapshots|]
          == CatchUp(p, t, now).snapshots[..|s.snapshots|];
    }
  }

  /** A closed box stays closed, and neither registry takes another entry, whatever is done to it
      and however often it is closed again; before the opening act nothing is recorded either. */
  lemma RegistryFrozen(p: Poll, s: Box, op: Operation, now: real)
    requires s.closed || !Opened(s)
    ensures Operate(p, s, op, now).registry == s.registry
    ensures s.closed ==> Operate(p, s, op, now).closed
  {
    CatchUpKeepsRegistry(p, s, now);
  }

  /** Nothing published is ever withdrawn, and no act is forgotten. */
  lemma PublicationOnlyGrows(p: Poll, s: Box, op: Operation, now: real)
    ensures var t := Operate(p, s, op, now);
            && |s.snapshots| <= |t.snapshots| && t.snapshots[..|s.snapshots|] == s.snapshots
            && |s.acts| <= |t.acts| && t.acts[..|s.acts|] == s.acts
            && (Opened(s) ==> Opened(t))
  {
    CatchUpKeepsRegistry(p, s, now);
    var t := Operate(p, s, op, now);
    assert t.acts[..|s.acts|] == s.acts;
    if i :| 0 <= i < |s.acts| && s.acts[i].phase == "opened" {
      assert t.acts[i] == s.acts[i];
    }
  }

  /** The registries only grow: what is recorded stays recorded, at its place. */
  lemma RegistryOnlyGrows(p: Poll, s: Box, op: Operation, now: real)
    ensures s.registry.accepted <= Operate(p, s, op, now).registry.accepted
    ensures s.registry.rejected <= Operate(p, s, op, now).registry.rejected
  {
    CatchUpKeepsRegistry(p, s, now);
  }

  function OperateAll(p: Poll, s: Box, ops: seq<(Operation, real)>): Box {
    if ops == [] then s
    else Operate(p, OperateAll(p, s, ops[..|ops| - 1]), ops[|ops| - 1].0, ops[|ops| - 1].1)
  }

  lemma {:induction false} RegistryGrowsOverRuns(p: Poll, s: Box, ops: seq<(Operation, real)>)
    ensures s.registry.accepted <= OperateAll(p, s, ops).registry.accepted
  {
    if ops != [] {
      RegistryGrowsOverRuns(p, s, ops[..|ops| - 1]);
      RegistryOnlyGrows(p, OperateAll(p, s, ops[..|ops| - 1]), ops[|ops| - 1].0, ops[|ops| - 1].1);
    }
  }

  /** A receipt stays true: whatever is done to the box after a ballot was accepted, the ballot stands
      at the receipt's position, and the entry published there carries the receipt's hash. */
  lemma ReceiptStaysTrue(p: Poll, s: Box, b: Ballot, now: real, ops: seq<(Operation, real)>)
    requires SubmitAnswer(p, s, b, now).accepted
    ensures var receipt := SubmitAnswer(p, s, b, now);
            var later := OperateAll(p, Submit(p, s, b, now), ops).registry.accepted;
            && receipt.index == Some(|s.registry.accepted|) && |s.registry.accepted| < |later|
            && later[|s.registry.accepted|] == b
            && Chain(p.link, later)[|s.registry.accepted|].entryHash == receipt.entryHash
  {
    var i, after := |s.registry.accepted|, Submit(p, s, b, now);
    var later := OperateAll(p, after, ops).registry.accepted;
    CatchUpKeepsRegistry(p, s, now);
    RegistryGrowsOverRuns(p, after, ops);
    EntryHashIsHead(p.link, later, i);
    assert after.registry.accepted == s.registry.accepted + [b];
    assert later[..i + 1] == s.registry.accepted + [b];
  }

  // ---- what is published -------------------------------------------------------

  datatype View = View(phase: string, acceptedCommitments: seq<Bytes>, rejectedCommitments: seq<Bytes>, heads: Heads,
                       acceptedSignature: Bytes, rejectedSignature: Bytes, statementKey: Bytes, acts: seq<Act>,
                       accepted: nat, rejected: nat, runningTally: seq<Snapshot>, records: Option<Registry>)

  function PhaseOf(closed: bool, acts: seq<Act>): string {
    if closed then "closed" else if HasAct(acts, "opened") then "open" else "not opened"
  }

  /** `published_view`, on a box that has caught up. */
  function ViewOf(p: Poll, s: Box): View {
    var heads := HeadsOf(p, s.registry);
    View(PhaseOf(s.closed, s.acts),
         Hashes(Chain(p.link, s.registry.accepted)), Hashes(Chain(p.rejectedLink, s.registry.rejected)), heads,
         p.sign(p.payload(RegistryHead(p.electionId, "accepted", heads.accepted))),
         p.sign(p.payload(RegistryHead(p.electionId, "rejected", heads.rejected))),
         p.statementKey, s.acts, |s.registry.accepted|, |s.registry.rejected|,
         s.snapshots, if s.closed then Some(s.registry) else None)
  }

  // ---- what the box signs --------------------------------------------------------

  function HeadStatement(p: Poll, name: string, head: Bytes): Statement { RegistryHead(p.electionId, name, head) }

  /** The box signs this statement in carrying out this operation. Looking stands for reading the
      published view, which signs both heads as they are at that moment. */
  predicate Signs(p: Poll, s: Box, op: Operation, now: real, st: Statement) {
    match op
    case DoOpen => Open(p, s, now).Some? && st == PollPhase(p.electionId, "opened", Seconds(now))
    case DoClose(declared) => st == PollPhase(p.electionId, "closed", Seconds(declared))
    case DoSubmit(b) => st == ReceiptStatement(p, SubmitAnswer(p, s, b, now))
    case DoLook =>
      || st == HeadStatement(p, "accepted", Head(p.link, s.registry.accepted))
      || st == HeadStatement(p, "rejected", Head(p.rejectedLink, s.registry.rejected))
    case DoSetInterval(_) => false
  }

  predicate SignedInRun(p: Poll, s: Box, ops: seq<(Operation, real)>, st: Statement) {
    ops != [] && (
      || SignedInRun(p, s, ops[..|ops| - 1], st)
      || Signs(p, OperateAll(p, s, ops[..|ops| - 1]), ops[|ops| - 1].0, ops[|ops| - 1].1, st))
  }

  /** Somebody looked when the box held k accepted ballots. */
  predicate SeenHolding(p: Poll, s: Box, ops: seq<(Operation, real)>, k: nat) {
    ops != [] && (
      || SeenHolding(p, s, ops[..|ops| - 1], k)
      || (ops[|ops| - 1].0.DoLook? && |OperateAll(p, s, ops[..|ops| - 1]).registry.accepted| == k))
  }

  function ReceiptStatement(p: Poll, answer: Answer): Statement {
    Statement.Receipt(p.electionId, answer.accepted, answer.reason, answer.index, answer.entryHash)
  }

  function ActStatement(p: Poll, act: Act): Statement { PollPhase(p.electionId, act.phase, act.at) }

  /** Everything signed and shown is accounted for: the heads in a published view, a receipt, and
      every new act. */
  lemma SignaturesAccounted(p: Poll, s: Box, op: Operation, now: real)
    ensures var t := Operate(p, s, op, now);
            && (op.DoLook? ==>
                  var view := ViewOf(p, t);
                  && Signs(p, s, op, now, HeadStatement(p, "accepted", view.heads.accepted))
                  && Signs(p, s, op, now, HeadStatement(p, "rejected", view.heads.rejected))
                  && view.acceptedSignature == p.sign(p.payload(HeadStatement(p, "accepted", view.heads.accepted)))
                  && view.rejectedSignature == p.sign(p.payload(HeadStatement(p, "rejected", view.heads.rejected))))
            && (op.DoSubmit? ==>
                  var answer := SubmitAnswer(p, s, op.ballot, now);
                  Signs(p, s, op, now, ReceiptStatement(p, answer))
                  && answer.signature == p.sign(p.payload(ReceiptStatement(p, answer))))
            && (forall i :: |s.acts| <= i < |t.acts| ==>
                  Signs(p, s, op, now, ActStatement(p, t.acts[i]))
                  && t.acts[i].signature == p.sign(p.payload(ActStatement(p, t.acts[i]))))
  {
    CatchUpKeepsRegistry(p, s, now);
  }

  lemma HeadStays(p: Poll, s: Box, op: Operation, now: real, k: nat)
    requires k <= |s.registry.accepted|
    ensures k <= |Operate(p, s, op, now).registry.accepted|
    ensures HeadAt(p.link, Operate(p, s, op, now).registry.accepted, k) == HeadAt(p.link, s.registry.accepted, k)
  {
    RegistryOnlyGrows(p, s, op, now);
    HeadOfPrefix(p.link, s.registry.accepted, Operate(p, s, op, now).registry.accepted, k);
  }

  lemma {:induction false} SeenNoMore(p: Poll, s: Box, ops: seq<(Operation, real)>, k: nat)
    requires SeenHolding(p, s, ops, k)
    ensures k <= |OperateAll(p, s, ops).registry.accepted|
  {
    var n := |ops| - 1;
    RegistryOnlyGrows(p, OperateAll(p, s, ops[..n]), ops[n].0, ops[n].1);
    if SeenHolding(p, s, ops[..n], k) {
      SeenNoMore(p, s, ops[..n], k);
    }
  }

  /** Whoever looks is given a signature over the head as it is. */
  lemma {:induction false} SeenIsSigned(p: Poll, s: Box, ops: seq<(Operation, real)>, k: nat)
    requires SeenHolding(p, s, ops, k)
    ensures k <= |OperateAll(p, s, ops).registry.accepted|
    ensures var accepted := OperateAll(p, s, ops).registry.accepted;
            SignedInRun(p, s, ops, HeadStatement(p, "accepted", HeadAt(p.link, accepted, k)))
  {
    var n := |ops| - 1;
    var t := OperateAll(p, s, ops[..n]);
    SeenNoMore(p, s, ops, k);
    if SeenHolding(p, s, ops[..n], k) {
      SeenIsSigned(p, s, ops[..n], k);
    }
    HeadStays(p, t, ops[n].0, ops[n].1, k);
  }

  /** And the box signs no head of accepted ballots but one it was seen holding. */
  lemma {:induction false} SignedWasSeen(p: Poll, s: Box, ops: seq<(Operation, real)>, head: Bytes) returns (k: nat)
    requires SignedInRun(p, s, ops, HeadStatement(p, "accepted", head))
    ensures SeenHolding(p, s, ops, k) && k <= |OperateAll(p, s, ops).registry.accepted|
    ensures head == HeadAt(p.link, OperateAll(p, s, ops).registry.accepted, k)
  {
    var n := |ops| - 1;
    var t := OperateAll(p, s, ops[..n]);
    if SignedInRun(p, s, ops[..n], HeadStatement(p, "accepted", head)) {
      k := SignedWasSeen(p, s, ops[..n], head);
    } else {
      k := |t.registry.accepted|;
    }
    HeadStays(p, t, ops[n].0, ops[n].1, k);
  }

  // ---- storing and restoring ---------------------------------------------------

  datatype Heads = Heads(accepted: Bytes, rejected: Bytes)

  function HeadsOf(p: Poll, r: Registry): Heads {
    Heads(Head(p.link, r.accepted), Head(p.rejectedLink, r.rejected))
  }

  datatype Stored = Stored(registry: Registry, acts: seq<Act>, snapshots: seq<Snapshot>)

  /** `stored_state`, with the heads beside it. */
  function StoredState(s: Box): Stored { Stored(s.registry, s.acts, s.snapshots) }

  /** `restore`; None where it raises. The box comes back shut. */
  function Restore(p: Poll, interval: nat, stored: Stored, expected: Heads, now: real): Option<Box> {
    if HeadsOf(p, stored.registry) != expected then None
    else
      Some(NewBox(interval, now).(registry := stored.registry, acts := stored.acts,
                                  snapshots := stored.snapshots, closed := true))
  }

  datatype TallyAnswer = FinalCount(figures: Figures) | LastPublished(snapshot: Snapshot)

  /** `tally`, on a box that has caught up: the final count once closed, the last publication with
      its instant before that; None where it raises. */
  function Tally(p: Poll, s: Box): Option<TallyAnswer> {
    if s.closed then Some(FinalCount(p.count(s.registry)))
    else if s.snapshots == [] then None
    else Some(LastPublished(s.snapshots[|s.snapshots| - 1]))
  }

  /** Restoring what a closed box stored, against the heads it signed, gives back its registries,
      its acts, its snapshots and its tally. */
  lemma RestoreReproduces(p: Poll, s: Box, now: real)
    requires s.closed
    ensures var back := Restore(p, s.interval, StoredState(s), HeadsOf(p, s.registry), now);
            && back.Some?
            && back.value == s.(anchor := back.value.anchor, next := back.value.next)
            && StoredState(back.value) == StoredState(s)
            && Tally(p, back.value) == Tally(p, s)
  {
  }

  /** Records are serialised so that different ones give different bytes. */
  ghost predicate Faithful(p: Poll) {
    && (forall a: Ballot, b: Ballot :: p.text(a) == p.text(b) ==> a == b)
    && (forall a: Rejection, b: Rejection :: p.rejectedText(a) == p.rejectedText(b) ==> a == b)
  }

  /** Against the heads the box signed, restoring succeeds on the original registries and on no
      others. */
  lemma RestoresOnlyTheOriginal(p: Poll, s: Box, stored: Stored, now: real)
    requires IsSha256(p.h) && Faithful(p)
    requires Computes(p.link, p.h, p.text) && Computes(p.rejectedLink, p.h, p.rejectedText)
    requires |s.registry.accepted| <= INDEX_LIMIT && |s.registry.rejected| <= INDEX_LIMIT
    requires |stored.registry.accepted| <= INDEX_LIMIT && |stored.registry.rejected| <= INDEX_LIMIT
    requires NoCollision(p.h, p.link, p.text, stored.registry.accepted, s.registry.accepted)
    requires NoCollision(p.h, p.rejectedLink, p.rejectedText, stored.registry.rejected, s.registry.rejected)
    ensures Restore(p, s.interval, stored, HeadsOf(p, s.registry), now).Some? <==> stored.registry == s.registry
  {
    HeadBindsRecords(p.h, p.link, p.text, stored.registry.accepted, s.registry.accepted);
    HeadBindsRecords(p.h, p.rejectedLink, p.rejectedText, stored.registry.rejected, s.registry.rejected);
    if SameTexts(p.text, stored.registry.accepted, s.registry.accepted) {
      assert stored.registry.accepted == s.registry.accepted;
    }
    if SameTexts(p.rejectedText, stored.registry.rejected, s.registry.rejected) {
      assert stored.registry.rejected == s.registry.rejected;
    }
  }

  // ---- the poll as the source builds it ------------------------------------------

  function RejectedText(r: Rejection): string { RejectedRecordText(r.ballot, r.reason) }

  function MakePoll(electionId: string, numChoices: int, h: HashFunction,
                    tokenOk: (Bytes, Bytes) -> bool, verify: (Bytes, Bytes, Bytes) -> bool,
                    statementKey: Bytes, sign: Bytes -> Bytes): Poll
  {
    var link := EntryLink(h, RecordText);
    Poll(electionId, numChoices, h, RecordText, RejectedText, s => Payload(h, s), tokenOk, verify,
         statementKey, sign, link, EntryLink(h, RejectedText), r => FiguresOf(numChoices, link, r))
  }

  /** What the theorems ask of a poll holds of the one the source builds. */
  lemma MadePollIsSound(electionId: string, numChoices: int, h: HashFunction,
                        tokenOk: (Bytes, Bytes) -> bool, verify: (Bytes, Bytes, Bytes) -> bool,
                        statementKey: Bytes, sign: Bytes -> Bytes)
    ensures var p := MakePoll(electionId, numChoices, h, tokenOk, verify, statementKey, sign);
            && CountsVotes(p) && Faithful(p)
            && Computes(p.link, p.h, p.text) && Computes(p.rejectedLink, p.h, p.rejectedText)
            && forall s :: p.payload(s) == Payload(h, s)
  {
    var p := MakePoll(electionId, numChoices, h, tokenOk, verify, statementKey, sign);
    EntryLinkComputes(h, RecordText);
    EntryLinkComputes(h, RejectedText);
    forall a: Ballot, b: Ballot | p.text(a) == p.text(b) ensures a == b {
      RecordTextInjective(a, b);
    }
    forall a: Rejection, b: Rejection | p.rejectedText(a) == p.rejectedText(b) ensures a == b {
      RejectedRecordTextInjective(a.ballot, a.reason, b.ballot, b.reason);
    }
  }
}
