/** What the ballot box may and may not do, said without its steps: who is answered what, what a view
    shows and when, and when the public is told the figures. */
module BoxLaws {
  import opened Base64
  import opened HashChains
  import opened Statements
  import opened BoxModel

  // ---- who is answered what ----------------------------------------------------------------

  /** An accepted record has this ballot's digest. */
  predicate Replayed(p: Poll, accepted: seq<Ballot>, b: Ballot) {
    exists i :: 0 <= i < |accepted| && p.h(p.text(accepted[i])) == p.h(p.text(b))
  }

  predicate Genuine(p: Poll, b: Ballot) {
    && p.tokenOk(b.adhocKey, b.token)
    && p.verify(b.adhocKey, b.signature, p.payload(Vote(b.selection, b.adhocKey, b.nonce)))
  }

  /** The first of the three reasons that applies. */
  function Reason(p: Poll, b: Ballot): string {
    if !p.tokenOk(b.adhocKey, b.token) then BAD_TOKEN
    else if !Genuine(p, b) then BAD_SIGNATURE
    else ALREADY_ACCEPTED
  }

  /** A ballot is accepted exactly when the poll is open and not closed, its token and signature verify,
      and no accepted record has its digest. It is then the last of the accepted. Refused by an open box
      it is the last of the rejected, with the reason; otherwise nothing is recorded. The receipt says
      which, where and with what entry hash, under the box's signature. */
  lemma SubmissionAnswers(p: Poll, s: Box, b: Ballot, now: real)
    ensures var r, t, answer := s.registry, Submit(p, s, b, now).registry, SubmitAnswer(p, s, b, now);
            && (answer.accepted
                <==> Opened(s) && !s.closed && Genuine(p, b) && !Replayed(p, r.accepted, b))
            && (answer.accepted ==>
                  && t == Registry(r.accepted + [b], r.rejected) && answer.reason == "accepted"
                  && answer.index == Some(|r.accepted|)
                  && answer.entryHash == Chain(p.link, t.accepted)[|r.accepted|].entryHash)
            && (!answer.accepted && Opened(s) && !s.closed ==>
                  && t == Registry(r.accepted, r.rejected + [Rejection(b, Reason(p, b))])
                  && answer.reason == Reason(p, b) && answer.index == Some(|r.rejected|)
                  && answer.entryHash == Chain(p.rejectedLink, t.rejected)[|r.rejected|].entryHash)
            && (!Opened(s) || s.closed ==>
                  && t == r && answer.index == None && answer.entryHash == ""
                  && answer.reason == if Opened(s) then BOX_CLOSED else NOT_OPEN)
            && answer.signature
               == p.sign(p.payload(Statement.Receipt(p.electionId, answer.accepted, answer.reason, answer.index,
                                                     answer.entryHash)))
  {
    var r := s.registry;
    CatchUpKeepsRegistry(p, s, now);
    ReplayIsDigest(p, r.accepted, b);
    LastEntryHash(p.link, r.accepted, b);
    LastEntryHash(p.rejectedLink, r.rejected, Rejection(b, Reason(p, b)));
  }

  lemma ReplayIsDigest(p: Poll, accepted: seq<Ballot>, b: Ballot)
    ensures RecordDigest(p, b) in RecordDigests(p, accepted) <==> Replayed(p, accepted, b)
  {
  }

  lemma LastEntryHash<P>(link: Link<P>, payloads: seq<P>, payload: P)
    ensures Chain(link, payloads + [payload])[|payloads|].entryHash == Head(link, payloads + [payload])
  {
    assert Chain(link, payloads + [payload])[|payloads|] == EntryAt(link, payloads + [payload], |payloads|);
  }

  // ---- what a view shows --------------------------------------------------------------------

  /** The head is the last commitment, or the genesis value. */
  lemma HeadIsLastHash<P>(link: Link<P>, payloads: seq<P>)
    ensures var hashes := Hashes(Chain(link, payloads));
            && |hashes| == |payloads|
            && Head(link, payloads) == if hashes == [] then GENESIS else hashes[|hashes| - 1]
  {
    if payloads != [] {
      assert Chain(link, payloads)[|payloads| - 1] == EntryAt(link, payloads, |payloads| - 1);
    }
  }

  /** The records are shown from the close and not before; commitments, heads, counts, acts and the
      published figures always, the heads under the box's signature. */
  lemma ViewShows(p: Poll, s: Box)
    ensures var view := ViewOf(p, s);
            && view.records == (if s.closed then Some(s.registry) else None)
            && view.acceptedCommitments == Hashes(Chain(p.link, s.registry.accepted))
            && view.rejectedCommitments == Hashes(Chain(p.rejectedLink, s.registry.rejected))
            && view.accepted == |view.acceptedCommitments| && view.rejected == |view.rejectedCommitments|
            && view.heads.accepted == Head(p.link, s.registry.accepted)
            && view.heads.rejected == Head(p.rejectedLink, s.registry.rejected)
            && view.acceptedSignature == p.sign(p.payload(RegistryHead(p.electionId, "accepted", view.heads.accepted)))
            && view.rejectedSignature == p.sign(p.payload(RegistryHead(p.electionId, "rejected", view.heads.rejected)))
            && view.statementKey == p.statementKey && view.acts == s.acts && view.runningTally == s.snapshots
  {
  }

  /** While voting is open a view gives away nothing of a ballot beyond its entry's hash: two boxes with
      the same entry hashes, acts and publications show the same, whatever ballots they hold. */
  lemma OpenViewHidesBallots(p: Poll, s: Box, t: Box)
    requires !s.closed && !t.closed && s.acts == t.acts && s.snapshots == t.snapshots
    requires Hashes(Chain(p.link, s.registry.accepted)) == Hashes(Chain(p.link, t.registry.accepted))
    requires Hashes(Chain(p.rejectedLink, s.registry.rejected)) == Hashes(Chain(p.rejectedLink, t.registry.rejected))
    ensures ViewOf(p, s) == ViewOf(p, t)
  {
    HeadIsLastHash(p.link, s.registry.accepted);
    HeadIsLastHash(p.link, t.registry.accepted);
    HeadIsLastHash(p.rejectedLink, s.registry.rejected);
    HeadIsLastHash(p.rejectedLink, t.registry.rejected);
  }

  /** No row moves backwards: whatever an earlier view showed, this one shows at the same place, and
      records once disclosed stay as they are. */
  ghost predicate Extends(early: View, late: View) {
    && early.acceptedCommitments <= late.acceptedCommitments
    && early.rejectedCommitments <= late.rejectedCommitments
    && early.acts <= late.acts && early.runningTally <= late.runningTally
    && (early.records.Some? ==> late.records == early.records)
    && early.statementKey == late.statementKey
  }

  lemma HashesExtend<P>(link: Link<P>, early: seq<P>, late: seq<P>)
    requires early <= late
    ensures Hashes(Chain(link, early)) <= Hashes(Chain(link, late))
  {
    PrefixIsChain(link, late, |early|);
    assert late[..|early|] == early;
    assert Hashes(Chain(link, late))[..|early|] == Hashes(Chain(link, early));
  }

  lemma ViewExtends(p: Poll, s: Box, op: Operation, now: real)
    ensures Extends(ViewOf(p, s), ViewOf(p, Operate(p, s, op, now)))
  {
    var t := Operate(p, s, op, now);
    RegistryOnlyGrows(p, s, op, now);
    PublicationOnlyGrows(p, s, op, now);
    HashesExtend(p.link, s.registry.accepted, t.registry.accepted);
    HashesExtend(p.rejectedLink, s.registry.rejected, t.registry.rejected);
    if s.closed {
      RegistryFrozen(p, s, op, now);
    }
  }

  lemma ExtendsTransitive(u: View, v: View, w: View)
    requires Extends(u, v) && Extends(v, w)
    ensures Extends(u, w)
  {
  }

  /** Over every run, each view extends every earlier one. */
  lemma {:induction false} ViewsOnlyGrow(p: Poll, s: Box, ops: seq<(Operation, real)>)
    ensures Extends(ViewOf(p, s), ViewOf(p, OperateAll(p, s, ops)))
  {
    if ops != [] {
      var n := |ops| - 1;
      var t := OperateAll(p, s, ops[..n]);
      ViewsOnlyGrow(p, s, ops[..n]);
      ViewExtends(p, t, ops[n].0, ops[n].1);
      ExtendsTransitive(ViewOf(p, s), ViewOf(p, t), ViewOf(p, OperateAll(p, s, ops)));
    }
  }

  // ---- the phase ------------------------------------------------------------------------------

  predicate EverOpened(ops: seq<(Operation, real)>) {
    exists i :: 0 <= i < |ops| && ops[i].0.DoOpen?
  }

  predicate EverClosed(ops: seq<(Operation, real)>) {
    exists i :: 0 <= i < |ops| && ops[i].0.DoClose?
  }

  lemma EverStep(ops: seq<(Operation, real)>, n: nat)
    requires n + 1 == |ops|
    ensures EverOpened(ops) <==> EverOpened(ops[..n]) || ops[n].0.DoOpen?
    ensures EverClosed(ops) <==> EverClosed(ops[..n]) || ops[n].0.DoClose?
  {
    if EverOpened(ops[..n]) {
      var i :| 0 <= i < n && ops[..n][i].0.DoOpen?;
      assert ops[i].0.DoOpen?;
    }
    if EverClosed(ops[..n]) {
      var i :| 0 <= i < n && ops[..n][i].0.DoClose?;
      assert ops[i].0.DoClose?;
    }
    if i :| 0 <= i < |ops| && ops[i].0.DoOpen? {
      assert i < n ==> ops[..n][i].0.DoOpen?;
    }
    if i :| 0 <= i < |ops| && ops[i].0.DoClose? {
      assert i < n ==> ops[..n][i].0.DoClose?;
    }
  }

  lemma HasActAppend(acts: seq<Act>, act: Act, phase: string)
    ensures HasAct(acts + [act], phase) <==> HasAct(acts, phase) || act.phase == phase
  {
    if i :| 0 <= i < |acts| && acts[i].phase == phase {
      assert (acts + [act])[i].phase == phase;
    }
    assert (acts + [act])[|acts|] == act;
  }

  /** What one operation does to the acts and to the phase. */
  lemma OperationActs(p: Poll, s: Box, op: Operation, now: real)
    ensures var t := Operate(p, s, op, now);
            && (Opened(t) <==> Opened(s) || op.DoOpen?) && (t.closed <==> s.closed || op.DoClose?)
            && t.acts == (if op.DoOpen? && !Opened(s) then s.acts + [ActOf(p, "opened", now.Floor)]
                          else if op.DoClose? then s.acts + [ActOf(p, "closed", op.declared.Floor)] else s.acts)
  {
    CatchUpKeepsRegistry(p, s, now);
    match op
    case DoOpen => HasActAppend(s.acts, ActOf(p, "opened", now.Floor), "opened");
    case DoClose(declared) => HasActAppend(s.acts, ActOf(p, "closed", declared.Floor), "opened");
    case _ =>
  }

  /** A signed act. */
  function ActOf(p: Poll, phase: string, at: int): Act {
    Act(phase, at, p.sign(p.payload(PollPhase(p.electionId, phase, at))))
  }

  /** The phase follows the operations: not opened until the first opening, closed from the first close,
      whether or not the box was ever opened. */
  lemma {:induction false} PhaseFollows(p: Poll, interval: nat, start: real, ops: seq<(Operation, real)>)
    ensures var s := OperateAll(p, NewBox(interval, start), ops);
            && (Opened(s) <==> EverOpened(ops)) && (s.closed <==> EverClosed(ops))
            && ViewOf(p, s).phase
               == (if EverClosed(ops) then "closed" else if EverOpened(ops) then "open" else "not opened")
            && (ViewOf(p, s).records.Some? <==> EverClosed(ops))
  {
    if ops != [] {
      var n := |ops| - 1;
      PhaseFollows(p, interval, start, ops[..n]);
      EverStep(ops, n);
      OperationActs(p, OperateAll(p, NewBox(interval, start), ops[..n]), ops[n].0, ops[n].1);
    }
  }

  /** The acts a run leaves: the first opening, and every close, each floored to the second of its own
      reading and signed. */
  function ActsOf(p: Poll, ops: seq<(Operation, real)>): seq<Act> {
    if ops == [] then []
    else
      var n := |ops| - 1;
      var before, op, now := ActsOf(p, ops[..n]), ops[n].0, ops[n].1;
      match op
      case DoOpen => if EverOpened(ops[..n]) then before else before + [ActOf(p, "opened", now.Floor)]
      case DoClose(declared) => before + [ActOf(p, "closed", declared.Floor)]
      case _ => before
  }

  lemma {:induction false} ActsTell(p: Poll, interval: nat, start: real, ops: seq<(Operation, real)>)
    ensures OperateAll(p, NewBox(interval, start), ops).acts == ActsOf(p, ops)
  {
    if ops != [] {
      var n := |ops| - 1;
      ActsTell(p, interval, start, ops[..n]);
      PhaseFollows(p, interval, start, ops[..n]);
      OperationActs(p, OperateAll(p, NewBox(interval, start), ops[..n]), ops[n].0, ops[n].1);
    }
  }

  // ---- what is in the ballot box ---------------------------------------------------------------------

  predicate Voting(ops: seq<(Operation, real)>) { EverOpened(ops) && !EverClosed(ops) }

  /** What a run of operations puts in the two registries: the ballots handed in between the first opening
      and the first close, the genuine ones that are no replays in the one, the others in the other with
      the reason, each in the order they came. */
  function HandedIn(p: Poll, ops: seq<(Operation, real)>): Registry {
    if ops == [] then Registry([], [])
    else
      var n := |ops| - 1;
      var before := HandedIn(p, ops[..n]);
      match ops[n].0
      case DoSubmit(b) =>
        if !Voting(ops[..n]) then before
        else if Genuine(p, b) && !Replayed(p, before.accepted, b) then
          Registry(before.accepted + [b], before.rejected)
        else Registry(before.accepted, before.rejected + [Rejection(b, Reason(p, b))])
      case _ => before
  }

  lemma OnlySubmitsRecord(p: Poll, s: Box, op: Operation, now: real)
    requires !op.DoSubmit?
    ensures Operate(p, s, op, now).registry == s.registry
  {
    CatchUpKeepsRegistry(p, s, now);
  }

  /** Over every run the registries hold what was handed in while voting was open, and nothing else. */
  lemma {:induction false} RegistryHoldsWhatWasHandedIn(p: Poll, interval: nat, start: real,
                                                        ops: seq<(Operation, real)>)
    ensures OperateAll(p, NewBox(interval, start), ops).registry == HandedIn(p, ops)
  {
    if ops != [] {
      var n := |ops| - 1;
      var s := OperateAll(p, NewBox(interval, start), ops[..n]);
      RegistryHoldsWhatWasHandedIn(p, interval, start, ops[..n]);
      PhaseFollows(p, interval, start, ops[..n]);
      if ops[n].0.DoSubmit? {
        SubmissionAnswers(p, s, ops[n].0.ballot, ops[n].1);
      } else {
        OnlySubmitsRecord(p, s, ops[n].0, ops[n].1);
      }
    }
  }

  // ---- when the figures are told -----------------------------------------------------------------

  /** The labels of a timer's series. */
  lemma TimerLabels(p: Poll, start: Box, visits: seq<Visit>, m: nat)
    ensures |Timer(p, start, visits, m)| == m
    ensures forall k :: 0 <= k < m ==>
      Timer(p, start, visits, m)[k].at == start.anchor + (k + 1) * start.interval
  {
    TimerLength(p, start, visits, m);
    forall k | 0 <= k < m ensures Timer(p, start, visits, m)[k].at == start.anchor + (k + 1) * start.interval {
      TimerElement(p, start, visits, m, k);
      BoundaryProduct(start, k + 1);
    }
  }

  /** The series is published at anchor + k * interval, and the k-th as soon as that has passed. */
  lemma SeriesLabels(p: Poll, start: Box, from: real, visits: seq<Visit>)
    requires JustOpened(start, from) && Ordered(from, visits)
    ensures var t, before := ServeAll(p, start, visits), |start.snapshots|;
            && |t.snapshots| == before + (LastReading(from, visits).Floor - start.anchor) / start.interval
            && (forall k :: before <= k < |t.snapshots| ==>
                  t.snapshots[k].at == start.anchor + (k - before + 1) * start.interval)
  {
    var m := Passed(start, LastReading(from, visits));
    CadenceRefinesTimer(p, start, from, visits);
    TimerLabels(p, start, visits, m);
    LabelsAfter(start.snapshots, Timer(p, start, visits, m), start.anchor, start.interval);
  }

  lemma LabelsAfter(before: seq<Snapshot>, series: seq<Snapshot>, anchor: int, interval: nat)
    requires forall k :: 0 <= k < |series| ==> series[k].at == anchor + (k + 1) * interval
    ensures forall k :: |before| <= k < |before + series| ==>
      (before + series)[k].at == anchor + (k - |before| + 1) * interval
  {
  }

  /** The cadence chosen before the opening is the one kept: the k-th publication after an opening at
      the second `at` is for at + k * seconds. Once the poll has opened it cannot be chosen again. */
  lemma ChosenCadenceIsKept(p: Poll, s: Box, seconds: nat, chosen: real, opening: real, visits: seq<Visit>)
    requires !Opened(s) && !s.closed && seconds > 0 && Ordered(opening, visits)
    ensures SetInterval(s, seconds, chosen).Some? && Open(p, SetInterval(s, seconds, chosen).value, opening).Some?
    ensures var start := Open(p, SetInterval(s, seconds, chosen).value, opening).value;
            var t, before := ServeAll(p, start, visits), |s.snapshots|;
            && (forall other, later :: SetInterval(t, other, later) == None)
            && |t.snapshots| == before + (LastReading(opening, visits).Floor - opening.Floor) / seconds
            && (forall k :: before <= k < |t.snapshots| ==>
                  t.snapshots[k].at == opening.Floor + (k - before + 1) * seconds)
  {
    var start := Open(p, SetInterval(s, seconds, chosen).value, opening).value;
    OpenLeavesJustOpened(p, SetInterval(s, seconds, chosen).value, opening);
    SeriesLabels(p, start, opening, visits);
    StaysOpened(p, start, visits);
  }

  lemma {:induction false} FilledElement(p: Poll, r: Registry, start: Box, m: nat, k: nat)
    requires k < m
    ensures |Filled(p, r, start, 0, m)| == m && Filled(p, r, start, 0, m)[k] == SnapshotOf(p, Boundary(start, k + 1), r)
  {
    FilledLength(p, r, start, 0, m - 1);
    ElementOfAppend(Filled(p, r, start, 0, m), Filled(p, r, start, 0, m - 1), SnapshotOf(p, Boundary(start, m), r), k);
    if k < m - 1 {
      FilledElement(p, r, start, m - 1, k);
    }
  }

  /** A box that is not opened keeps time all the same: by any later reading it has published once for every
      whole interval since it was made, each time that it holds nothing. */
  lemma NewBoxKeepsTime(p: Poll, interval: nat, made: real, now: real)
    requires interval > 0 && made <= now
    ensures var t := CatchUp(p, NewBox(interval, made), now);
            && t.registry == Registry([], []) && !Opened(t) && !t.closed
            && |t.snapshots| == (now.Floor - made.Floor) / interval
            && forall k :: 0 <= k < |t.snapshots| ==>
                 t.snapshots[k] == Snapshot(made.Floor + (k + 1) * interval, 0, p.count(Registry([], [])))
  {
    var s := NewBox(interval, made);
    var m := Passed(s, now);
    PassedIsReached(s, now);
    BoundaryProduct(s, 1);
    CatchUpFills(p, s, now, s, 0, m);
    FilledLength(p, s.registry, s, 0, m);
    assert s.snapshots + Filled(p, s.registry, s, 0, m) == Filled(p, s.registry, s, 0, m);
    forall k | 0 <= k < m
      ensures Filled(p, s.registry, s, 0, m)[k]
           == Snapshot(made.Floor + (k + 1) * interval, 0, p.count(Registry([], [])))
    {
      FilledElement(p, s.registry, s, m, k);
      BoundaryProduct(s, k + 1);
    }
  }

  lemma ElementOfAppend(all: seq<Snapshot>, before: seq<Snapshot>, x: Snapshot, k: nat)
    requires all == before + [x] && k <= |before|
    ensures |all| == |before| + 1 && all[k] == if k < |before| then before[k] else x
  {
  }

  lemma {:induction false} TimerElement(p: Poll, start: Box, visits: seq<Visit>, m: nat, k: nat)
    requires k < m
    ensures |Timer(p, start, visits, m)| == m
    ensures Timer(p, start, visits, m)[k] == TimerSnapshot(p, start, visits, k + 1)
  {
    TimerLength(p, start, visits, m - 1);
    ElementOfAppend(Timer(p, start, visits, m), Timer(p, start, visits, m - 1), TimerSnapshot(p, start, visits, m), k);
    if k < m - 1 {
      TimerElement(p, start, visits, m - 1, k);
    }
  }

  lemma {:induction false} StaysOpened(p: Poll, s: Box, visits: seq<Visit>)
    requires Opened(s)
    ensures Opened(ServeAll(p, s, visits))
  {
    if visits != [] {
      var n := |visits| - 1;
      StaysOpened(p, s, visits[..n]);
      CatchUpKeepsRegistry(p, ServeAll(p, s, visits[..n]), visits[n].now);
    }
  }

  lemma CaughtUp(p: Poll, start: Box, from: real, visits: seq<Visit>, now: real, m: nat)
    requires JustOpened(start, from) && Ordered(from, visits) && LastReading(from, visits) <= now
    requires Reached(start, now, m)
    ensures CatchUp(p, ServeAll(p, start, visits), now) == TimerBox(p, start, visits, m)
  {
    var last := LastReading(from, visits);
    CadenceRefinesTimer(p, start, from, visits);
    PassedIsReached(start, last);
    CatchUpIsTimely(p, start, from, visits, Passed(start, last), now, m);
  }

  /** The clock shows the m-th boundary or later, and not yet the next. */
  predicate Shows(start: Box, now: real, m: nat) {
    start.anchor + m * start.interval <= now.Floor < start.anchor + (m + 1) * start.interval
  }

  lemma ShownIsReached(start: Box, now: real, m: nat)
    ensures Shows(start, now, m) <==> Reached(start, now, m)
  {
    BoundaryProduct(start, m);
    BoundaryProduct(start, m + 1);
  }

  lemma LastOfTimer(p: Poll, start: Box, visits: seq<Visit>, m: nat)
    requires start.snapshots == []
    ensures var shown, at := TimerBox(p, start, visits, m).snapshots, start.anchor + m * start.interval;
            var registry := AdmitAll(p, start.registry, SubmittedBefore(visits, at));
            && |shown| == m
            && (m > 0 ==> shown[m - 1] == Snapshot(at, |registry.accepted|, p.count(registry)))
  {
    TimerLength(p, start, visits, m);
    BoundaryProduct(start, m);
    if m > 0 {
      TimerElement(p, start, visits, m, m - 1);
    }
  }

  /** While voting is open the tally is the last publication and nothing later: the figures of exactly
      the ballots submitted before the last boundary reached, under that boundary's instant, and
      before the first boundary none at all. */
  lemma TallyIsLastPublication(p: Poll, start: Box, from: real, visits: seq<Visit>, now: real, m: nat)
    requires JustOpened(start, from) && start.snapshots == [] && Ordered(from, visits)
    requires LastReading(from, visits) <= now && Shows(start, now, m)
    ensures var at := start.anchor + m * start.interval;
            var registry := AdmitAll(p, start.registry, SubmittedBefore(visits, at));
            Tally(p, CatchUp(p, ServeAll(p, start, visits), now))
            == if m == 0 then None else Some(LastPublished(Snapshot(at, |registry.accepted|, p.count(registry))))
  {
    ShownIsReached(start, now, m);
    CaughtUp(p, start, from, visits, now, m);
    LastOfTimer(p, start, visits, m);
  }

  /** Once closed it is the count of every ballot accepted. */
  lemma ClosedTallyIsFinal(p: Poll, start: Box, from: real, visits: seq<Visit>, now: real, declared: real)
    requires JustOpened(start, from) && Ordered(from, visits) && LastReading(from, visits) <= now
    ensures var registry := AdmitAll(p, start.registry, Submitted(visits));
            Tally(p, Close(p, ServeAll(p, start, visits), now, declared)) == Some(FinalCount(p.count(registry)))
  {
    CloseSeries(p, start, from, visits, now, declared);
  }

  // ---- what the figures are ------------------------------------------------------------------------

  /** No later ballot came under this one's key. */
  predicate Stands(accepted: seq<Ballot>, i: nat)
    requires i < |accepted|
  {
    forall j :: i < j < |accepted| ==> accepted[j].adhocKey != accepted[i].adhocKey
  }

  /** The voters of a selection are the keys whose last accepted ballot makes it. */
  lemma ChoosersByLastBallot(accepted: seq<Ballot>, selection: int)
    ensures Choosing(Effective(accepted), selection)
         == set i | 0 <= i < |accepted| && Stands(accepted, i) && accepted[i].selection == selection ::
               accepted[i].adhocKey
  {
    var latest := Effective(accepted);
    forall k | k in Choosing(latest, selection)
      ensures exists i :: 0 <= i < |accepted| && Stands(accepted, i) && accepted[i].selection == selection
                          && accepted[i].adhocKey == k
    {
      EffectiveKeys(accepted);
      var j :| 0 <= j < |accepted| && accepted[j].adhocKey == k;
      var i := LastUnder(accepted, j);
      EffectiveIsLast(accepted, i);
    }
    forall i | 0 <= i < |accepted| && Stands(accepted, i) && accepted[i].selection == selection
      ensures accepted[i].adhocKey in Choosing(latest, selection)
    {
      EffectiveIsLast(accepted, i);
    }
  }

  lemma LastUnder(accepted: seq<Ballot>, j: nat) returns (i: nat)
    requires j < |accepted|
    ensures i < |accepted| && accepted[i].adhocKey == accepted[j].adhocKey && Stands(accepted, i)
    decreases |accepted| - j
  {
    if k :| j < k < |accepted| && accepted[k].adhocKey == accepted[j].adhocKey {
      i := LastUnder(accepted, k);
    } else {
      i := j;
    }
  }

  /** The figures: every listed option counted by its voters, others by theirs and only if there are
      any, the rejected by number, and the head the count is over. */
  lemma FiguresTell(p: Poll, r: Registry)
    ensures var f := FiguresOf(p.numChoices, p.link, r);
            && f.rejected == |r.rejected| && f.ledgerHead == Head(p.link, r.accepted)
            && (forall i :: i in f.counts <==> 1 <= i <= p.numChoices)
            && (forall i :: i in f.counts ==> f.counts[i] == |Choosing(Effective(r.accepted), i)|)
            && (forall i :: i in f.protestCodes ==>
                  !(1 <= i <= p.numChoices) && f.protestCodes[i] == |Choosing(Effective(r.accepted), i)| > 0)
            && (forall k :: k in Effective(r.accepted) ==>
                  var i := Effective(r.accepted)[k].selection; i in f.counts || i in f.protestCodes)
  {
    var f, latest := FiguresOf(p.numChoices, p.link, r), Effective(r.accepted);
    forall i | i in f.protestCodes ensures |Choosing(latest, i)| > 0 {
      var k :| k in latest && !(1 <= latest[k].selection <= p.numChoices) && latest[k].selection == i;
      assert k in Choosing(latest, i);
    }
  }
}
