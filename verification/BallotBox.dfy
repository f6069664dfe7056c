/** The electronic ballot box: the object whose fields each request changes, proved step by step
    against BoxModel. The clock reading of a request is its argument. */
module BallotBoxes {
  import opened Base64
  import opened HashChains
  import opened Ledgers
  import opened Statements
  import opened BoxModel

  class BallotBox {
    const poll: Poll
    const accepted: Ledger<Ballot>
    const rejected: Ledger<Rejection>
    /** 0 when no cadence is configured. */
    var interval: nat
    var closed: bool
    var acts: seq<Act>
    var snapshots: seq<Snapshot>
    /** The digest of every accepted record, kept so that a replay is recognised. */
    var acceptedRecords: set<Bytes>
    var anchor: int
    var nextBoundary: int

    ghost predicate Valid()
      reads this, accepted, rejected
    {
      && accepted.link == poll.link && accepted.Valid()
      && rejected.link == poll.rejectedLink && rejected.Valid()
      && acceptedRecords == RecordDigests(poll, accepted.records)
      && CountsVotes(poll)
    }

    ghost function State(): Box
      reads this, accepted, rejected
    {
      Box(interval, Registry(accepted.records, rejected.records), closed, acts, snapshots, anchor, nextBoundary)
    }

    constructor (poll: Poll, interval: nat, now: real)
      requires CountsVotes(poll)
      ensures Valid() && fresh(accepted) && fresh(rejected) && this.poll == poll
      ensures State() == NewBox(interval, now)
    {
      this.poll := poll;
      this.interval := interval;
      accepted := new Ledger(poll.link);
      rejected := new Ledger(poll.rejectedLink);
      closed := false;
      acts := [];
      snapshots := [];
      acceptedRecords := {};
      anchor := now.Floor;
      nextBoundary := now.Floor + interval;
    }

    // ---- phases ----------------------------------------------------------------

    method Declare(phase: string, now: real) returns (at: int)
      requires Valid()
      modifies this`acts
      ensures Valid() && at == Seconds(now)
      ensures State() == BoxModel.Declare(poll, old(State()), phase, now)
    {
      at := now.Floor;
      acts := acts + [Act(phase, at, poll.sign(poll.payload(PollPhase(poll.electionId, phase, at))))];
    }

    method Open(now: real) returns (ok: bool)
      requires Valid()
      modifies this`acts, this`anchor, this`nextBoundary
      ensures Valid()
      ensures ok <==> BoxModel.Open(poll, old(State()), now).Some?
      ensures State() == if ok then BoxModel.Open(poll, old(State()), now).value else old(State())
    {
      if exists i :: 0 <= i < |acts| && acts[i].phase == "opened" {
        return false;
      }
      anchor := Declare("opened", now);
      nextBoundary := anchor + interval;
      return true;
    }

    /** The clock is read twice, as `now` and then as `declared`. */
    method Close(now: real, declared: real)
      requires Valid()
      modifies this`acts, this`snapshots, this`closed, this`nextBoundary
      ensures Valid()
      ensures State() == BoxModel.Close(poll, old(State()), now, declared)
    {
      CatchUp(now);
      var at := Declare("closed", declared);
      Publish(at);
      closed := true;
    }

    // ---- the cadence -------------------------------------------------------------

    method SetPublicationInterval(seconds: nat, now: real) returns (ok: bool)
      requires Valid()
      modifies this`interval, this`anchor, this`nextBoundary
      ensures Valid()
      ensures ok <==> SetInterval(old(State()), seconds, now).Some?
      ensures State() == if ok then SetInterval(old(State()), seconds, now).value else old(State())
    {
      if exists i :: 0 <= i < |acts| && acts[i].phase == "opened" {
        return false;
      }
      interval := seconds;
      anchor := now.Floor;
      nextBoundary := anchor + seconds;
      return true;
    }

    method Publish(at: int)
      requires Valid()
      modifies this`snapshots
      ensures Valid()
      ensures State() == BoxModel.Publish(poll, old(State()), at)
    {
      var figures := Count();
      snapshots := snapshots + [Snapshot(at, |accepted.entries|, figures)];
    }

    method CatchUp(now: real)
      requires Valid()
      modifies this`snapshots, this`nextBoundary
      ensures Valid()
      ensures State() == BoxModel.CatchUp(poll, old(State()), now)
    {
      if closed || interval == 0 {
        return;
      }
      ghost var target := BoxModel.CatchUp(poll, State(), now);
      while now >= nextBoundary as real
        invariant Valid() && !closed && interval > 0
        invariant BoxModel.CatchUp(poll, State(), now) == target
        decreases if nextBoundary <= now.Floor then now.Floor - nextBoundary + 1 else 0
      {
        Publish(nextBoundary);
        nextBoundary := nextBoundary + interval;
      }
    }

    // ---- submission --------------------------------------------------------------

    method Submit(ballot: Ballot, now: real) returns (answer: Answer)
      requires Valid()
      modifies this`snapshots, this`nextBoundary, this`acceptedRecords, accepted, rejected
      ensures Valid()
      ensures State() == BoxModel.Submit(poll, old(State()), ballot, now)
      ensures answer == SubmitAnswer(poll, old(State()), ballot, now)
    {
      CatchUp(now);
      if !exists i :: 0 <= i < |acts| && acts[i].phase == "opened" {
        return ReceiptFor(poll, false, NOT_OPEN, None, "");
      }
      if closed {
        return ReceiptFor(poll, false, BOX_CLOSED, None, "");
      }
      if !poll.tokenOk(ballot.adhocKey, ballot.token) {
        answer := Reject(ballot, BAD_TOKEN);
        return;
      }
      if !poll.verify(ballot.adhocKey, ballot.signature, poll.payload(VoteStatement(ballot))) {
        answer := Reject(ballot, BAD_SIGNATURE);
        return;
      }
      var record := RecordDigest(poll, ballot);
      if record in acceptedRecords {
        answer := Reject(ballot, ALREADY_ACCEPTED);
        return;
      }
      DigestsAppend(poll, accepted.records, ballot);
      var entry := accepted.Append(ballot);
      acceptedRecords := acceptedRecords + {record};
      answer := ReceiptFor(poll, true, "accepted", Some(entry.index), entry.entryHash);
    }

    method Reject(ballot: Ballot, reason: string) returns (answer: Answer)
      requires Valid()
      modifies rejected
      ensures Valid()
      ensures rejected.records == old(rejected.records) + [Rejection(ballot, reason)]
      ensures answer == ReceiptFor(poll, false, reason, Some(|old(rejected.records)|),
                                   Head(poll.rejectedLink, rejected.records))
    {
      var entry := rejected.Append(Rejection(ballot, reason));
      answer := ReceiptFor(poll, false, reason, Some(entry.index), entry.entryHash);
    }

    // ---- counting ----------------------------------------------------------------

    method EffectiveBallots() returns (latest: map<Bytes, Ballot>)
      requires Valid()
      ensures latest == Effective(accepted.records)
    {
      latest := map[];
      ghost var records := accepted.records;
      for i := 0 to |accepted.entries|
        invariant latest == Effective(records[..i])
      {
        var ballot := accepted.entries[i].payload;
        latest := latest[ballot.adhocKey := ballot];
        assert records[..i + 1][..i] == records[..i];
      }
      assert records[..|records|] == records;
    }

    /** `_count`. A counter's sum is kept as a running total. */
    method Count() returns (figures: Figures)
      requires Valid()
      ensures figures == FiguresOf(poll.numChoices, poll.link, Registry(accepted.records, rejected.records))
      ensures figures == poll.count(Registry(accepted.records, rejected.records))
    {
      var latest := EffectiveBallots();
      var n := poll.numChoices;
      var c := CountSelections(n, latest);
      ReadOut(n, latest, c);
      var head := accepted.CurrentHead();
      figures := Figures(ReadCounter(n, c.counts), c.valid, c.invalid, c.protest, |latest|, |rejected.entries|, head);
    }

    static method CountSelections(n: int, latest: map<Bytes, Ballot>) returns (c: Counters)
      ensures Tallies(n, c, ChoosersIn(latest)) && Totalled(n, c, latest)
    {
      c := Counters(map[], map[], 0, 0);
      var left := latest.Keys;
      ghost var done: map<Bytes, Ballot> := map[];
      NobodyYet(n);
      while left != {}
        invariant forall k :: k in left ==> k in latest && k !in done
        invariant forall k :: k in latest && k !in left ==> k in done
        invariant forall k :: k in done ==> k in latest && done[k] == latest[k]
        invariant Tallies(n, c, ChoosersIn(done)) && Totalled(n, c, done)
        decreases left
      {
        var k :| k in left;
        var selection := latest[k].selection;
        OneMoreVoter(n, c, done, k, latest[k]);
        done := done[k := latest[k]];
        left := left - {k};
        c := Tallied(n, c, selection);
      }
      assert done == latest;
    }

    // ---- looking -----------------------------------------------------------------

    /** The last publication while the poll runs, the final count once it is closed; None where the
        source raises `BoxStillOpen`. */
    method Tally(now: real) returns (answer: Option<TallyAnswer>)
      requires Valid()
      modifies this`snapshots, this`nextBoundary
      ensures Valid()
      ensures State() == if old(closed) then old(State()) else BoxModel.CatchUp(poll, old(State()), now)
      ensures answer == BoxModel.Tally(poll, State())
    {
      if closed {
        var final := Count();
        return Some(FinalCount(final));
      }
      CatchUp(now);
      if snapshots == [] {
        return None;
      }
      return Some(LastPublished(snapshots[|snapshots| - 1]));
    }

    method Phase() returns (phase: string)
      ensures phase == PhaseOf(closed, acts)
    {
      phase := if closed then "closed"
               else if exists i :: 0 <= i < |acts| && acts[i].phase == "opened" then "open" else "not opened";
    }

    /** What a citizen can see: commitments, heads and counts always, the records from the close. */
    method PublishedView(now: real) returns (view: View)
      requires Valid()
      modifies this`snapshots, this`nextBoundary
      ensures Valid()
      ensures State() == BoxModel.CatchUp(poll, old(State()), now)
      ensures view == ViewOf(poll, State())
    {
      CatchUp(now);
      var phase := Phase();
      var stored, heads := StoredState();
      view := View(
        phase, Hashes(accepted.entries), Hashes(rejected.entries), heads,
        poll.sign(poll.payload(RegistryHead(poll.electionId, "accepted", heads.accepted))),
        poll.sign(poll.payload(RegistryHead(poll.electionId, "rejected", heads.rejected))),
        poll.statementKey, acts, |accepted.entries|, |rejected.entries|,
        snapshots, if closed then Some(stored.registry) else None);
    }

    // ---- restoring -----------------------------------------------------------------

    /** `restore`: every record is appended again, and the heads that result must be the expected
        ones; null where the source raises. */
    static method Restore(poll: Poll, interval: nat, stored: Stored, expected: Heads, now: real)
      returns (box: BallotBox?)
      requires CountsVotes(poll)
      ensures box == null <==> BoxModel.Restore(poll, interval, stored, expected, now).None?
      ensures box != null ==> box.Valid() && box.poll == poll
      ensures box != null ==> BoxModel.Restore(poll, interval, stored, expected, now) == Some(box.State())
    {
      var fresh' := new BallotBox(poll, interval, now);
      for i := 0 to |stored.registry.accepted|
        invariant fresh'.Valid() && fresh(fresh') && fresh(fresh'.accepted) && fresh(fresh'.rejected)
        invariant fresh'.State() == NewBox(interval, now).(registry := Registry(stored.registry.accepted[..i], []))
      {
        var payload := stored.registry.accepted[i];
        DigestsAppend(poll, fresh'.accepted.records, payload);
        var _ := fresh'.accepted.Append(payload);
        fresh'.acceptedRecords := fresh'.acceptedRecords + {RecordDigest(poll, payload)};
        assert stored.registry.accepted[..i + 1] == stored.registry.accepted[..i] + [payload];
      }
      assert stored.registry.accepted[..|stored.registry.accepted|] == stored.registry.accepted;
      for i := 0 to |stored.registry.rejected|
        invariant fresh'.Valid() && fresh(fresh') && fresh(fresh'.accepted) && fresh(fresh'.rejected)
        invariant fresh'.State() == NewBox(interval, now).(registry :=
          Registry(stored.registry.accepted, stored.registry.rejected[..i]))
      {
        var _ := fresh'.rejected.Append(stored.registry.rejected[i]);
        assert stored.registry.rejected[..i + 1] == stored.registry.rejected[..i] + [stored.registry.rejected[i]];
      }
      assert stored.registry.rejected[..|stored.registry.rejected|] == stored.registry.rejected;
      var a := fresh'.accepted.CurrentHead();
      var r := fresh'.rejected.CurrentHead();
      if Heads(a, r) != expected {
        return null;
      }
      fresh'.acts := stored.acts;
      fresh'.snapshots := stored.snapshots;
      fresh'.closed := true;
      return fresh';
    }

    /** `stored_state`, with the heads it carries. */
    method StoredState() returns (stored: Stored, heads: Heads)
      requires Valid()
      ensures stored == BoxModel.StoredState(State()) && heads == HeadsOf(poll, State().registry)
    {
      PayloadsOfChain(poll.link, accepted.records);
      PayloadsOfChain(poll.rejectedLink, rejected.records);
      var acceptedHead := accepted.CurrentHead();
      var rejectedHead := rejected.CurrentHead();
      stored := Stored(Registry(Payloads(accepted.entries), Payloads(rejected.entries)), acts, snapshots);
      heads := Heads(acceptedHead, rejectedHead);
    }

    /** Stored and restored, a closed box comes back entry for entry, with its acts, its series and
        its tally. */
    method Reload(now: real) returns (back: BallotBox?)
      requires Valid() && closed
      ensures back != null && back.Valid() && back.poll == poll
      ensures back != null ==> back.accepted.entries == accepted.entries && back.rejected.entries == rejected.entries
      ensures back != null ==> back.closed && back.acts == acts && back.snapshots == snapshots
      ensures back != null ==> back.interval == interval && back.acceptedRecords == acceptedRecords
      ensures back != null ==> BoxModel.Tally(poll, back.State()) == BoxModel.Tally(poll, State())
    {
      var stored, heads := StoredState();
      RestoreReproduces(poll, State(), now);
      back := Restore(poll, interval, stored, heads, now);
    }
  }

  lemma DigestsAppend(p: Poll, accepted: seq<Ballot>, b: Ballot)
    ensures RecordDigests(p, accepted + [b]) == RecordDigests(p, accepted) + {RecordDigest(p, b)}
  {
    var all := accepted + [b];
    forall d ensures d in RecordDigests(p, all) <==> d in RecordDigests(p, accepted) + {RecordDigest(p, b)} {
      if d in RecordDigests(p, accepted) {
        var i :| 0 <= i < |accepted| && RecordDigest(p, accepted[i]) == d;
        assert RecordDigest(p, all[i]) == d;
      }
      if d == RecordDigest(p, b) {
        assert RecordDigest(p, all[|accepted|]) == d;
      }
    }
  }

  /** `counter[s] += 1`. */
  function Bump(counter: map<int, nat>, s: int): map<int, nat> {
    counter[s := (if s in counter then counter[s] else 0) + 1]
  }

  /** `{i: counts.get(i, 0) for i in 1..n}`. */
  function ReadCounter(n: int, counter: map<int, nat>): map<int, nat> {
    map i | 1 <= i <= n :: if i in counter then counter[i] else 0
  }

  datatype Counters = Counters(counts: map<int, nat>, protest: map<int, nat>, valid: nat, invalid: nat)

  /** One turn of the counting loop. */
  function Tallied(n: int, c: Counters, selection: int): Counters {
    if 1 <= selection <= n then c.(counts := Bump(c.counts, selection), valid := c.valid + 1)
    else c.(protest := Bump(c.protest, selection), invalid := c.invalid + 1)
  }

  function ChoosersIn(ballots: map<Bytes, Ballot>): int -> nat {
    s => |Choosing(ballots, s)|
  }

  /** The counters hold how many chose each selection, the listed ones apart from the rest, and a
      selection nobody chose has no counter. */
  ghost predicate Tallies(n: int, c: Counters, choosers: int -> nat) {
    forall s {:trigger choosers(s)} ::
      && Counts(if 1 <= s <= n then c.counts else c.protest, s, choosers(s))
      && s !in (if 1 <= s <= n then c.protest else c.counts)
  }

  predicate Counts(counter: map<int, nat>, s: int, k: nat) {
    if s in counter then counter[s] == k && k > 0 else k == 0
  }

  ghost predicate Totals(c: Counters, listed: set<Bytes>, voters: nat, codes: set<int>) {
    c.valid == |listed| && c.valid + c.invalid == voters && c.protest.Keys == codes
  }

  ghost predicate Totalled(n: int, c: Counters, ballots: map<Bytes, Ballot>) {
    Totals(c, OnTheList(n, ballots), |ballots|, ProtestSelections(n, ballots))
  }

  lemma NobodyYet(n: int)
    ensures Tallies(n, Counters(map[], map[], 0, 0), ChoosersIn(map[]))
    ensures Totalled(n, Counters(map[], map[], 0, 0), map[])
  {
    var none: map<Bytes, Ballot> := map[];
    forall s: int ensures ChoosersIn(none)(s) == 0 {
      assert Choosing(none, s) == {};
    }
    assert OnTheList(n, none) == {} && ProtestSelections(n, none) == {};
  }

  lemma ChoosersOneMore(m: map<Bytes, Ballot>, k: Bytes, b: Ballot, s: int)
    requires k !in m
    ensures ChoosersIn(m[k := b])(s) == ChoosersIn(m)(s) + (if s == b.selection then 1 else 0)
  {
    assert k !in Choosing(m, s);
    assert Choosing(m[k := b], s) == if s == b.selection then Choosing(m, s) + {k} else Choosing(m, s);
  }

  lemma TalliesOneMore(n: int, c: Counters, before: int -> nat, after: int -> nat, selection: int)
    requires Tallies(n, c, before)
    requires forall s {:trigger after(s)} :: after(s) == before(s) + (if s == selection then 1 else 0)
    ensures Tallies(n, Tallied(n, c, selection), after)
  {
  }

  lemma ListedOneMore(n: int, m: map<Bytes, Ballot>, k: Bytes, b: Ballot)
    requires k !in m
    ensures OnTheList(n, m[k := b]) == if 1 <= b.selection <= n then OnTheList(n, m) + {k} else OnTheList(n, m)
    ensures k !in OnTheList(n, m)
  {
  }

  lemma ProtestOneMore(n: int, m: map<Bytes, Ballot>, k: Bytes, b: Ballot)
    requires k !in m
    ensures ProtestSelections(n, m[k := b])
         == if 1 <= b.selection <= n then ProtestSelections(n, m) else ProtestSelections(n, m) + {b.selection}
  {
    var more := m[k := b];
    forall s | s in ProtestSelections(n, m) ensures s in ProtestSelections(n, more) {
      var i :| i in m && !(1 <= m[i].selection <= n) && m[i].selection == s;
      assert more[i] == m[i];
    }
    assert more[k] == b;
  }

  lemma SizeOneMore(s: set<Bytes>, k: Bytes)
    requires k !in s
    ensures |s + {k}| == |s| + 1
  {
  }

  lemma TotalsOneMore(n: int, c: Counters, listed: set<Bytes>, voters: nat, codes: set<int>, k: Bytes, selection: int)
    requires Totals(c, listed, voters, codes) && k !in listed
    ensures 1 <= selection <= n ==> Totals(Tallied(n, c, selection), listed + {k}, voters + 1, codes)
    ensures !(1 <= selection <= n) ==> Totals(Tallied(n, c, selection), listed, voters + 1, codes + {selection})
  {
    SizeOneMore(listed, k);
  }

  lemma TotalledOneMore(n: int, c: Counters, m: map<Bytes, Ballot>, k: Bytes, b: Ballot)
    requires k !in m && Totalled(n, c, m)
    ensures Totalled(n, Tallied(n, c, b.selection), m[k := b])
  {
    ListedOneMore(n, m, k, b);
    ProtestOneMore(n, m, k, b);
    SizeOneMore(m.Keys, k);
    assert m[k := b].Keys == m.Keys + {k};
    TotalsOneMore(n, c, OnTheList(n, m), |m|, ProtestSelections(n, m), k, b.selection);
  }

  /** One more voter changes what the counters should be as one turn of the loop changes them. */
  lemma OneMoreVoter(n: int, c: Counters, m: map<Bytes, Ballot>, k: Bytes, b: Ballot)
    requires k !in m && Tallies(n, c, ChoosersIn(m)) && Totalled(n, c, m)
    ensures Tallies(n, Tallied(n, c, b.selection), ChoosersIn(m[k := b]))
    ensures Totalled(n, Tallied(n, c, b.selection), m[k := b])
  {
    var before, after := ChoosersIn(m), ChoosersIn(m[k := b]);
    forall s ensures after(s) == before(s) + (if s == b.selection then 1 else 0) {
      ChoosersOneMore(m, k, b, s);
    }
    TalliesOneMore(n, c, before, after, b.selection);
    TotalledOneMore(n, c, m, k, b);
  }

  lemma CounterRead(n: int, latest: map<Bytes, Ballot>, c: Counters, s: int)
    requires Tallies(n, c, ChoosersIn(latest))
    ensures 1 <= s <= n ==> (if s in c.counts then c.counts[s] else 0) == |Choosing(latest, s)|
    ensures s in c.protest ==> c.protest[s] == |Choosing(latest, s)|
  {
    assert ChoosersIn(latest)(s) == |Choosing(latest, s)|;
  }

  lemma CountsRead(n: int, latest: map<Bytes, Ballot>, c: Counters)
    requires Tallies(n, c, ChoosersIn(latest))
    ensures ReadCounter(n, c.counts) == OptionCounts(n, latest)
  {
    forall s | 1 <= s <= n ensures (if s in c.counts then c.counts[s] else 0) == |Choosing(latest, s)| {
      CounterRead(n, latest, c, s);
    }
  }

  lemma ProtestRead(n: int, latest: map<Bytes, Ballot>, c: Counters)
    requires Tallies(n, c, ChoosersIn(latest)) && c.protest.Keys == ProtestSelections(n, latest)
    ensures c.protest == ProtestCodes(n, latest)
  {
    forall s | s in c.protest ensures c.protest[s] == |Choosing(latest, s)| {
      CounterRead(n, latest, c, s);
    }
  }

  /** The counters, read out over 1..n, are the published figures. */
  lemma ReadOut(n: int, latest: map<Bytes, Ballot>, c: Counters)
    requires Tallies(n, c, ChoosersIn(latest)) && Totalled(n, c, latest)
    ensures ReadCounter(n, c.counts) == OptionCounts(n, latest)
    ensures c.protest == ProtestCodes(n, latest)
    ensures |latest.Keys - OnTheList(n, latest)| == c.invalid
  {
    assert OnTheList(n, latest) <= latest.Keys;
    CountsRead(n, latest, c);
    ProtestRead(n, latest, c);
  }
}
