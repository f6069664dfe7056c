/** The election as a whole: the office and the box side by side, over every interleaving of what
    can reach either, and the audit that ties their two numbers together. */
module Elections {
  import opened Base64
  import opened Statements
  import O = OfficeModel
  import B = BoxModel

  datatype Election = Election(office: O.Office, box: B.Box)

  datatype Event = AtOffice(action: O.Action) | AtBox(op: B.Operation, now: real)

  function Happen(a: O.Authority, p: B.Poll, e: Election, event: Event): Election {
    match event
    case AtOffice(action) => e.(office := O.Act(a, e.office, action).office)
    case AtBox(op, now) => e.(box := B.Operate(p, e.box, op, now))
  }

  function HappenAll(a: O.Authority, p: B.Poll, e: Election, events: seq<Event>): Election {
    if events == [] then e
    else Happen(a, p, HappenAll(a, p, e, events[..|events| - 1]), events[|events| - 1])
  }

  /** The blind signatures that have left the office. */
  function Signed(a: O.Authority, p: B.Poll, e: Election, events: seq<Event>): seq<O.Handed> {
    if events == [] then []
    else
      var n := |events| - 1;
      var before, event := Signed(a, p, e, events[..n]), events[n];
      if event.AtOffice? then O.HandedNext(a, HappenAll(a, p, e, events[..n]).office, before, event.action) else before
  }

  function OfficePart(events: seq<Event>): seq<O.Action> {
    if events == [] then []
    else
      var before, event := OfficePart(events[..|events| - 1]), events[|events| - 1];
      if event.AtOffice? then before + [event.action] else before
  }

  function BoxPart(events: seq<Event>): seq<(B.Operation, real)> {
    if events == [] then []
    else
      var before, event := BoxPart(events[..|events| - 1]), events[|events| - 1];
      if event.AtBox? then before + [(event.op, event.now)] else before
  }

  /** Office and box never touch each other: whatever the interleaving, each ends where its own part of the
      events would have taken it. */
  lemma {:induction false} SidesAreApart(a: O.Authority, p: B.Poll, e: Election, events: seq<Event>)
    ensures HappenAll(a, p, e, events)
         == Election(O.Run(a, e.office, OfficePart(events)), B.OperateAll(p, e.box, BoxPart(events)))
  {
    if events != [] {
      var n := |events| - 1;
      SidesAreApart(a, p, e, events[..n]);
      match events[n]
      case AtOffice(action) =>
        var before := OfficePart(events[..n]);
        assert OfficePart(events)[..|before|] == before;
      case AtBox(op, now) =>
        var before := BoxPart(events[..n]);
        assert BoxPart(events)[..|before|] == before;
    }
  }

  /** The ad-hoc keys anybody has presented to the box with a token that verifies, accepted or not. */
  function CertifiedKeys(p: B.Poll, events: seq<Event>): set<Bytes> {
    if events == [] then {}
    else
      var n := |events| - 1;
      CertifiedKeys(p, events[..n]) + CertifiedBy(p, events[n])
  }

  function CertifiedBy(p: B.Poll, event: Event): set<Bytes> {
    match event
    case AtBox(DoSubmit(b), _) => if p.tokenOk(b.adhocKey, b.token) then {b.adhocKey} else {}
    case _ => {}
  }

  /** What the box has accepted so far. */
  ghost predicate Admitted(p: B.Poll, box: B.Box, certified: set<Bytes>) {
    && B.AllGenuine(p, box.registry.accepted)
    && B.AllDifferent(p, box.registry.accepted)
    && forall i :: 0 <= i < |box.registry.accepted| ==> box.registry.accepted[i].adhocKey in certified
  }

  /** An operation leaves the registries alone, or admits one submission. */
  lemma OperationAdmits(p: B.Poll, s: B.Box, op: B.Operation, now: real)
    ensures B.Operate(p, s, op, now).registry == s.registry
         || (op.DoSubmit? && B.Operate(p, s, op, now).registry == B.Admit(p, s.registry, op.ballot))
  {
    B.CatchUpKeepsRegistry(p, s, now);
  }

  lemma AdmitStep(p: B.Poll, r: B.Registry, b: Ballot, certified: set<Bytes>)
    requires B.AllGenuine(p, r.accepted) && B.AllDifferent(p, r.accepted)
    requires forall i :: 0 <= i < |r.accepted| ==> r.accepted[i].adhocKey in certified
    ensures B.AllGenuine(p, B.Admit(p, r, b).accepted) && B.AllDifferent(p, B.Admit(p, r, b).accepted)
    ensures forall i :: 0 <= i < |B.Admit(p, r, b).accepted| ==>
      B.Admit(p, r, b).accepted[i].adhocKey in certified + (if p.tokenOk(b.adhocKey, b.token) then {b.adhocKey} else {})
  {
    B.AdmitKeepsDifferent(p, r, b);
  }

  lemma EventKeepsAdmitted(a: O.Authority, p: B.Poll, e: Election, event: Event, certified: set<Bytes>)
    requires Admitted(p, e.box, certified)
    ensures Admitted(p, Happen(a, p, e, event).box, certified + CertifiedBy(p, event))
  {
    if event.AtBox? {
      OperationAdmits(p, e.box, event.op, event.now);
      if event.op.DoSubmit? {
        AdmitStep(p, e.box.registry, event.op.ballot, certified);
      }
    }
  }

  /** Both halves of the election keep their books over every run. */
  lemma {:induction false} RunsKeepTheBooks(a: O.Authority, p: B.Poll, e: Election, events: seq<Event>)
    requires O.Sound(a, e.office) && Admitted(p, e.box, {})
    ensures var f := HappenAll(a, p, e, events);
            && O.Sound(a, f.office)
            && O.Accounted(a, f.office, Signed(a, p, e, events))
            && Admitted(p, f.box, CertifiedKeys(p, events))
  {
    if events != [] {
      var n := |events| - 1;
      var before, event := HappenAll(a, p, e, events[..n]), events[n];
      RunsKeepTheBooks(a, p, e, events[..n]);
      EventKeepsAdmitted(a, p, before, event, CertifiedKeys(p, events[..n]));
      if event.AtOffice? {
        O.ActKeepsSound(a, before.office, event.action);
        O.OneMoreAction(a, before.office, Signed(a, p, e, events[..n]), event.action);
      }
    }
  }

  lemma {:induction false} SubsetIsSmaller<T>(x: set<T>, y: set<T>)
    requires x <= y
    ensures |x| <= |y|
  {
    if x != {} {
      var k :| k in x;
      SubsetIsSmaller(x - {k}, y - {k});
    }
  }

  /** Tokens cannot be multiplied: no more ad-hoc keys carry a valid token than the office has handed
      out blind signatures. It is what one-more unforgeability promises of the token scheme. */
  ghost predicate NoTokenTooMany(a: O.Authority, p: B.Poll, e: Election, events: seq<Event>) {
    |CertifiedKeys(p, events)| <= |Signed(a, p, e, events)|
  }

  /** The count audit: over every interleaving of requests, releases, failures and cancellations at
      the office with arbitrary submissions at the box, the ad-hoc keys among the accepted ballots
      are no more than the releases the office has logged. */
  lemma CountAudit(a: O.Authority, p: B.Poll, e: Election, events: seq<Event>)
    requires O.Sound(a, e.office) && Admitted(p, e.box, {}) && NoTokenTooMany(a, p, e, events)
    ensures var f := HappenAll(a, p, e, events);
            |B.Effective(f.box.registry.accepted)| <= |f.office.log|
  {
    RunsKeepTheBooks(a, p, e, events);
    var accepted := HappenAll(a, p, e, events).box.registry.accepted;
    B.EffectiveKeys(accepted);
    SubsetIsSmaller(B.Effective(accepted).Keys, CertifiedKeys(p, events));
  }

  /** A new office beside a new box. */
  lemma NewElection(a: O.Authority, p: B.Poll, enrols: bool, interval: nat, now: real)
    ensures O.Sound(a, O.NewOffice(enrols))
    ensures Admitted(p, B.NewBox(interval, now), {})
  {
  }
}
