/** The registration office: the object whose fields each request changes, proved step by step
    against OfficeModel and OfficeRecords. */
module Offices {
  import opened Base64
  import opened HashChains
  import opened Ledgers
  import opened Statements
  import opened OfficeModel
  import opened OfficeRecords

  class VRO {
    const authority: Authority
    const enrols: bool
    var register: set<string>
    var selfEnrolled: seq<string>
    const releaseLog: Ledger<Bytes>
    var released: set<string>
    /** In order of release. */
    var openings: seq<Opening>
    var requests: map<string, SignedRequest>
    var reserved: map<string, Bytes>
    var audit: seq<AuditEntry>
    var downloads: nat

    ghost predicate Valid()
      reads this, releaseLog
    {
      releaseLog.link == authority.link && releaseLog.Valid()
    }

    ghost function State(): Office
      reads this, releaseLog
    {
      Office(register, enrols, selfEnrolled, releaseLog.records, released, openings, requests, reserved, audit,
             downloads)
    }

    constructor (authority: Authority, enrols: bool)
      ensures Valid() && fresh(releaseLog) && this.authority == authority
      ensures State() == NewOffice(enrols)
    {
      this.authority := authority;
      this.enrols := enrols;
      register, selfEnrolled := {}, [];
      releaseLog := new Ledger(authority.link);
      released, openings, requests, reserved := {}, [], map[], map[];
      audit, downloads := [], 0;
    }

    method Enrol(id: string)
      requires Valid()
      modifies this`register
      ensures Valid() && State() == old(State()).(register := old(register) + {id})
    {
      register := register + {id};
    }

    method RecordOutcome(id: string, outcome: Outcome, reason: string) returns (answer: Answer)
      requires Valid()
      modifies this`audit
      ensures Valid() && Step(State(), answer) == Record(old(State()), id, outcome, reason)
    {
      audit := audit + [AuditEntry(id, outcome, reason)];
      answer := Told(outcome, None);
    }

    // ---- step 5, on either route ---------------------------------------------------

    method Reserve(id: string, blindedKey: Bytes, signature: Bytes, now: int) returns (answer: Answer)
      requires Valid()
      modifies this`reserved, this`audit
      ensures Valid()
      ensures Step(State(), answer) == OfficeModel.Reserve(authority, old(State()), id, blindedKey, signature, now)
    {
      var cert := authority.lookup(id);
      if cert.None? {
        answer := RecordOutcome(id, NotIdentified, NO_ENTRY);
        return;
      }
      if !authority.verify(cert.value.publicKey, signature, authority.payload(TokenRequest(id, blindedKey))) {
        answer := RecordOutcome(id, NotIdentified, BAD_REQUEST_SIGNATURE);
        return;
      }
      answer := Claim(Request(id, blindedKey, Wallet(signature)), cert.value.revoked, cert.value.expired(now));
    }

    method Claim(r: Request, revoked: bool, expired: bool) returns (answer: Answer)
      requires Valid()
      modifies this`reserved, this`audit
      ensures Valid()
      ensures Step(State(), answer) == OfficeModel.Claim(old(State()), r, revoked, expired)
    {
      if revoked {
        answer := RecordOutcome(r.voterId, CertificateRevoked, CERTIFICATE_IS_REVOKED);
      } else if expired {
        answer := RecordOutcome(r.voterId, CertificateExpired, CERTIFICATE_HAS_EXPIRED);
      } else if r.voterId !in register {
        answer := RecordOutcome(r.voterId, NotEligible, NOT_ON_REGISTER);
      } else if r.voterId in released {
        answer := RecordOutcome(r.voterId, TokenAlreadyIssued, ALREADY_RELEASED);
      } else if r.voterId in reserved {
        answer := RecordOutcome(r.voterId, RequestPending, AWAITS_RELEASE);
      } else {
        reserved := reserved[r.voterId := r.blindedKey];
        answer := RecordOutcome(r.voterId, Reserved, NOW_RESERVED);
      }
    }

    /** The request comes back beside the answer, for the caller to release. */
    method ReserveSignedDocument(document: Bytes) returns (answer: Answer, request: Option<Request>)
      requires Valid()
      modifies this`register, this`selfEnrolled, this`reserved, this`audit
      ensures Valid()
      ensures Step(State(), answer) == ReserveDocument(authority, old(State()), document)
      ensures request == RequestIn(authority, document)
    {
      if authority.validate.None? {
        return Raised, None;
      }
      match Interpret(authority, authority.validate.value, document) {
        case NotUnderstood(id, outcome, reason) =>
          answer := RecordOutcome(id, outcome, reason);
          request := None;
        case Understood(r, revoked, expired) =>
          EnrolOnQualifiedSignature(r.voterId);
          answer := Claim(r, revoked, expired);
          request := Some(r);
      }
    }

    method EnrolOnQualifiedSignature(id: string)
      requires Valid()
      modifies this`register, this`selfEnrolled, this`audit
      ensures Valid() && State() == EnrolOnSignature(old(State()), id)
    {
      if !enrols || id in register {
        return;
      }
      register := register + {id};
      selfEnrolled := selfEnrolled + [id];
      audit := audit + [AuditEntry(id, Reserved, ENROLLED_ON_SIGNATURE)];
    }

    method CancelReservation(id: string) returns (cancelled: bool)
      requires Valid()
      modifies this`reserved, this`audit
      ensures Valid() && State() == Cancel(old(State()), id)
      ensures cancelled <==> id in old(reserved)
    {
      if id !in reserved {
        return false;
      }
      reserved := reserved - {id};
      audit := audit + [AuditEntry(id, Reserved, RESERVATION_CANCELLED)];
      return true;
    }

    // ---- steps 7 and 6/A -------------------------------------------------------------

    method Release(r: Request, opening: Bytes, raw: Option<Bytes>) returns (answer: Answer)
      requires Valid()
      modifies this`reserved, this`openings, this`released, this`requests, this`audit, releaseLog
      ensures Valid()
      ensures Step(State(), answer) == OfficeModel.Release(authority, old(State()), r, opening, raw)
    {
      if r.voterId !in reserved || reserved[r.voterId] != r.blindedKey {
        answer := RecordOutcome(r.voterId, NotEligible, NO_RESERVATION);
        return;
      }
      reserved := reserved - {r.voterId};
      openings := Put(openings, r.voterId, opening);
      released := released + {r.voterId};
      requests := requests[r.voterId := SignedRequest(r.blindedKey, r.evidence)];
      var _ := releaseLog.Append(authority.commit(r.voterId, opening));
      if raw.None? {
        return Raised;
      }
      if !authority.passes(r.blindedKey, raw.value) {
        return Raised;
      }
      audit := audit + [AuditEntry(r.voterId, Issued, TOKEN_RELEASED)];
      answer := Told(Issued, raw);
    }

    method IssueToken(id: string, blindedKey: Bytes, signature: Bytes, now: int, opening: Bytes, raw: Option<Bytes>)
      returns (answer: Answer)
      requires Valid()
      modifies this`reserved, this`openings, this`released, this`requests, this`audit, releaseLog
      ensures Valid()
      ensures Step(State(), answer) == Issue(authority, old(State()), id, blindedKey, signature, now, opening, raw)
    {
      answer := Reserve(id, blindedKey, signature, now);
      if answer != Told(Reserved, None) {
        return;
      }
      answer := Release(Request(id, blindedKey, Wallet(signature)), opening, raw);
    }

    // ---- answering ---------------------------------------------------------------------

    method QueryTokenRelease(id: string, signature: Bytes) returns (answer: ReleaseAnswer)
      requires Valid()
      ensures answer == Query(authority, State(), id, signature)
    {
      if !AsksAsVoter(authority, id, signature) {
        return UnknownVoter;
      }
      var opening := Find(openings, id);
      if opening.None? {
        return Denied(authority.sign(authority.payload(Denial(id))));
      }
      PayloadsOfChain(authority.link, releaseLog.records);
      var index := IndexOf(releaseLog.entries, authority.commit(id, opening.value));
      answer := if index.Some? then Disclosed(opening.value, index.value) else NoSuchEntry;
    }

    static method IndexOf(log: seq<Entry<Bytes>>, target: Bytes) returns (index: Option<nat>)
      ensures index == FirstIndex(Payloads(log), target)
    {
      ghost var payloads := Payloads(log);
      var i := 0;
      while i < |log|
        invariant 0 <= i <= |log|
        invariant FirstIndex(payloads[..i], target).None?
      {
        assert payloads[..i + 1][..i] == payloads[..i];
        if log[i].payload == target {
          FirstIndexExtends(payloads, target, i + 1);
          return Some(i);
        }
        i := i + 1;
      }
      assert payloads[..i] == payloads;
      return None;
    }

    /** `supervision_dump`: the register as it stands, and one more download counted. */
    method SupervisionDump() returns (dump: Register)
      requires Valid()
      modifies this`downloads
      ensures Valid() && State() == old(State()).(downloads := old(downloads) + 1)
      ensures dump == RegisterOf(authority, State())
    {
      downloads := downloads + 1;
      var head := releaseLog.CurrentHead();
      var count := |releaseLog.entries|;
      var headSignature := authority.sign(authority.payload(ReleaseHead(authority.electionId, head)));
      var countSignature := authority.sign(authority.payload(ReleaseCount(authority.electionId, count)));
      var rows: seq<Row> := [];
      for i := 0 to |openings|
        invariant |rows| == i
        invariant forall j :: 0 <= j < i ==> rows[j] == RowAt(authority, State(), j)
      {
        var o := openings[i];
        rows := rows + [Row(i, o.voterId, o.value, authority.commit(o.voterId, o.value), o.voterId in selfEnrolled,
                            if o.voterId in requests then Some(ShownOf(authority, requests[o.voterId])) else None)];
      }
      dump := Register(enrols, Named(selfEnrolled), rows, audit, head, headSignature, count, countSignature);
    }

    // ---- restoring ---------------------------------------------------------------------

    method RestoreReleases(stored: Stored, expectedHead: Bytes) returns (ok: bool)
      requires Valid()
      modifies this, releaseLog
      ensures Valid()
      ensures Restored(State(), ok) == Restore(authority, old(State()), stored, expectedHead)
    {
      ghost var before := releaseLog.records;
      for i := 0 to |stored.releases|
        invariant Valid() && releaseLog.records == before + stored.releases[..i]
        invariant State() == old(State()).(log := releaseLog.records)
      {
        var _ := releaseLog.Append(stored.releases[i]);
        assert stored.releases[..i + 1] == stored.releases[..i] + [stored.releases[i]];
        assert before + stored.releases[..i + 1] == before + stored.releases[..i] + [stored.releases[i]];
      }
      assert stored.releases[..|stored.releases|] == stored.releases;
      var head := releaseLog.CurrentHead();
      if head != expectedHead {
        return false;
      }
      var ordered := ReorderOpenings(stored.openings);
      released, openings, audit := stored.released, ordered, stored.audit;
      requests, selfEnrolled, downloads := stored.requests, stored.selfEnrolled, stored.downloads;
      return true;
    }

    /** `by_commitment`: of several openings under one commitment, the last. */
    method IndexByCommitment(stored: seq<Opening>) returns (byCommitment: map<Bytes, string>)
      ensures forall c {:trigger c in byCommitment} ::
        (if c in byCommitment then Some(byCommitment[c]) else None) == OwnerOf(authority, stored, c)
    {
      byCommitment := map[];
      for i := 0 to |stored|
        invariant forall c {:trigger c in byCommitment} ::
          (if c in byCommitment then Some(byCommitment[c]) else None) == OwnerOf(authority, stored[..i], c)
      {
        assert stored[..i + 1][..i] == stored[..i];
        byCommitment := byCommitment[authority.commit(stored[i].voterId, stored[i].value) := stored[i].voterId];
      }
      assert stored[..|stored|] == stored;
    }

    /** `_in_chain_order`, over the log as it stands. */
    method ReorderOpenings(stored: seq<Opening>) returns (ordered: seq<Opening>)
      requires Valid()
      ensures ordered == InChainOrder(authority, releaseLog.records, stored)
    {
      var byCommitment := IndexByCommitment(stored);
      PayloadsOfChain(authority.link, releaseLog.records);
      ordered := ThreadOntoChain(authority, releaseLog.entries, stored, byCommitment);
      ghost var chained := ordered;
      for i := 0 to |stored|
        invariant ordered == Completed(chained, stored[..i])
      {
        assert stored[..i + 1][..i] == stored[..i];
        if !Holds(ordered, stored[i].voterId) {
          ordered := ordered + [stored[i]];
        }
      }
      assert stored[..|stored|] == stored;
    }

    static method ThreadOntoChain(a: Authority, log: seq<Entry<Bytes>>, stored: seq<Opening>,
                                  byCommitment: map<Bytes, string>)
      returns (ordered: seq<Opening>)
      requires forall c {:trigger c in byCommitment} ::
        (if c in byCommitment then Some(byCommitment[c]) else None) == OwnerOf(a, stored, c)
      ensures ordered == OfficeRecords.Chained(a, Payloads(log), stored)
    {
      ordered := [];
      ghost var payloads := Payloads(log);
      for i := 0 to |log|
        invariant ordered == OfficeRecords.Chained(a, payloads[..i], stored)
      {
        assert payloads[..i + 1][..i] == payloads[..i];
        ghost var next := ChainedNext(a, ordered, log[i].payload, stored);
        var c := log[i].payload;
        if c in byCommitment && !Holds(ordered, byCommitment[c]) {
          var opening := Find(stored, byCommitment[c]);
          if opening.Some? {
            ordered := ordered + [Opening(byCommitment[c], opening.value)];
          }
        }
        assert ordered == next;
      }
      assert payloads[..|log|] == payloads;
    }
  }

  /** The request a signed document makes, when it makes one. */
  function RequestIn(a: Authority, document: Bytes): Option<Request> {
    match a.validate
    case None => None
    case Some(validate) =>
      match Interpret(a, validate, document)
      case NotUnderstood(_, _, _) => None
      case Understood(r, _, _) => Some(r)
  }

  lemma {:induction false} FirstIndexExtends(log: seq<Bytes>, c: Bytes, k: nat)
    requires k <= |log| && FirstIndex(log[..k], c).Some?
    ensures FirstIndex(log, c) == FirstIndex(log[..k], c)
    decreases |log|
  {
    if k < |log| {
      var n := |log| - 1;
      assert log[..n][..k] == log[..k];
      FirstIndexExtends(log[..n], c, k);
    } else {
      assert log[..k] == log;
    }
  }
}
