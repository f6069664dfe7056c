/** What the office's steps may and may not do, said without the steps: who is answered what, who gets
    on the register, and what a supervisor is shown. */
module OfficeLaws {
  import opened Base64
  import opened HashChains
  import opened Statements
  import opened OfficeModel
  import opened OfficeRecords

  // ---- who is answered what ----------------------------------------------------------------

  /** A certificate is registered for this id, and the signature over exactly this id and this blinded
      value verifies under its key. */
  predicate Proven(a: Authority, id: string, c: Bytes, signature: Bytes) {
    match a.lookup(id)
    case None => false
    case Some(cert) => a.verify(cert.publicKey, signature, a.payload(TokenRequest(id, c)))
  }

  /** Nothing but the reservation of this id for this value is new, and the private log tells of it. */
  ghost predicate ReservesOnly(s: Office, t: Office, id: string, c: Bytes) {
    && t.reserved == s.reserved[id := c]
    && t.register == s.register && t.released == s.released && t.openings == s.openings
    && t.requests == s.requests && t.log == s.log && t.selfEnrolled == s.selfEnrolled && t.downloads == s.downloads
  }

  /** One entry more in the private log, with the answer given. */
  ghost predicate Recorded(s: Office, step: Step, id: string) {
    && step.answer.Told? && step.answer.signature == None
    && |step.office.audit| == |s.audit| + 1 && s.audit <= step.office.audit
    && step.office.audit[|s.audit|].voterId == id && step.office.audit[|s.audit|].outcome == step.answer.outcome
  }

  /** Below the identity boundary: which answer is given when, and that only a free, registered
      identifier is reserved. */
  lemma ClaimAnswers(s: Office, r: Request, revoked: bool, expired: bool)
    ensures var step, id := Claim(s, r, revoked, expired), r.voterId;
            && Recorded(s, step, id)
            && (step.answer.outcome == CertificateRevoked <==> revoked)
            && (step.answer.outcome == CertificateExpired <==> !revoked && expired)
            && (!revoked && !expired ==>
                  && (step.answer.outcome == NotEligible <==> id !in s.register)
                  && (step.answer.outcome == TokenAlreadyIssued <==> id in s.register && id in s.released)
                  && (step.answer.outcome == RequestPending
                      <==> id in s.register && id !in s.released && id in s.reserved)
                  && (step.answer.outcome == Reserved
                      <==> id in s.register && id !in s.released && id !in s.reserved))
            && (if step.answer.outcome == Reserved then ReservesOnly(s, step.office, id, r.blindedKey)
                else SameBooks(s, step.office) && step.office.selfEnrolled == s.selfEnrolled)
  {
  }

  /** The wallet route: a reservation takes proof of identity, and without it the answer is the one
      refusal and the books stay as they are. */
  lemma ReservingTakesProof(a: Authority, s: Office, id: string, c: Bytes, signature: Bytes, now: int)
    ensures var step := Reserve(a, s, id, c, signature, now);
            && Recorded(s, step, id)
            && (step.answer.outcome == NotIdentified <==> !Proven(a, id, c, signature))
            && (step.answer.outcome == Reserved
                <==> Proven(a, id, c, signature) && !a.lookup(id).value.revoked && !a.lookup(id).value.expired(now)
                     && id in s.register && id !in s.released && id !in s.reserved)
            && (if step.answer.outcome == Reserved then ReservesOnly(s, step.office, id, c)
                else SameBooks(s, step.office) && step.office.selfEnrolled == s.selfEnrolled)
  {
    if Proven(a, id, c, signature) {
      var cert := a.lookup(id).value;
      ClaimAnswers(s, Request(id, c, Wallet(signature)), cert.revoked, cert.expired(now));
    }
  }

  /** Before identity is established nothing of the register shows: whatever two offices hold, at
      whatever times, and whether it is the identifier or the signature that is wrong, the answer is
      the same. */
  lemma RefusalsShowNothing(a: Authority, s: Office, id: string, c: Bytes, signature: Bytes, now: int,
                            t: Office, id': string, c': Bytes, signature': Bytes, now': int)
    requires !Proven(a, id, c, signature) && !Proven(a, id', c', signature')
    ensures Reserve(a, s, id, c, signature, now).answer == Reserve(a, t, id', c', signature', now').answer
  {
    ReservingTakesProof(a, s, id, c, signature, now);
    ReservingTakesProof(a, t, id', c', signature', now');
  }

  /** What the document route takes for proof: a signature validated as this citizen's, on a document
      the check reads this blinded value from. */
  predicate Documented(a: Authority, document: Bytes, id: string, c: Bytes) {
    match a.validate
    case None => false
    case Some(validate) =>
      match validate(document)
      case NoSignature(_) => false
      case Validated(identifier, covered, _, _, _, _) =>
        identifier == id && id != "" && a.checkDocument(document, covered) == Requests(c)
  }

  predicate GoodStanding(a: Authority, document: Bytes) {
    match a.validate
    case None => false
    case Some(validate) => validate(document).Validated? && !validate(document).revoked && !validate(document).expired
  }

  /** A document that proves the citizen is taken for a claim, after the citizen has been enrolled. */
  lemma DocumentIsClaim(a: Authority, s: Office, document: Bytes, id: string, c: Bytes) returns (r: Request)
    requires Documented(a, document, id, c)
    ensures var finding := a.validate.value(document);
            && r == Request(id, c, Document(document, finding.qualified, finding.timeVouched))
            && (GoodStanding(a, document) <==> !finding.revoked && !finding.expired)
            && ReserveDocument(a, s, document) == Claim(EnrolOnSignature(s, id), r, finding.revoked, finding.expired)
  {
    var finding := a.validate.value(document);
    r := Request(id, c, Document(document, finding.qualified, finding.timeVouched));
  }

  /** Enrolling adds this citizen where the office does so, marked when it did not know them. */
  lemma EnrollingMarks(s: Office, id: string)
    ensures var t := EnrolOnSignature(s, id);
            && t.register == (if s.enrols then s.register + {id} else s.register)
            && t.selfEnrolled == (if s.enrols && id !in s.register then s.selfEnrolled + [id] else s.selfEnrolled)
            && t.released == s.released && t.log == s.log && t.requests == s.requests && t.reserved == s.reserved
            && t.openings == s.openings && s.audit <= t.audit
  {
    if id in s.register {
      assert s.register + {id} == s.register;
    }
  }

  /** The document route: a reservation takes a document that proves the citizen and names the value,
      a certificate in good standing, and a place on the register, or an office that gives one. */
  lemma DocumentTakesProof(a: Authority, s: Office, document: Bytes, id: string, c: Bytes)
    requires Documented(a, document, id, c)
    ensures var step := ReserveDocument(a, s, document);
            && step.answer.Told? && step.answer.signature == None
            && (step.answer.outcome == Reserved
                <==> GoodStanding(a, document) && (id in s.register || s.enrols)
                     && id !in s.released && id !in s.reserved)
            && step.office.reserved == (if step.answer.outcome == Reserved then s.reserved[id := c] else s.reserved)
            && SameRolls(EnrolOnSignature(s, id), step.office)
            && step.office.released == s.released && step.office.log == s.log && step.office.requests == s.requests
  {
    var r := DocumentIsClaim(a, s, document, id, c);
    var finding, t := a.validate.value(document), EnrolOnSignature(s, id);
    EnrollingMarks(s, id);
    ClaimSameRolls(t, r, finding.revoked, finding.expired);
    ClaimAnswers(t, r, finding.revoked, finding.expired);
  }

  /** Any other document reserves nothing and enrols nobody. */
  lemma NoProofNoReservation(a: Authority, s: Office, document: Bytes)
    requires forall id: string, c: Bytes {:trigger Documented(a, document, id, c)} :: !Documented(a, document, id, c)
    ensures var step := ReserveDocument(a, s, document);
            && (step.answer.Raised? <==> a.validate.None?)
            && (step.answer.Told? ==>
                  step.answer == Told(NotIdentified, None) || step.answer == Told(DocumentRefused, None))
            && SameBooks(s, step.office) && step.office.selfEnrolled == s.selfEnrolled
  {
    if a.validate.Some? {
      var finding := a.validate.value(document);
      if finding.Validated? && finding.identifier != "" {
        var checked := a.checkDocument(document, finding.covered);
        if checked.Requests? {
          assert Documented(a, document, finding.identifier, checked.blindedKey);
        }
      }
    }
  }

  // ---- releasing -----------------------------------------------------------------------------

  /** A release issues exactly when it was reserved for and the signature passes, and hands out that
      signature. Reserved for, it is written down first, whatever becomes of the signing; otherwise it
      is refused and nothing is. The private log tells of an issue and of a refusal. */
  lemma ReleaseAnswers(a: Authority, s: Office, r: Request, opening: Bytes, raw: Option<Bytes>)
    requires Sound(a, s)
    ensures var step, id := Release(a, s, r, opening, raw), r.voterId;
            var due := id in s.reserved && s.reserved[id] == r.blindedKey;
            && (step.answer.Told? && step.answer.outcome == Issued
                <==> due && raw.Some? && a.passes(r.blindedKey, raw.value))
            && (step.answer.Told? && step.answer.outcome == Issued ==> step.answer == Told(Issued, raw))
            && (step.answer.Raised? <==> due && (raw.None? || !a.passes(r.blindedKey, raw.value)))
            && (!due ==> Recorded(s, step, id) && step.answer.outcome == NotEligible && SameBooks(s, step.office))
            && (due ==> step.office.audit == if step.answer.Raised? then s.audit
                                             else s.audit + [AuditEntry(id, Issued, TOKEN_RELEASED)])
            && (due ==>
                  && step.office.log == s.log + [a.commit(id, opening)]
                  && step.office.openings == s.openings + [Opening(id, opening)]
                  && step.office.released == s.released + {id}
                  && step.office.reserved == s.reserved - {id}
                  && step.office.requests == s.requests[id := SignedRequest(r.blindedKey, r.evidence)]
                  && step.office.register == s.register)
  {
    if IsReservedFor(s, r) {
      LogReleaseKeepsSound(a, s, r, opening);
    }
  }

  /** Asking on the wallet route and being answered at once. */
  lemma IssuingTakesProof(a: Authority, s: Office, id: string, c: Bytes, signature: Bytes, now: int,
                          opening: Bytes, raw: Option<Bytes>)
    requires Sound(a, s)
    ensures var step := Issue(a, s, id, c, signature, now, opening, raw);
            && (step.answer.Told? && step.answer.outcome == Issued
                <==> Proven(a, id, c, signature) && !a.lookup(id).value.revoked && !a.lookup(id).value.expired(now)
                     && id in s.register && id !in s.released && id !in s.reserved
                     && raw.Some? && a.passes(c, raw.value))
            && (step.answer.Told? && step.answer.outcome == Issued ==>
                  && step.answer == Told(Issued, raw)
                  && step.office.requests == s.requests[id := SignedRequest(c, Wallet(signature))]
                  && step.office.log == s.log + [a.commit(id, opening)])
  {
    var held := Reserve(a, s, id, c, signature, now);
    ReservingTakesProof(a, s, id, c, signature, now);
    ReserveKeepsSound(a, s, id, c, signature, now);
    ReleaseAnswers(a, held.office, Request(id, c, Wallet(signature)), opening, raw);
  }

  /** A cancelled citizen may ask again: a proven request in good standing is reserved, whatever value
      it is for. Nobody else's reservation is touched. */
  lemma CancellingFrees(a: Authority, s: Office, id: string, c: Bytes, signature: Bytes, now: int)
    requires Sound(a, s) && id in s.reserved
    requires Proven(a, id, c, signature) && !a.lookup(id).value.revoked && !a.lookup(id).value.expired(now)
    ensures Cancel(s, id).reserved == s.reserved - {id}
    ensures Cancel(s, id).released == s.released && Cancel(s, id).log == s.log
    ensures Reserve(a, s, id, c, signature, now).answer.outcome == RequestPending
    ensures Reserve(a, Cancel(s, id), id, c, signature, now).answer == Told(Reserved, None)
  {
    ReservingTakesProof(a, Cancel(s, id), id, c, signature, now);
  }

  // ---- who gets on the register ----------------------------------------------------------------

  /** The roll names this id here. */
  predicate RollNames(action: Action, id: string) {
    action == DoEnrol(id)
  }

  /** The citizen asks here by a signed document. */
  predicate AsksByDocument(a: Authority, action: Action, id: string) {
    action.DoReserveDocument?
    && a.validate.Some? && a.validate.value(action.document).Validated?
    && a.validate.value(action.document).identifier == id != ""
    && a.checkDocument(action.document, a.validate.value(action.document).covered).Requests?
  }

  predicate EverNamed(actions: seq<Action>, id: string) {
    actions != [] && (EverNamed(actions[..|actions| - 1], id) || RollNames(actions[|actions| - 1], id))
  }

  predicate EverAsked(a: Authority, actions: seq<Action>, id: string) {
    actions != [] && (EverAsked(a, actions[..|actions| - 1], id) || AsksByDocument(a, actions[|actions| - 1], id))
  }

  /** Who is on the register and who is marked, after one step more. */
  ghost predicate Registers(a: Authority, s: Office, t: Office, action: Action, id: string) {
    && t.enrols == s.enrols
    && (id in t.register
        <==> id in s.register || RollNames(action, id) || (s.enrols && AsksByDocument(a, action, id)))
    && (id in t.selfEnrolled
        <==> id in s.selfEnrolled || (s.enrols && AsksByDocument(a, action, id) && id !in s.register))
  }

  ghost predicate SameRolls(s: Office, t: Office) {
    t.enrols == s.enrols && t.register == s.register && t.selfEnrolled == s.selfEnrolled
  }

  lemma ClaimSameRolls(s: Office, r: Request, revoked: bool, expired: bool)
    ensures SameRolls(s, Claim(s, r, revoked, expired).office)
  {
  }

  lemma DocumentRegisters(a: Authority, s: Office, document: Bytes, id: string)
    ensures Registers(a, s, ReserveDocument(a, s, document).office, DoReserveDocument(document), id)
  {
    if a.validate.Some? {
      var found := Interpret(a, a.validate.value, document);
      if found.Understood? {
        ClaimSameRolls(EnrolOnSignature(s, found.request.voterId), found.request, found.revoked, found.expired);
      }
    }
  }

  lemma ReserveSameRolls(a: Authority, s: Office, id: string, c: Bytes, signature: Bytes, now: int)
    ensures SameRolls(s, Reserve(a, s, id, c, signature, now).office)
  {
    if a.lookup(id).Some? {
      var cert := a.lookup(id).value;
      ClaimSameRolls(s, Request(id, c, Wallet(signature)), cert.revoked, cert.expired(now));
    }
  }

  lemma ReleaseSameRolls(a: Authority, s: Office, r: Request, opening: Bytes, raw: Option<Bytes>)
    ensures SameRolls(s, Release(a, s, r, opening, raw).office)
  {
  }

  lemma ActRegisters(a: Authority, s: Office, action: Action, id: string)
    ensures Registers(a, s, Act(a, s, action).office, action, id)
  {
    match action
    case DoReserveDocument(document) => DocumentRegisters(a, s, document, id);
    case DoReserve(i, c, signature, now) => ReserveSameRolls(a, s, i, c, signature, now);
    case DoRelease(r, opening, raw) => ReleaseSameRolls(a, s, r, opening, raw);
    case DoEnrol(i) =>
    case DoCancel(i) =>
  }

  /** Over every run, an id is on the register exactly when it was, or the roll named it, or its owner
      asked by a signed document of an office that enrols on that. */
  lemma {:induction false} RegisterComesFrom(a: Authority, s: Office, actions: seq<Action>, id: string)
    ensures Run(a, s, actions).enrols == s.enrols
    ensures id in Run(a, s, actions).register
       <==> id in s.register || EverNamed(actions, id) || (s.enrols && EverAsked(a, actions, id))
  {
    if actions != [] {
      var n := |actions| - 1;
      RegisterComesFrom(a, s, actions[..n], id);
      ActRegisters(a, Run(a, s, actions[..n]), actions[n], id);
    }
  }

  /** Whom the office added itself is marked: over every run of a new office, an id is on the register
      exactly when it is marked or the roll named it; and an office that does not enrol marks nobody. */
  lemma {:induction false} OwnAdditionsAreMarked(a: Authority, enrols: bool, actions: seq<Action>, id: string)
    ensures var s := Run(a, NewOffice(enrols), actions);
            && s.enrols == enrols
            && (id in s.register <==> id in s.selfEnrolled || EverNamed(actions, id))
            && (id in s.selfEnrolled ==> enrols && EverAsked(a, actions, id))
  {
    if actions != [] {
      var n := |actions| - 1;
      OwnAdditionsAreMarked(a, enrols, actions[..n], id);
      ActRegisters(a, Run(a, NewOffice(enrols), actions[..n]), actions[n], id);
    }
  }

  // ---- what is shown -----------------------------------------------------------------------------

  /** What a supervisor reads in a row opens the commitment beside it, tells whether the office added
      the citizen itself, and shows the request that was kept; and the two signatures are the office's
      over the head of the log and its length. */
  lemma RegisterShows(a: Authority, s: Office)
    requires Sound(a, s)
    ensures var dump := RegisterOf(a, s);
            && dump.enrols == s.enrols && dump.audit == s.audit && dump.count == |s.log| == |dump.releases|
            && (forall id :: id in dump.selfEnrolled <==> id in s.selfEnrolled)
            && dump.headSignature == a.sign(a.payload(ReleaseHead(a.electionId, Head(a.link, s.log))))
            && dump.countSignature == a.sign(a.payload(ReleaseCount(a.electionId, |s.log|)))
            && (forall i :: 0 <= i < |dump.releases| ==>
                  var row := dump.releases[i];
                  && row.index == i && Opening(row.voterId, row.opening) == s.openings[i]
                  && row.commitment == a.commit(row.voterId, row.opening) == s.log[i]
                  && (row.selfEnrolled <==> row.voterId in s.selfEnrolled)
                  && row.voterId in s.requests && row.request == Some(ShownOf(a, s.requests[row.voterId])))
  {
    RegisterChains(a, s);
    forall i | 0 <= i < |s.openings| ensures s.openings[i].voterId in s.requests {
      assert Holds(s.openings, s.openings[i].voterId);
    }
  }

  /** A wallet signature is shown as it is, with the value it is over. */
  lemma WalletIsShown(a: Authority, r: SignedRequest)
    ensures r.evidence.Wallet? <==> ShownOf(a, r).ByWallet?
    ensures ShownOf(a, r).blindedKey == r.blindedKey
    ensures r.evidence.Wallet? ==> ShownOf(a, r).signature == r.evidence.signature
  {
  }

  /** A signed document is not: two of one length and digest, with the same findings, look the same. */
  lemma DocumentsAreNotShown(a: Authority, c: Bytes, d: Bytes, e: Bytes, q: Option<bool>, t: Option<bool>)
    requires a.digest(d) == a.digest(e) && |d| == |e|
    ensures ShownOf(a, SignedRequest(c, Document(d, q, t))) == ShownOf(a, SignedRequest(c, Document(e, q, t)))
    ensures ShownOf(a, SignedRequest(c, Document(d, q, t))) == ByDocument(c, a.digest(d), |d|, q, t)
  {
  }

  /** Nobody is told whether a token was released but the citizen whose wallet has signed this very question;
      everybody else is told the same. */
  lemma QueryTakesProof(a: Authority, s: Office, id: string, signature: Bytes)
    ensures Query(a, s, id, signature) != UnknownVoter
       <==> exists cert ::
              a.lookup(id) == Some(cert) && a.verify(cert.publicKey, signature, a.payload(ReleaseQuery(id)))
  {
  }

  /** A denial is the office's signature over this citizen's denial. */
  lemma DenialNamesTheCitizen(a: Authority, s: Office, id: string, signature: Bytes)
    ensures var answer := Query(a, s, id, signature);
            answer.Denied? ==> answer.denial == a.sign(a.payload(Denial(id)))
  {
  }

  /** Restoring brings everything back: the log, who was released, the openings in order, the requests,
      the private log, the marks and the downloads. */
  lemma EverythingComesBack(a: Authority, s: Office, empty: Office, openings: seq<Opening>)
    requires Sound(a, s) && DistinctCommitments(a, s.openings) && SameOpenings(s.openings, openings) && empty.log == []
    ensures var back := Restore(a, empty, StoredState(s).(openings := openings), Head(a.link, s.log));
            && back.ok
            && back.office == empty.(log := s.log, released := s.released, openings := s.openings,
                                     requests := s.requests, audit := s.audit, selfEnrolled := s.selfEnrolled,
                                     downloads := s.downloads)
  {
    assert [] + s.log == s.log;
    OrderIsRestored(a, s.log, s.openings, openings);
  }
}
