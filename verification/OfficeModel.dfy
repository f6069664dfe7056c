/** What the registration office does, as steps over its state: identifying a requester, claiming
    an identifier, releasing a token, cancelling, answering a voter, and coming back from storage. */
module OfficeModel {
  import opened Base64
  import opened HashChains
  import opened Statements

  // ---- what the office asks somebody else ----------------------------------------

  datatype Certificate = Certificate(publicKey: Bytes, revoked: bool, expired: int -> bool)

  /** What the signature validator reports. An empty identifier is a certificate that names nobody. */
  datatype Finding =
    | NoSignature(reason: string)
    | Validated(identifier: string, covered: int, revoked: bool, expired: bool,
                qualified: Option<bool>, timeVouched: Option<bool>)

  /** What the document check concludes: the blinded value the document asks for, or a refusal. */
  datatype DocumentCheck = Requests(blindedKey: Bytes) | Refused(reason: string)

  /** The office's surroundings: the population register, the two verifiers, the document check,
      the document digest, the commitment, and the self-check of a blind signature under the office's
      public key. */
  datatype Authority = Authority(
    electionId: string,
    lookup: string -> Option<Certificate>,
    verify: (Bytes, Bytes, Bytes) -> bool,
    payload: Statement -> Bytes,
    validate: Option<Bytes -> Finding>,
    checkDocument: (Bytes, int) -> DocumentCheck,
    digest: Bytes -> Bytes,
    commit: (string, Bytes) -> Bytes,
    passes: (Bytes, Bytes) -> bool,
    sign: Bytes -> Bytes,
    link: Link<Bytes>)

  // ---- state ---------------------------------------------------------------------

  datatype Outcome =
    | Issued | NotIdentified | CertificateRevoked | CertificateExpired | NotEligible
    | TokenAlreadyIssued | Reserved | RequestPending | DocumentRefused

  datatype AuditEntry = AuditEntry(voterId: string, outcome: Outcome, reason: string)

  datatype Evidence =
    | Wallet(signature: Bytes)
    | Document(document: Bytes, qualified: Option<bool>, timeVouched: Option<bool>)

  /** A token request by either route, as the office works with it. */
  datatype Request = Request(voterId: string, blindedKey: Bytes, evidence: Evidence)

  datatype SignedRequest = SignedRequest(blindedKey: Bytes, evidence: Evidence)

  /** One item of the openings, an ordered mapping. */
  datatype Opening = Opening(voterId: string, value: Bytes)

  datatype Office = Office(
    register: set<string>,
    enrols: bool,
    selfEnrolled: seq<string>,
    log: seq<Bytes>,
    released: set<string>,
    openings: seq<Opening>,
    requests: map<string, SignedRequest>,
    reserved: map<string, Bytes>,
    audit: seq<AuditEntry>,
    downloads: nat)

  function NewOffice(enrols: bool): Office {
    Office({}, enrols, [], [], {}, [], map[], map[], [], 0)
  }

  /** What a step answers: an outcome, with a blind signature or without; an exception; or nothing. */
  datatype Answer = Told(outcome: Outcome, signature: Option<Bytes>) | Raised | Silent

  datatype Step = Step(office: Office, answer: Answer)

  // ---- the ordered mapping -------------------------------------------------------

  predicate Holds(openings: seq<Opening>, id: string) {
    exists i :: 0 <= i < |openings| && openings[i].voterId == id
  }

  ghost predicate DistinctIds(openings: seq<Opening>) {
    forall i, j :: 0 <= i < j < |openings| ==> openings[i].voterId != openings[j].voterId
  }

  /** `openings[id] = value`: in place for a known id, at the end for a new one. */
  function Put(openings: seq<Opening>, id: string, value: Bytes): seq<Opening> {
    if openings == [] then [Opening(id, value)]
    else if openings[0].voterId == id then [Opening(id, value)] + openings[1..]
    else [openings[0]] + Put(openings[1..], id, value)
  }

  /** `openings.get(id)`. */
  function Find(openings: seq<Opening>, id: string): Option<Bytes> {
    if openings == [] then None
    else if openings[0].voterId == id then Some(openings[0].value)
    else Find(openings[1..], id)
  }

  lemma HoldsInTail(openings: seq<Opening>, id: string)
    requires openings != []
    ensures Holds(openings[1..], id) ==> Holds(openings, id)
    ensures openings[0].voterId == id ==> Holds(openings, id)
  {
    if i :| 0 <= i < |openings[1..]| && openings[1..][i].voterId == id {
      assert openings[i + 1].voterId == id;
    }
  }

  lemma {:induction false} PutFresh(openings: seq<Opening>, id: string, value: Bytes)
    requires !Holds(openings, id)
    ensures Put(openings, id, value) == openings + [Opening(id, value)]
  {
    if openings != [] {
      HoldsInTail(openings, id);
      PutFresh(openings[1..], id, value);
      assert openings == [openings[0]] + openings[1..];
    }
  }

  lemma {:induction false} FindFinds(openings: seq<Opening>, i: nat)
    requires DistinctIds(openings) && i < |openings|
    ensures Find(openings, openings[i].voterId) == Some(openings[i].value)
  {
    if i > 0 {
      FindFinds(openings[1..], i - 1);
    }
  }

  lemma {:induction false} FindMisses(openings: seq<Opening>, id: string)
    requires !Holds(openings, id)
    ensures Find(openings, id) == None
  {
    if openings != [] {
      HoldsInTail(openings, id);
      FindMisses(openings[1..], id);
    }
  }

  // ---- what the private log says ---------------------------------------------------

  const CERTIFICATE_IS_REVOKED := "certificate revoked"
  const CERTIFICATE_HAS_EXPIRED := "certificate expired"
  const NOT_ON_REGISTER := "not on the electoral register"
  const ALREADY_RELEASED := "a token has already been released for this id"
  const AWAITS_RELEASE := "a validated request for this id is awaiting release"
  const NOW_RESERVED := "validated and reserved"
  const NO_ENTRY := "no entry for this id in the population register"
  const BAD_REQUEST_SIGNATURE := "request signature does not verify under the certified key"
  const NAMES_NOBODY := "the signing certificate carries nothing that identifies its subject to this office"
  const RESERVATION_CANCELLED := "reservation cancelled"
  const NO_RESERVATION := "no matching reservation for this id and blinded value"
  const TOKEN_RELEASED := "token released"
  const ENROLLED_ON_SIGNATURE :=
    "enrolled on the strength of their own qualified signature (clause S7); "
    + "this office was not given a roll naming them"

  // ---- the steps -----------------------------------------------------------------

  /** `_record`. */
  function Record(s: Office, id: string, outcome: Outcome, reason: string): Step {
    Step(s.(audit := s.audit + [AuditEntry(id, outcome, reason)]), Told(outcome, None))
  }

  /** `_claim`: everything below the identity boundary, for both routes. */
  function Claim(s: Office, r: Request, revoked: bool, expired: bool): Step {
    if revoked then Record(s, r.voterId, CertificateRevoked, CERTIFICATE_IS_REVOKED)
    else if expired then Record(s, r.voterId, CertificateExpired, CERTIFICATE_HAS_EXPIRED)
    else if r.voterId !in s.register then Record(s, r.voterId, NotEligible, NOT_ON_REGISTER)
    else if r.voterId in s.released then
      Record(s, r.voterId, TokenAlreadyIssued, ALREADY_RELEASED)
    else if r.voterId in s.reserved then
      Record(s, r.voterId, RequestPending, AWAITS_RELEASE)
    else
      Record(s.(reserved := s.reserved[r.voterId := r.blindedKey]), r.voterId, Reserved, NOW_RESERVED)
  }

  /** The wallet route's proof of identity. */
  predicate Identified(a: Authority, id: string, blindedKey: Bytes, signature: Bytes) {
    && a.lookup(id).Some?
    && a.verify(a.lookup(id).value.publicKey, signature, a.payload(TokenRequest(id, blindedKey)))
  }

  /** `reserve`. */
  function Reserve(a: Authority, s: Office, id: string, blindedKey: Bytes, signature: Bytes, now: int): Step {
    match a.lookup(id)
    case None => Record(s, id, NotIdentified, NO_ENTRY)
    case Some(cert) =>
      if !a.verify(cert.publicKey, signature, a.payload(TokenRequest(id, blindedKey))) then
        Record(s, id, NotIdentified, BAD_REQUEST_SIGNATURE)
      else
        Claim(s, Request(id, blindedKey, Wallet(signature)), cert.revoked, cert.expired(now))
  }

  datatype Interpretation =
    | Understood(request: Request, revoked: bool, expired: bool)
    | NotUnderstood(voterId: string, outcome: Outcome, reason: string)

  /** `interpret_signed_document`, given a validator. */
  function Interpret(a: Authority, validate: Bytes -> Finding, document: Bytes): Interpretation {
    match validate(document)
    case NoSignature(reason) => NotUnderstood("", NotIdentified, reason)
    case Validated(identifier, covered, revoked, expired, qualified, timeVouched) =>
      if identifier == "" then
        NotUnderstood("", NotIdentified,
          NAMES_NOBODY)
      else
        match a.checkDocument(document, covered)
        case Refused(reason) =>
          NotUnderstood(identifier, DocumentRefused, "the signed document was refused: " + reason)
        case Requests(blindedKey) =>
          Understood(Request(identifier, blindedKey, Document(document, qualified, timeVouched)), revoked, expired)
  }

  /** `_enrol_on_signature`. */
  function EnrolOnSignature(s: Office, id: string): Office {
    if !s.enrols || id in s.register then s
    else
      s.(register := s.register + {id}, selfEnrolled := s.selfEnrolled + [id],
         audit := s.audit + [AuditEntry(id, Reserved, ENROLLED_ON_SIGNATURE)])
  }

  /** `reserve_signed_document`. It raises in an office that does not offer the route. */
  function ReserveDocument(a: Authority, s: Office, document: Bytes): Step {
    match a.validate
    case None => Step(s, Raised)
    case Some(validate) =>
      match Interpret(a, validate, document)
      case NotUnderstood(id, outcome, reason) => Record(s, id, outcome, reason)
      case Understood(request, revoked, expired) =>
        Claim(EnrolOnSignature(s, request.voterId), request, revoked, expired)
  }

  /** `cancel_reservation`. */
  function Cancel(s: Office, id: string): Office {
    if id !in s.reserved then s
    else
      s.(reserved := s.reserved - {id}, audit := s.audit + [AuditEntry(id, Reserved, RESERVATION_CANCELLED)])
  }

  predicate IsReservedFor(s: Office, r: Request) {
    r.voterId in s.reserved && s.reserved[r.voterId] == r.blindedKey
  }

  /** What a release writes down before anything is signed. */
  function LogRelease(a: Authority, s: Office, r: Request, opening: Bytes): Office {
    s.(reserved := s.reserved - {r.voterId},
       openings := Put(s.openings, r.voterId, opening),
       released := s.released + {r.voterId},
       requests := s.requests[r.voterId := SignedRequest(r.blindedKey, r.evidence)],
       log := s.log + [a.commit(r.voterId, opening)])
  }

  /** `release`. The drawn opening is an argument; `raw` is what the signing operation came back
      with, None where it raised. It raises as well when that fails the fault check. */
  function Release(a: Authority, s: Office, r: Request, opening: Bytes, raw: Option<Bytes>): Step {
    if !IsReservedFor(s, r) then
      Record(s, r.voterId, NotEligible, NO_RESERVATION)
    else
      var t := LogRelease(a, s, r, opening);
      if raw.None? || !a.passes(r.blindedKey, raw.value) then Step(t, Raised)
      else Step(t.(audit := t.audit + [AuditEntry(r.voterId, Issued, TOKEN_RELEASED)]), Told(Issued, raw))
  }

  /** `issue_token`: reserve, then release at once. */
  function Issue(a: Authority, s: Office, id: string, blindedKey: Bytes, signature: Bytes, now: int,
                 opening: Bytes, raw: Option<Bytes>): Step
  {
    var held := Reserve(a, s, id, blindedKey, signature, now);
    if held.answer != Told(Reserved, None) then held
    else Release(a, held.office, Request(id, blindedKey, Wallet(signature)), opening, raw)
  }

  // ---- what holds in every state -------------------------------------------------

  ghost predicate LogMatches(a: Authority, log: seq<Bytes>, openings: seq<Opening>) {
    |log| == |openings|
    && forall i :: 0 <= i < |openings| ==> log[i] == a.commit(openings[i].voterId, openings[i].value)
  }

  /** The office's bookkeeping is consistent: reservations and releases exclude each other and stay
      inside the register; releases, openings, kept requests and log entries correspond one to one,
      in the order of the log. */
  ghost predicate Sound(a: Authority, s: Office) {
    && (forall id {:trigger id in s.reserved} :: id in s.reserved ==> id in s.register && id !in s.released)
    && (forall id {:trigger id in s.released} :: id in s.released ==> id in s.register)
    && (forall id {:trigger id in s.released} {:trigger Holds(s.openings, id)} ::
          id in s.released <==> Holds(s.openings, id))
    && (forall id {:trigger id in s.requests} :: id in s.requests <==> id in s.released)
    && DistinctIds(s.openings)
    && LogMatches(a, s.log, s.openings)
  }

  lemma NewOfficeIsSound(a: Authority, enrols: bool)
    ensures Sound(a, NewOffice(enrols))
  {
  }

  lemma HoldsAppend(openings: seq<Opening>, o: Opening, id: string)
    ensures Holds(openings + [o], id) <==> Holds(openings, id) || id == o.voterId
  {
    var more := openings + [o];
    if i :| 0 <= i < |openings| && openings[i].voterId == id {
      assert more[i].voterId == id;
    }
    assert more[|openings|] == o;
  }

  /** Writing a release down keeps the books, for an id not released before. */
  lemma LogReleaseKeepsSound(a: Authority, s: Office, r: Request, opening: Bytes)
    requires Sound(a, s) && IsReservedFor(s, r)
    ensures Sound(a, LogRelease(a, s, r, opening))
    ensures LogRelease(a, s, r, opening).openings == s.openings + [Opening(r.voterId, opening)]
  {
    assert !Holds(s.openings, r.voterId);
    PutFresh(s.openings, r.voterId, opening);
    forall id ensures Holds(s.openings + [Opening(r.voterId, opening)], id)
                 <==> Holds(s.openings, id) || id == r.voterId {
      HoldsAppend(s.openings, Opening(r.voterId, opening), id);
    }
    forall i | 0 <= i < |s.openings| ensures s.openings[i].voterId != r.voterId {
    }
  }

  /** Nothing but the private log differs. */
  predicate SameBooks(s: Office, t: Office) {
    && t.register == s.register && t.released == s.released && t.openings == s.openings
    && t.requests == s.requests && t.reserved == s.reserved && t.log == s.log
  }

  lemma SameBooksSound(a: Authority, s: Office, t: Office)
    requires Sound(a, s) && SameBooks(s, t)
    ensures Sound(a, t)
  {
  }

  /** A claim changes nothing, or reserves an id of the register that has neither a reservation nor
      a release. */
  lemma ClaimIsExclusive(s: Office, r: Request, revoked: bool, expired: bool)
    ensures var step := Claim(s, r, revoked, expired);
            if step.answer == Told(Reserved, None) then
              r.voterId in s.register && r.voterId !in s.released && r.voterId !in s.reserved
              && SameBooks(s.(reserved := s.reserved[r.voterId := r.blindedKey]), step.office)
            else
              SameBooks(s, step.office) && step.answer.Told? && step.answer.signature == None
  {
  }

  lemma ReservingKeepsSound(a: Authority, s: Office, id: string, blindedKey: Bytes)
    requires Sound(a, s) && id in s.register && id !in s.released
    ensures Sound(a, s.(reserved := s.reserved[id := blindedKey]))
  {
  }

  lemma ClaimKeepsSound(a: Authority, s: Office, r: Request, revoked: bool, expired: bool)
    requires Sound(a, s)
    ensures Sound(a, Claim(s, r, revoked, expired).office)
  {
    var step := Claim(s, r, revoked, expired);
    ClaimIsExclusive(s, r, revoked, expired);
    if step.answer == Told(Reserved, None) {
      ReservingKeepsSound(a, s, r.voterId, r.blindedKey);
      SameBooksSound(a, s.(reserved := s.reserved[r.voterId := r.blindedKey]), step.office);
    } else {
      SameBooksSound(a, s, step.office);
    }
  }

  lemma ReserveKeepsSound(a: Authority, s: Office, id: string, blindedKey: Bytes, signature: Bytes, now: int)
    requires Sound(a, s)
    ensures Sound(a, Reserve(a, s, id, blindedKey, signature, now).office)
  {
    if Identified(a, id, blindedKey, signature) {
      var cert := a.lookup(id).value;
      ClaimKeepsSound(a, s, Request(id, blindedKey, Wallet(signature)), cert.revoked, cert.expired(now));
    } else {
      SameBooksSound(a, s, Reserve(a, s, id, blindedKey, signature, now).office);
    }
  }

  lemma EnrollingKeepsSound(a: Authority, s: Office, id: string)
    requires Sound(a, s)
    ensures Sound(a, s.(register := s.register + {id}))
    ensures Sound(a, EnrolOnSignature(s, id))
  {
    if s.enrols && id !in s.register {
      SameBooksSound(a, s.(register := s.register + {id}), EnrolOnSignature(s, id));
    }
  }

  lemma ReserveDocumentKeepsSound(a: Authority, s: Office, document: Bytes)
    requires Sound(a, s)
    ensures Sound(a, ReserveDocument(a, s, document).office)
  {
    if a.validate.Some? {
      var found := Interpret(a, a.validate.value, document);
      if found.Understood? {
        EnrollingKeepsSound(a, s, found.request.voterId);
        ClaimKeepsSound(a, EnrolOnSignature(s, found.request.voterId), found.request, found.revoked, found.expired);
      } else {
        SameBooksSound(a, s, ReserveDocument(a, s, document).office);
      }
    }
  }

  lemma CancelKeepsSound(a: Authority, s: Office, id: string)
    requires Sound(a, s)
    ensures Sound(a, Cancel(s, id))
  {
  }

  /** A release keeps the books however it ends, and hands out a signature only for an id that had
      none, in the same step that logs it. */
  lemma ReleaseKeepsSound(a: Authority, s: Office, r: Request, opening: Bytes, raw: Option<Bytes>)
    requires Sound(a, s)
    ensures var step := Release(a, s, r, opening, raw);
            && Sound(a, step.office)
            && (step.answer.Told? && step.answer.signature.Some? ==>
                  IsReservedFor(s, r) && HandsOut(a, s, step.office, r, step.answer.signature.value))
  {
    if IsReservedFor(s, r) {
      LogReleaseKeepsSound(a, s, r, opening);
    }
  }

  ghost predicate HandsOut(a: Authority, s: Office, t: Office, r: Request, signature: Bytes) {
    && r.voterId !in s.released
    && t.released == s.released + {r.voterId}
    && |t.log| == |s.log| + 1
    && r.voterId in t.requests && t.requests[r.voterId] == SignedRequest(r.blindedKey, r.evidence)
    && a.passes(r.blindedKey, signature)
  }

  // ---- runs ----------------------------------------------------------------------

  /** Everything that can reach the office, by either route and by the operator. */
  datatype Action =
    | DoEnrol(id: string)
    | DoReserve(id: string, blindedKey: Bytes, signature: Bytes, now: int)
    | DoReserveDocument(document: Bytes)
    | DoCancel(id: string)
    | DoRelease(request: Request, opening: Bytes, raw: Option<Bytes>)

  function Act(a: Authority, s: Office, action: Action): Step {
    match action
    case DoEnrol(id) => Step(s.(register := s.register + {id}), Silent)
    case DoReserve(id, c, signature, now) => Reserve(a, s, id, c, signature, now)
    case DoReserveDocument(document) => ReserveDocument(a, s, document)
    case DoCancel(id) => Step(Cancel(s, id), Silent)
    case DoRelease(r, opening, raw) => Release(a, s, r, opening, raw)
  }

  function Run(a: Authority, s: Office, actions: seq<Action>): Office {
    if actions == [] then s else Act(a, Run(a, s, actions[..|actions| - 1]), actions[|actions| - 1]).office
  }

  datatype Handed = Handed(voterId: string, blindedKey: Bytes, signature: Bytes)

  /** Every step of every interleaving keeps the books, those that raise included. */
  lemma ActKeepsSound(a: Authority, s: Office, action: Action)
    requires Sound(a, s)
    ensures Sound(a, Act(a, s, action).office)
  {
    match action
    case DoEnrol(id) => EnrollingKeepsSound(a, s, id);
    case DoReserve(id, c, signature, now) => ReserveKeepsSound(a, s, id, c, signature, now);
    case DoReserveDocument(document) => ReserveDocumentKeepsSound(a, s, document);
    case DoCancel(id) => CancelKeepsSound(a, s, id);
    case DoRelease(r, opening, raw) => ReleaseKeepsSound(a, s, r, opening, raw);
  }

  /** What was released stays released, to the same request and at the same place in the log. */
  ghost predicate Keeps(s: Office, t: Office) {
    && s.released <= t.released && s.openings <= t.openings && s.log <= t.log
    && (forall id {:trigger id in s.requests} ::
          id in s.requests ==> id in t.requests && t.requests[id] == s.requests[id])
  }

  lemma SameReleasesKeep(s: Office, t: Office)
    requires t.released == s.released && t.openings == s.openings && t.log == s.log && t.requests == s.requests
    ensures Keeps(s, t)
  {
  }

  lemma ClaimKeeps(s: Office, r: Request, revoked: bool, expired: bool)
    ensures Keeps(s, Claim(s, r, revoked, expired).office)
    ensures Claim(s, r, revoked, expired).answer.Told? && Claim(s, r, revoked, expired).answer.signature == None
  {
    ClaimIsExclusive(s, r, revoked, expired);
    SameReleasesKeep(s, Claim(s, r, revoked, expired).office);
  }

  lemma ReserveKeeps(a: Authority, s: Office, id: string, blindedKey: Bytes, signature: Bytes, now: int)
    ensures Keeps(s, Reserve(a, s, id, blindedKey, signature, now).office)
    ensures Reserve(a, s, id, blindedKey, signature, now).answer.Told?
    ensures Reserve(a, s, id, blindedKey, signature, now).answer.signature == None
  {
    if Identified(a, id, blindedKey, signature) {
      var cert := a.lookup(id).value;
      ClaimKeeps(s, Request(id, blindedKey, Wallet(signature)), cert.revoked, cert.expired(now));
    } else {
      SameReleasesKeep(s, Reserve(a, s, id, blindedKey, signature, now).office);
    }
  }

  lemma ReserveDocumentKeeps(a: Authority, s: Office, document: Bytes)
    ensures Keeps(s, ReserveDocument(a, s, document).office)
    ensures var answer := ReserveDocument(a, s, document).answer; answer.Raised? || answer.signature == None
  {
    if a.validate.Some? {
      var found := Interpret(a, a.validate.value, document);
      if found.Understood? {
        var t := EnrolOnSignature(s, found.request.voterId);
        ClaimKeeps(t, found.request, found.revoked, found.expired);
        SameReleasesKeep(s, t);
      } else {
        SameReleasesKeep(s, ReserveDocument(a, s, document).office);
      }
    } else {
      SameReleasesKeep(s, s);
    }
  }

  lemma ReleaseKeeps(a: Authority, s: Office, r: Request, opening: Bytes, raw: Option<Bytes>)
    requires Sound(a, s)
    ensures Keeps(s, Release(a, s, r, opening, raw).office)
  {
    if IsReservedFor(s, r) {
      LogReleaseKeepsSound(a, s, r, opening);
      assert r.voterId !in s.requests;
    } else {
      SameReleasesKeep(s, Release(a, s, r, opening, raw).office);
    }
  }

  lemma ActKeeps(a: Authority, s: Office, action: Action)
    requires Sound(a, s)
    ensures Keeps(s, Act(a, s, action).office)
    ensures var answer := Act(a, s, action).answer; action.DoRelease? || !answer.Told? || answer.signature == None
  {
    match action
    case DoEnrol(id) =>
    case DoReserve(id, c, signature, now) => ReserveKeeps(a, s, id, c, signature, now);
    case DoReserveDocument(document) => ReserveDocumentKeeps(a, s, document);
    case DoCancel(id) =>
    case DoRelease(r, opening, raw) => ReleaseKeeps(a, s, r, opening, raw);
  }

  /** The signatures handed out, against the books. */
  ghost predicate Accounted(a: Authority, s: Office, handed: seq<Handed>) {
    && (forall i, j :: 0 <= i < j < |handed| ==> handed[i].voterId != handed[j].voterId)
    && (forall i :: 0 <= i < |handed| ==> HandedTo(a, s, handed[i]))
    && |handed| <= |s.log|
  }

  ghost predicate HandedTo(a: Authority, s: Office, h: Handed) {
    && h.voterId in s.released && h.voterId in s.requests
    && s.requests[h.voterId].blindedKey == h.blindedKey
    && a.passes(h.blindedKey, h.signature)
  }

  lemma AccountedKeeps(a: Authority, s: Office, t: Office, handed: seq<Handed>)
    requires Accounted(a, s, handed) && Keeps(s, t)
    ensures Accounted(a, t, handed)
  {
    forall i | 0 <= i < |handed| ensures HandedTo(a, t, handed[i]) {
      assert HandedTo(a, s, handed[i]);
    }
  }

  lemma OneMoreHanded(a: Authority, s: Office, t: Office, handed: seq<Handed>, r: Request, signature: Bytes)
    requires Accounted(a, s, handed) && Keeps(s, t) && HandsOut(a, s, t, r, signature)
    ensures Accounted(a, t, handed + [Handed(r.voterId, r.blindedKey, signature)])
  {
    AccountedKeeps(a, s, t, handed);
    forall i | 0 <= i < |handed| ensures handed[i].voterId != r.voterId {
      assert HandedTo(a, s, handed[i]);
    }
  }

  /** The blind signatures that have left the office after one more action. */
  function HandedNext(a: Authority, s: Office, handed: seq<Handed>, action: Action): seq<Handed> {
    var answer := Act(a, s, action).answer;
    if action.DoRelease? && answer.Told? && answer.signature.Some? then
      handed + [Handed(action.request.voterId, action.request.blindedKey, answer.signature.value)]
    else handed
  }

  lemma OneMoreAction(a: Authority, s: Office, handed: seq<Handed>, action: Action)
    requires Sound(a, s) && Accounted(a, s, handed)
    ensures Accounted(a, Act(a, s, action).office, HandedNext(a, s, handed, action))
  {
    ActKeeps(a, s, action);
    var t, answer := Act(a, s, action).office, Act(a, s, action).answer;
    if action.DoRelease? && answer.Told? && answer.signature.Some? {
      ReleaseKeepsSound(a, s, action.request, action.opening, action.raw);
      OneMoreHanded(a, s, t, handed, action.request, answer.signature.value);
    } else {
      AccountedKeeps(a, s, t, handed);
    }
  }

  /** The blind signatures that left the office over a run, in order. */
  function HandedOut(a: Authority, s: Office, actions: seq<Action>): seq<Handed> {
    if actions == [] then []
    else
      var n := |actions| - 1;
      HandedNext(a, Run(a, s, actions[..n]), HandedOut(a, s, actions[..n]), actions[n])
  }

  /** One token per identifier across both routes: along every run, with failures of the signing
      operation wherever they fall, the books stay consistent, and the blind signatures handed out
      go to different identifiers, each to the request kept for it, each passing the fault check,
      and never more of them than there are log entries. */
  lemma {:induction false} OneTokenPerIdentifier(a: Authority, s: Office, actions: seq<Action>)
    requires Sound(a, s)
    ensures Sound(a, Run(a, s, actions)) && Keeps(s, Run(a, s, actions))
    ensures Accounted(a, Run(a, s, actions), HandedOut(a, s, actions))
  {
    if actions != [] {
      var n := |actions| - 1;
      var before := Run(a, s, actions[..n]);
      OneTokenPerIdentifier(a, s, actions[..n]);
      ActKeepsSound(a, before, actions[n]);
      ActKeeps(a, before, actions[n]);
      KeepsTransitive(s, before, Act(a, before, actions[n]).office);
      OneMoreAction(a, before, HandedOut(a, s, actions[..n]), actions[n]);
    }
  }

  lemma KeepsTransitive(s: Office, t: Office, u: Office)
    requires Keeps(s, t) && Keeps(t, u)
    ensures Keeps(s, u)
  {
    assert forall id {:trigger id in s.requests} :: id in s.requests ==> id in t.requests;
  }
}
