/** What the office's endpoints owe whoever calls them: that an issued signature can be collected, that
    the operator's mode holds, and that behind every release stands the citizen's own request. */
module DeskLaws {
  import opened Base64
  import opened OfficeModel
  import opened OfficeRecords
  import opened OfficeLaws
  import opened Desks
  import opened Offices

  // ---- an issued signature is on file -----------------------------------------------------

  /** The value in a document that the office would take for proof. */
  function ValueIn(a: Authority, document: Bytes): Option<Bytes> {
    match a.validate
    case None => None
    case Some(validate) =>
      match validate(document)
      case NoSignature(_) => None
      case Validated(identifier, covered, _, _, _, _) =>
        if identifier == "" then None
        else
          match a.checkDocument(document, covered)
          case Refused(_) => None
          case Requests(c) => Some(c)
  }

  /** The blinded value a call is about. */
  function ValueOf(a: Authority, d: Desk, call: Call): Option<Bytes> {
    match call
    case RequestToken(_, c, _, _, _, _) => Decode(c)
    case RequestTokenSigned(document, _, _) => ValueIn(a, document)
    case OperatorRelease(id, _, _) => if id in d.held then Some(d.held[id].blindedKey) else None
    case _ => None
  }

  /** What the signing operation comes back with in this call. */
  function RawOf(call: Call): Option<Bytes> {
    match call
    case RequestToken(_, _, _, _, _, raw) => raw
    case RequestTokenSigned(_, _, raw) => raw
    case OperatorRelease(_, _, raw) => raw
    case _ => None
  }

  /** Told that it was issued, the signature is on file under the value asked for; told anything else,
      the file is as it was. */
  ghost predicate Files(a: Authority, d: Desk, call: Call, served: Served) {
    if served.response == Says(Issued) then
      var c := ValueOf(a, d, call);
      && c.Some? && RawOf(call).Some?
      && served.desk.replies == d.replies[c.value := RawOf(call).value]
    else served.desk.replies == d.replies
  }

  lemma FilesStep(d: Desk, step: Step, c: Bytes, raw: Option<Bytes>)
    requires step.answer.Told? && step.answer.outcome == Issued ==> step.answer == Told(Issued, raw) && raw.Some?
    ensures File(d, step, c).response == Says(Issued) <==> step.answer.Told? && step.answer.outcome == Issued
    ensures File(d, step, c).response == Says(Issued) ==> File(d, step, c).desk.replies == d.replies[c := raw.value]
    ensures File(d, step, c).response != Says(Issued) ==> File(d, step, c).desk.replies == d.replies
    ensures File(d, step, c).desk.manual == d.manual && File(d, step, c).desk.held == d.held
    ensures File(d, step, c).desk.office == step.office
  {
  }

  lemma AskFiles(a: Authority, d: Desk, id: string, c: Bytes, signature: Bytes, now: int, opening: Bytes,
                 raw: Option<Bytes>)
    requires Sound(a, d.office)
    ensures var served := AskDecoded(a, d, id, c, signature, now, opening, raw);
            if served.response == Says(Issued) then raw.Some? && served.desk.replies == d.replies[c := raw.value]
            else served.desk.replies == d.replies
  {
    ReservingTakesProof(a, d.office, id, c, signature, now);
    if d.manual {
      var step := Reserve(a, d.office, id, c, signature, now);
      if step.answer.outcome != Reserved {
        FilesStep(d, step, c, raw);
      }
    } else {
      var step := Issue(a, d.office, id, c, signature, now, opening, raw);
      IssuingTakesProof(a, d.office, id, c, signature, now, opening, raw);
      FilesStep(d, step, c, raw);
    }
  }

  lemma ReleaseFiles(a: Authority, d: Desk, s: Office, r: Request, opening: Bytes, raw: Option<Bytes>)
    requires Sound(a, s)
    ensures var served := File(d, Release(a, s, r, opening, raw), r.blindedKey);
            if served.response == Says(Issued) then
              raw.Some? && served.desk.replies == d.replies[r.blindedKey := raw.value]
            else served.desk.replies == d.replies
  {
    ReleaseAnswers(a, s, r, opening, raw);
    FilesStep(d, Release(a, s, r, opening, raw), r.blindedKey, raw);
  }

  lemma AskSignedFiles(a: Authority, d: Desk, document: Bytes, opening: Bytes, raw: Option<Bytes>)
    requires Sound(a, d.office)
    ensures Files(a, d, RequestTokenSigned(document, opening, raw), AskSigned(a, d, document, opening, raw))
  {
    if |document| <= LARGEST_UPLOAD && a.validate.Some? {
      var step := ReserveDocument(a, d.office, document);
      ReserveDocumentKeepsSound(a, d.office, document);
      ReserveDocumentKeeps(a, d.office, document);
      var value := ValueIn(a, document);
      if value.Some? {
        var id := a.validate.value(document).identifier;
        DocumentTakesProof(a, d.office, document, id, value.value);
        var r := DocumentIsClaim(a, d.office, document, id, value.value);
        if step.answer == Told(Reserved, None) && !d.manual {
          ReleaseFiles(a, d, step.office, r, opening, raw);
        }
      }
    }
  }

  lemma CallFiles(a: Authority, d: Desk, call: Call)
    requires Consistent(a, d)
    ensures Files(a, d, call, Serve(a, d, call))
  {
    match call
    case RequestToken(id, c, signature, now, opening, raw) =>
      if Decode(c).Some? && Decode(signature).Some? {
        AskFiles(a, d, id, Decode(c).value, Decode(signature).value, now, opening, raw);
      }
    case RequestTokenSigned(document, opening, raw) => AskSignedFiles(a, d, document, opening, raw);
    case OperatorRelease(id, opening, raw) =>
      if id in d.held {
        ReleaseFiles(a, d.(held := d.held - {id}), d.office, d.held[id], opening, raw);
      }
    case SetMode(_) =>
    case OperatorCancel(_) =>
    case EnrolCitizen(_) =>
  }

  /** An issued token can be collected: whenever a call on either route, or an operator, is told that a
      token was issued, the signature made for it is on file under the blinded value asked for, and
      collecting by that value gives it. Any other call leaves the file as it was. */
  lemma IssuedIsCollected(a: Authority, d: Desk, call: Call)
    requires Consistent(a, d)
    ensures Files(a, d, call, Serve(a, d, call))
    ensures var served := Serve(a, d, call);
            served.response == Says(Issued) ==>
              Collect(served.desk, Encode(ValueOf(a, d, call).value)) == Collected(RawOf(call).value)
  {
    CallFiles(a, d, call);
    if Serve(a, d, call).response == Says(Issued) {
      DecodeInvertsEncode(ValueOf(a, d, call).value);
    }
  }

  /** Some call of these issues for this value. */
  predicate IssuesFor(a: Authority, d: Desk, calls: seq<Call>, c: Bytes) {
    calls != [] && (
      var before, call := ServeAll(a, d, calls[..|calls| - 1]), calls[|calls| - 1];
      || IssuesFor(a, d, calls[..|calls| - 1], c)
      || (Serve(a, before, call).response == Says(Issued) && ValueOf(a, before, call) == Some(c)))
  }

  /** Over every sequence of calls a reply is on file exactly when it was, or a token was issued for its
      value, and it is the one that was unless another was issued for that value. */
  lemma {:induction false} RepliesStayOnFile(a: Authority, d: Desk, calls: seq<Call>, c: Bytes)
    requires Consistent(a, d)
    ensures var e := ServeAll(a, d, calls);
            && (c in e.replies <==> c in d.replies || IssuesFor(a, d, calls, c))
            && (!IssuesFor(a, d, calls, c) && c in d.replies ==> e.replies[c] == d.replies[c])
  {
    if calls != [] {
      var n := |calls| - 1;
      RepliesStayOnFile(a, d, calls[..n], c);
      DeskStaysConsistent(a, d, calls[..n]);
      IssuedIsCollected(a, ServeAll(a, d, calls[..n]), calls[n]);
    }
  }

  // ---- the mode -----------------------------------------------------------------------------

  /** At once: a proven citizen in good standing who has neither a reservation nor a token is issued
      one, if the signing works, and nobody else is. */
  lemma AutomaticIssues(a: Authority, d: Desk, id: string, c: Bytes, signature: Bytes, now: int, opening: Bytes,
                        raw: Option<Bytes>)
    requires Consistent(a, d) && !d.manual
    ensures var served := Ask(a, d, id, Encode(c), Encode(signature), now, opening, raw);
            && (served.response == Says(Issued)
                <==> Proven(a, id, c, signature) && !a.lookup(id).value.revoked && !a.lookup(id).value.expired(now)
                     && id in d.office.register && id !in d.office.released && id !in d.office.reserved
                     && raw.Some? && a.passes(c, raw.value))
            && (served.response == Says(Issued) ==>
                  id in served.desk.office.released && Collect(served.desk, Encode(c)) == Collected(raw.value))
            && served.desk.held == d.held
  {
    DecodeInvertsEncode(c);
    DecodeInvertsEncode(signature);
    IssuingTakesProof(a, d.office, id, c, signature, now, opening, raw);
    FilesStep(d, Issue(a, d.office, id, c, signature, now, opening, raw), c, raw);
  }

  /** By hand: the same citizen is told to wait, their request is held, and nothing is released on
      either route. */
  lemma ManualHolds(a: Authority, d: Desk, id: string, c: Bytes, signature: Bytes, now: int, opening: Bytes,
                    raw: Option<Bytes>)
    requires Consistent(a, d) && d.manual
    ensures var served := Ask(a, d, id, Encode(c), Encode(signature), now, opening, raw);
            && (served.response == AwaitingRelease
                <==> Proven(a, id, c, signature) && !a.lookup(id).value.revoked && !a.lookup(id).value.expired(now)
                     && id in d.office.register && id !in d.office.released && id !in d.office.reserved)
            && served.desk.held == (if served.response == AwaitingRelease then
                                      d.held[id := Request(id, c, Wallet(signature))] else d.held)
  {
    DecodeInvertsEncode(c);
    DecodeInvertsEncode(signature);
    ReservingTakesProof(a, d.office, id, c, signature, now);
  }

  /** The document route keeps to the same two modes. */
  lemma DocumentAnswers(a: Authority, d: Desk, document: Bytes, id: string, c: Bytes, opening: Bytes,
                        raw: Option<Bytes>)
    requires Consistent(a, d) && Documented(a, document, id, c) && |document| <= 2097152
    ensures var served, s := AskSigned(a, d, document, opening, raw), d.office;
            var may := GoodStanding(a, document) && (id in s.register || s.enrols)
                       && id !in s.released && id !in s.reserved;
            && (served.response == AwaitingRelease <==> d.manual && may)
            && (served.response == Says(Issued) <==> !d.manual && may && raw.Some? && a.passes(c, raw.value))
            && (served.response == AwaitingRelease ==>
                  id in served.desk.held && served.desk.held[id].blindedKey == c
                  && served.desk.office.released == s.released)
            && (served.response == Says(Issued) ==>
                  id in served.desk.office.released && served.desk.replies == d.replies[c := raw.value])
  {
    var step := ReserveDocument(a, d.office, document);
    DocumentTakesProof(a, d.office, document, id, c);
    var r := DocumentIsClaim(a, d.office, document, id, c);
    if step.answer == Told(Reserved, None) && !d.manual {
      ReserveDocumentKeepsSound(a, d.office, document);
      ReleaseAnswers(a, step.office, r, opening, raw);
      FilesStep(d, Release(a, step.office, r, opening, raw), c, raw);
    }
  }

  lemma ManualReleasesNothing(a: Authority, d: Desk, call: Call)
    requires d.manual && !call.OperatorRelease?
    ensures var t := Serve(a, d, call).desk.office; t.released == d.office.released && t.log == d.office.log
    ensures Serve(a, d, call).desk.replies == d.replies
  {
    match call
    case RequestToken(id, c, signature, now, opening, raw) =>
      if Decode(c).Some? && Decode(signature).Some? {
        ReservingTakesProof(a, d.office, id, Decode(c).value, Decode(signature).value, now);
      }
    case RequestTokenSigned(document, opening, raw) => DocumentReleasesNothing(a, d.office, document);
    case _ =>
  }

  lemma DocumentReleasesNothing(a: Authority, s: Office, document: Bytes)
    ensures var step := ReserveDocument(a, s, document);
            && step.office.released == s.released && step.office.log == s.log && step.office.requests == s.requests
            && (step.answer.Told? ==> step.answer.signature == None)
  {
    ReserveDocumentKeeps(a, s, document);
    if a.validate.Some? {
      var found := Interpret(a, a.validate.value, document);
      if found.Understood? {
        EnrollingMarks(s, found.request.voterId);
        ClaimAnswers(EnrolOnSignature(s, found.request.voterId), found.request, found.revoked, found.expired);
      }
    }
  }

  /** The mode is the one last set. */
  lemma ModeIsAsSet(a: Authority, d: Desk, call: Call)
    ensures Serve(a, d, call).desk.manual == if call.SetMode? then call.manual else d.manual
  {
  }

  // ---- what is turned away ---------------------------------------------------------------------

  /** Turned away before the office is asked: unreadable fields, an upload over 2 MiB, a route that is
      not offered, a citizen nobody holds a request of. Nothing changes. */
  lemma TurnedAway(a: Authority, d: Desk, call: Call)
    ensures var served := Serve(a, d, call);
            && (served.response == Malformed
                <==> call.RequestToken? && (Decode(call.blindedKey).None? || Decode(call.signature).None?))
            && (served.response == TooLarge <==> call.RequestTokenSigned? && |call.document| > 2097152)
            && (served.response == RouteNotOffered
                <==> call.RequestTokenSigned? && |call.document| <= 2097152 && a.validate.None?)
            && (served.response == NotFound <==> call.OperatorRelease? && call.id !in d.held)
            && (served.response in {Malformed, TooLarge, RouteNotOffered, NotFound} ==> served.desk == d)
  {
  }

  /** Cancelling takes one citizen's held request and reservation away, and says whether there was one. */
  lemma CancellingTakesBack(a: Authority, d: Desk, id: string)
    requires Consistent(a, d)
    ensures var served := Serve(a, d, OperatorCancel(id));
            && served.response == Cancelled(id in d.held)
            && id !in served.desk.held && id !in served.desk.office.reserved
            && (forall other :: other != id ==> (other in served.desk.held <==> other in d.held))
            && (forall other :: other in served.desk.held ==> served.desk.held[other] == d.held[other])
            && served.desk.replies == d.replies && served.desk.office.released == d.office.released
  {
  }

  // ---- behind every release a request -------------------------------------------------------------

  /** This evidence is the citizen's own, for this value, under a certificate that was not revoked. */
  ghost predicate Evidenced(a: Authority, id: string, c: Bytes, e: Evidence) {
    match e
    case Wallet(signature) => Proven(a, id, c, signature) && !a.lookup(id).value.revoked
    case Document(document, qualified, timeVouched) =>
      && Documented(a, document, id, c) && GoodStanding(a, document)
      && a.validate.value(document).qualified == qualified && a.validate.value(document).timeVouched == timeVouched
  }

  ghost predicate HeldEvidenced(a: Authority, held: map<string, Request>) {
    forall id {:trigger held[id]} :: id in held ==>
      held[id].voterId == id && Evidenced(a, id, held[id].blindedKey, held[id].evidence)
  }

  ghost predicate KeptEvidenced(a: Authority, requests: map<string, SignedRequest>) {
    forall id {:trigger requests[id]} :: id in requests ==>
      Evidenced(a, id, requests[id].blindedKey, requests[id].evidence)
  }

  ghost predicate AllEvidenced(a: Authority, d: Desk) {
    HeldEvidenced(a, d.held) && KeptEvidenced(a, d.office.requests)
  }

  /** One call takes at most this request in, or gives it up, or writes it down. */
  ghost predicate Moves(d: Desk, e: Desk, r: Request) {
    && (e.held == d.held || e.held == d.held[r.voterId := r] || e.held == d.held - {r.voterId})
    && (e.office.requests == d.office.requests
        || e.office.requests == d.office.requests[r.voterId := SignedRequest(r.blindedKey, r.evidence)])
  }

  lemma MovesKeepEvidence(a: Authority, d: Desk, e: Desk, r: Request)
    requires AllEvidenced(a, d) && Moves(d, e, r) && Evidenced(a, r.voterId, r.blindedKey, r.evidence)
    ensures AllEvidenced(a, e)
  {
  }

  lemma ReleaseMovesOne(a: Authority, s: Office, r: Request, opening: Bytes, raw: Option<Bytes>)
    ensures var t := Release(a, s, r, opening, raw).office;
            t.requests == s.requests
            || t.requests == s.requests[r.voterId := SignedRequest(r.blindedKey, r.evidence)]
  {
  }

  lemma FileKeepsHeld(d: Desk, step: Step, c: Bytes)
    ensures File(d, step, c).desk.held == d.held && File(d, step, c).desk.office == step.office
  {
  }

  lemma AskMoves(a: Authority, d: Desk, id: string, c: Bytes, signature: Bytes, now: int, opening: Bytes,
                 raw: Option<Bytes>)
    ensures var e, r := AskDecoded(a, d, id, c, signature, now, opening, raw).desk, Request(id, c, Wallet(signature));
            && Moves(d, e, r)
            && (e.held != d.held || e.office.requests != d.office.requests ==>
                  Proven(a, id, c, signature) && !a.lookup(id).value.revoked)
  {
    var r, step := Request(id, c, Wallet(signature)), Reserve(a, d.office, id, c, signature, now);
    ReservingTakesProof(a, d.office, id, c, signature, now);
    if step.answer.outcome != Reserved {
      FileKeepsHeld(d, step, c);
    } else if !d.manual {
      ReleaseMovesOne(a, step.office, r, opening, raw);
      FileKeepsHeld(d, Release(a, step.office, r, opening, raw), c);
    }
  }

  lemma AskSignedMoves(a: Authority, d: Desk, document: Bytes, opening: Bytes, raw: Option<Bytes>)
    ensures var e := AskSigned(a, d, document, opening, raw).desk;
            e.held != d.held || e.office.requests != d.office.requests ==>
              && RequestIn(a, document).Some? && Moves(d, e, RequestIn(a, document).value)
              && ReserveDocument(a, d.office, document).answer == Told(Reserved, None)
  {
    if |document| <= LARGEST_UPLOAD && a.validate.Some? {
      var step, request := ReserveDocument(a, d.office, document), RequestIn(a, document);
      DocumentReleasesNothing(a, d.office, document);
      if step.answer != Told(Reserved, None) || request.None? {
        FileKeepsHeld(d, step, "");
      } else if !d.manual {
        ReleaseMovesOne(a, step.office, request.value, opening, raw);
        FileKeepsHeld(d, Release(a, step.office, request.value, opening, raw), request.value.blindedKey);
      }
    }
  }

  lemma DocumentIsEvidence(a: Authority, s: Office, document: Bytes)
    requires RequestIn(a, document).Some? && ReserveDocument(a, s, document).answer == Told(Reserved, None)
    ensures var r := RequestIn(a, document).value; Evidenced(a, r.voterId, r.blindedKey, r.evidence)
  {
    var value := ValueIn(a, document);
    DocumentTakesProof(a, s, document, a.validate.value(document).identifier, value.value);
  }

  lemma CallKeepsEvidence(a: Authority, d: Desk, call: Call)
    requires Consistent(a, d) && AllEvidenced(a, d)
    ensures AllEvidenced(a, Serve(a, d, call).desk)
  {
    var e := Serve(a, d, call).desk;
    match call
    case RequestToken(id, c, signature, now, opening, raw) =>
      if Decode(c).Some? && Decode(signature).Some? {
        AskMoves(a, d, id, Decode(c).value, Decode(signature).value, now, opening, raw);
        if e.held != d.held || e.office.requests != d.office.requests {
          MovesKeepEvidence(a, d, e, Request(id, Decode(c).value, Wallet(Decode(signature).value)));
        }
      }
    case RequestTokenSigned(document, opening, raw) =>
      AskSignedMoves(a, d, document, opening, raw);
      if e.held != d.held || e.office.requests != d.office.requests {
        DocumentIsEvidence(a, d.office, document);
        MovesKeepEvidence(a, d, e, RequestIn(a, document).value);
      }
    case OperatorRelease(id, opening, raw) =>
      if id in d.held {
        ReleaseMovesOne(a, d.office, d.held[id], opening, raw);
        FileKeepsHeld(d.(held := d.held - {id}), Release(a, d.office, d.held[id], opening, raw), d.held[id].blindedKey);
        MovesKeepEvidence(a, d, e, d.held[id]);
      }
    case OperatorCancel(id) =>
    case SetMode(_) =>
    case EnrolCitizen(_) =>
  }

  /** Behind every release stands the citizen's own request: whatever is called, by anybody, every
      request held and every request kept beside a release is proven to be this citizen's for this
      value. */
  lemma {:induction false} EveryRequestIsProven(a: Authority, d: Desk, calls: seq<Call>)
    requires Consistent(a, d) && AllEvidenced(a, d)
    ensures AllEvidenced(a, ServeAll(a, d, calls))
  {
    if calls != [] {
      EveryRequestIsProven(a, d, calls[..|calls| - 1]);
      DeskStaysConsistent(a, d, calls[..|calls| - 1]);
      CallKeepsEvidence(a, ServeAll(a, d, calls[..|calls| - 1]), calls[|calls| - 1]);
    }
  }

  /** So a supervisor can check it: in the register of an office that began with no requests, every
      wallet signature shown verifies for the citizen and the value of its row. */
  lemma RegisterExhibitsRequests(a: Authority, d: Desk, calls: seq<Call>, i: nat)
    requires Consistent(a, d) && d.held == map[] && d.office.requests == map[]
    requires i < |RegisterOf(a, ServeAll(a, d, calls).office).releases|
    ensures var row := RegisterOf(a, ServeAll(a, d, calls).office).releases[i];
            && row.request.Some?
            && (row.request.value.ByWallet? ==>
                  Proven(a, row.voterId, row.request.value.blindedKey, row.request.value.signature))
  {
    var s := ServeAll(a, d, calls).office;
    DeskStaysConsistent(a, d, calls);
    EveryRequestIsProven(a, d, calls);
    RegisterShows(a, s);
    var id := RegisterOf(a, s).releases[i].voterId;
    WalletIsShown(a, s.requests[id]);
  }
}
