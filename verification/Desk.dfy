/** The office's endpoints: the requests held for an operator and the replies held for collection,
    over the office's own state. */
module Desks {
  import opened Base64
  import opened OfficeModel
  import opened Offices

  /** The requests awaiting an operator, and the blind signatures awaiting collection under the
      blinded value they were asked for with. */
  datatype Desk = Desk(office: Office, held: map<string, Request>, replies: map<Bytes, Bytes>, manual: bool)

  datatype Response =
    | Says(outcome: Outcome)
    | AwaitingRelease
    | RouteNotOffered
    | TooLarge
    | Malformed
    | NotFound
    | Fails
    | Cancelled(had: bool)
    | ModeSet(manual: bool)
    | Enrolled
    | Collected(signature: Bytes)

  datatype Served = Served(desk: Desk, response: Response)

  const LARGEST_UPLOAD := 2 * 1024 * 1024

  /** Filing what the office answered to a release. */
  function File(d: Desk, step: Step, blindedKey: Bytes): Served {
    var t := d.(office := step.office);
    if !step.answer.Told? then Served(t, Fails)
    else if step.answer.outcome == Issued && step.answer.signature.Some? then
      Served(t.(replies := t.replies[blindedKey := step.answer.signature.value]), Says(step.answer.outcome))
    else
      Served(t, Says(step.answer.outcome))
  }

  /** `token_request`, on the decoded fields. */
  function AskDecoded(a: Authority, d: Desk, id: string, c: Bytes, signature: Bytes, now: int,
                      opening: Bytes, raw: Option<Bytes>): Served
  {
    if d.manual then
      var step := Reserve(a, d.office, id, c, signature, now);
      if step.answer == Told(Reserved, None) then
        Served(d.(office := step.office, held := d.held[id := Request(id, c, Wallet(signature))]), AwaitingRelease)
      else File(d, step, c)
    else
      File(d, Issue(a, d.office, id, c, signature, now, opening, raw), c)
  }

  /** `token_request`. */
  function Ask(a: Authority, d: Desk, id: string, blindedKey: string, signature: string, now: int,
               opening: Bytes, raw: Option<Bytes>): Served
  {
    match (Decode(blindedKey), Decode(signature))
    case (Some(c), Some(s)) => AskDecoded(a, d, id, c, s, now, opening, raw)
    case _ => Served(d, Malformed)
  }

  /** `signed_token_request`. */
  function AskSigned(a: Authority, d: Desk, document: Bytes, opening: Bytes, raw: Option<Bytes>): Served {
    if |document| > LARGEST_UPLOAD then Served(d, TooLarge)
    else if a.validate.None? then Served(d, RouteNotOffered)
    else
      var step, request := ReserveDocument(a, d.office, document), RequestIn(a, document);
      if step.answer != Told(Reserved, None) || request.None? then File(d, step, "")
      else if d.manual then
        Served(d.(office := step.office, held := d.held[request.value.voterId := request.value]), AwaitingRelease)
      else
        File(d, Release(a, step.office, request.value, opening, raw), request.value.blindedKey)
  }

  /** `operator_release`: the held request is taken off the desk first. */
  function ReleaseHeld(a: Authority, d: Desk, id: string, opening: Bytes, raw: Option<Bytes>): Served {
    if id !in d.held then Served(d, NotFound)
    else
      File(d.(held := d.held - {id}), Release(a, d.office, d.held[id], opening, raw), d.held[id].blindedKey)
  }

  /** `operator_cancel`. */
  function CancelHeld(d: Desk, id: string): Served {
    Served(d.(held := d.held - {id}, office := Cancel(d.office, id)), Cancelled(id in d.office.reserved))
  }

  /** `collect`. */
  function Collect(d: Desk, blindedKey: string): Response {
    match Decode(blindedKey)
    case Some(c) => if c in d.replies then Collected(d.replies[c]) else NotFound
    case None => NotFound
  }

  datatype Call =
    | RequestToken(id: string, blindedKey: string, signature: string, now: int, opening: Bytes, raw: Option<Bytes>)
    | RequestTokenSigned(document: Bytes, opening: Bytes, raw: Option<Bytes>)
    | SetMode(manual: bool)
    | OperatorRelease(id: string, opening: Bytes, raw: Option<Bytes>)
    | OperatorCancel(id: string)
    | EnrolCitizen(id: string)

  function Serve(a: Authority, d: Desk, call: Call): Served {
    match call
    case RequestToken(id, c, signature, now, opening, raw) => Ask(a, d, id, c, signature, now, opening, raw)
    case RequestTokenSigned(document, opening, raw) => AskSigned(a, d, document, opening, raw)
    case SetMode(manual) => Served(d.(manual := manual), ModeSet(manual))
    case OperatorRelease(id, opening, raw) => ReleaseHeld(a, d, id, opening, raw)
    case OperatorCancel(id) => CancelHeld(d, id)
    case EnrolCitizen(id) => Served(d.(office := d.office.(register := d.office.register + {id})), Enrolled)
  }

  function ServeAll(a: Authority, d: Desk, calls: seq<Call>): Desk {
    if calls == [] then d else Serve(a, ServeAll(a, d, calls[..|calls| - 1]), calls[|calls| - 1]).desk
  }

  // ---- what holds after every call ---------------------------------------------------

  /** The desk and the office agree on who is waiting and for what; every reply on file satisfies
      the fault check for the value it is filed under, was asked for by a citizen whose release is
      on record, and there are no more replies than logged releases. */
  ghost predicate Consistent(a: Authority, d: Desk) {
    && Sound(a, d.office)
    && SameWaiting(d.held, d.office.reserved)
    && RepliesAgree(a, d.office, d.replies)
  }

  ghost predicate AskedFor(s: Office, c: Bytes) {
    exists id :: id in s.requests && s.requests[id].blindedKey == c
  }

  ghost predicate SameWaiting(held: map<string, Request>, reserved: map<string, Bytes>) {
    && (forall id {:trigger id in held} {:trigger id in reserved} :: id in held <==> id in reserved)
    && (forall id {:trigger held[id]} :: id in held ==> held[id].voterId == id && held[id].blindedKey == reserved[id])
  }

  ghost predicate RepliesAgree(a: Authority, s: Office, replies: map<Bytes, Bytes>) {
    && (forall c {:trigger c in replies} :: c in replies ==> a.passes(c, replies[c]))
    && (forall c {:trigger c in replies} :: c in replies ==> AskedFor(s, c))
    && |replies| <= |s.log|
  }

  lemma RepliesStay(a: Authority, s: Office, t: Office, replies: map<Bytes, Bytes>)
    requires RepliesAgree(a, s, replies) && Keeps(s, t)
    ensures RepliesAgree(a, t, replies)
  {
    forall c | c in replies ensures AskedFor(t, c) {
      assert AskedFor(s, c);
      var id :| id in s.requests && s.requests[id].blindedKey == c;
      assert id in t.requests;
    }
  }

  lemma RepliesGrow(a: Authority, s: Office, t: Office, replies: map<Bytes, Bytes>, r: Request, signature: Bytes)
    requires RepliesAgree(a, s, replies) && Keeps(s, t) && HandsOut(a, s, t, r, signature)
    ensures RepliesAgree(a, t, replies[r.blindedKey := signature])
  {
    RepliesStay(a, s, t, replies);
    assert t.requests[r.voterId].blindedKey == r.blindedKey;
    assert AskedFor(t, r.blindedKey);
    var more := replies[r.blindedKey := signature];
    assert more.Keys == replies.Keys + {r.blindedKey};
  }

  // ---- how each step moves the reservations -------------------------------------------

  lemma ReserveMoves(a: Authority, s: Office, id: string, c: Bytes, signature: Bytes, now: int)
    ensures var step := Reserve(a, s, id, c, signature, now);
            if step.answer == Told(Reserved, None) then
              id !in s.reserved && step.office.reserved == s.reserved[id := c]
            else step.office.reserved == s.reserved
  {
    if Identified(a, id, c, signature) {
      var cert := a.lookup(id).value;
      ClaimIsExclusive(s, Request(id, c, Wallet(signature)), cert.revoked, cert.expired(now));
    }
  }

  lemma ReserveDocumentMoves(a: Authority, s: Office, document: Bytes)
    ensures var step, request := ReserveDocument(a, s, document), RequestIn(a, document);
            if step.answer == Told(Reserved, None) && request.Some? then
              request.value.voterId !in s.reserved
              && step.office.reserved == s.reserved[request.value.voterId := request.value.blindedKey]
            else step.office.reserved == s.reserved
  {
    var request := RequestIn(a, document);
    if request.Some? {
      var found := Interpret(a, a.validate.value, document);
      ClaimIsExclusive(EnrolOnSignature(s, request.value.voterId), found.request, found.revoked, found.expired);
    }
  }

  lemma ReleaseMoves(a: Authority, s: Office, r: Request, opening: Bytes, raw: Option<Bytes>)
    ensures var t := Release(a, s, r, opening, raw).office;
            t.reserved == if IsReservedFor(s, r) then s.reserved - {r.voterId} else s.reserved
  {
  }

  lemma HoldOneMore(held: map<string, Request>, reserved: map<string, Bytes>, r: Request)
    requires SameWaiting(held, reserved)
    ensures SameWaiting(held[r.voterId := r], reserved[r.voterId := r.blindedKey])
  {
  }

  lemma DropOne(held: map<string, Request>, reserved: map<string, Bytes>, id: string)
    requires SameWaiting(held, reserved)
    ensures SameWaiting(held - {id}, reserved - {id})
  {
  }

  // ---- every call keeps the desk consistent --------------------------------------------

  /** A step that returns no signature leaves the replies as they are. */
  lemma FilingNothing(a: Authority, d: Desk, step: Step, c: Bytes)
    requires Sound(a, step.office) && SameWaiting(d.held, step.office.reserved)
    requires RepliesAgree(a, d.office, d.replies) && Keeps(d.office, step.office)
    requires step.answer.Told? ==> step.answer.signature == None
    ensures Consistent(a, File(d, step, c).desk)
  {
    RepliesStay(a, d.office, step.office, d.replies);
  }

  lemma FilingRelease(a: Authority, d: Desk, s: Office, r: Request, opening: Bytes, raw: Option<Bytes>)
    requires Sound(a, s) && RepliesAgree(a, s, d.replies)
    requires SameWaiting(d.held, Release(a, s, r, opening, raw).office.reserved)
    ensures Consistent(a, File(d, Release(a, s, r, opening, raw), r.blindedKey).desk)
  {
    var step := Release(a, s, r, opening, raw);
    ReleaseKeepsSound(a, s, r, opening, raw);
    ReleaseKeeps(a, s, r, opening, raw);
    if step.answer.Told? && step.answer.signature.Some? {
      RepliesGrow(a, s, step.office, d.replies, r, step.answer.signature.value);
    } else {
      RepliesStay(a, s, step.office, d.replies);
    }
  }

  lemma AskKeeps(a: Authority, d: Desk, id: string, c: Bytes, signature: Bytes, now: int,
                 opening: Bytes, raw: Option<Bytes>)
    requires Consistent(a, d)
    ensures Consistent(a, AskDecoded(a, d, id, c, signature, now, opening, raw).desk)
  {
    var r := Request(id, c, Wallet(signature));
    var step := Reserve(a, d.office, id, c, signature, now);
    ReserveMoves(a, d.office, id, c, signature, now);
    ReserveKeepsSound(a, d.office, id, c, signature, now);
    ReserveKeeps(a, d.office, id, c, signature, now);
    if step.answer != Told(Reserved, None) {
      FilingNothing(a, d, step, c);
    } else {
      RepliesStay(a, d.office, step.office, d.replies);
      if d.manual {
        HoldOneMore(d.held, d.office.reserved, r);
      } else {
        AutomaticRelease(a, d, step.office, r, opening, raw);
      }
    }
  }

  /** Reserving and releasing at once leaves the reservations as they were. */
  lemma AutomaticRelease(a: Authority, d: Desk, s: Office, r: Request, opening: Bytes, raw: Option<Bytes>)
    requires Sound(a, s) && RepliesAgree(a, s, d.replies) && SameWaiting(d.held, d.office.reserved)
    requires r.voterId !in d.office.reserved && s.reserved == d.office.reserved[r.voterId := r.blindedKey]
    ensures Consistent(a, File(d, Release(a, s, r, opening, raw), r.blindedKey).desk)
  {
    ReleaseMoves(a, s, r, opening, raw);
    assert s.reserved - {r.voterId} == d.office.reserved;
    FilingRelease(a, d, s, r, opening, raw);
  }

  lemma AskSignedKeeps(a: Authority, d: Desk, document: Bytes, opening: Bytes, raw: Option<Bytes>)
    requires Consistent(a, d)
    ensures Consistent(a, AskSigned(a, d, document, opening, raw).desk)
  {
    if |document| <= LARGEST_UPLOAD && a.validate.Some? {
      var step, request := ReserveDocument(a, d.office, document), RequestIn(a, document);
      ReserveDocumentMoves(a, d.office, document);
      ReserveDocumentKeepsSound(a, d.office, document);
      ReserveDocumentKeeps(a, d.office, document);
      if step.answer != Told(Reserved, None) || request.None? {
        FilingNothing(a, d, step, "");
      } else {
        RepliesStay(a, d.office, step.office, d.replies);
        if d.manual {
          HoldOneMore(d.held, d.office.reserved, request.value);
        } else {
          AutomaticRelease(a, d, step.office, request.value, opening, raw);
        }
      }
    }
  }

  lemma ReleaseHeldKeeps(a: Authority, d: Desk, id: string, opening: Bytes, raw: Option<Bytes>)
    requires Consistent(a, d)
    ensures Consistent(a, ReleaseHeld(a, d, id, opening, raw).desk)
  {
    if id in d.held {
      var r := d.held[id];
      assert IsReservedFor(d.office, r);
      ReleaseMoves(a, d.office, r, opening, raw);
      DropOne(d.held, d.office.reserved, id);
      FilingRelease(a, d.(held := d.held - {id}), d.office, r, opening, raw);
    }
  }

  lemma CancelHeldKeeps(a: Authority, d: Desk, id: string)
    requires Consistent(a, d)
    ensures Consistent(a, CancelHeld(d, id).desk)
  {
    var t := Cancel(d.office, id);
    CancelKeepsSound(a, d.office, id);
    SameReleasesKeep(d.office, t);
    RepliesStay(a, d.office, t, d.replies);
    DropOne(d.held, d.office.reserved, id);
    assert t.reserved == d.office.reserved - {id};
  }

  lemma CallKeepsConsistent(a: Authority, d: Desk, call: Call)
    requires Consistent(a, d)
    ensures Consistent(a, Serve(a, d, call).desk)
  {
    match call
    case RequestToken(id, c, signature, now, opening, raw) =>
      if Decode(c).Some? && Decode(signature).Some? {
        AskKeeps(a, d, id, Decode(c).value, Decode(signature).value, now, opening, raw);
      }
    case RequestTokenSigned(document, opening, raw) => AskSignedKeeps(a, d, document, opening, raw);
    case SetMode(manual) =>
    case OperatorRelease(id, opening, raw) => ReleaseHeldKeeps(a, d, id, opening, raw);
    case OperatorCancel(id) => CancelHeldKeeps(a, d, id);
    case EnrolCitizen(id) =>
      EnrollingKeepsSound(a, d.office, id);
      SameReleasesKeep(d.office, d.office.(register := d.office.register + {id}));
      RepliesStay(a, d.office, d.office.(register := d.office.register + {id}), d.replies);
  }

  /** Under any sequence of requests on either route, mode switches, operator releases and
      cancellations, failures of the signing operation included. */
  lemma {:induction false} DeskStaysConsistent(a: Authority, d: Desk, calls: seq<Call>)
    requires Consistent(a, d)
    ensures Consistent(a, ServeAll(a, d, calls))
  {
    if calls != [] {
      DeskStaysConsistent(a, d, calls[..|calls| - 1]);
      CallKeepsConsistent(a, ServeAll(a, d, calls[..|calls| - 1]), calls[|calls| - 1]);
    }
  }

  /** A held release never fails for want of a reservation: it issues exactly when the signing
      operation returns something that passes the fault check, and raises otherwise. Either way the
      release is logged and the citizen is no longer waiting. */
  lemma HeldReleaseCompletes(a: Authority, d: Desk, id: string, opening: Bytes, raw: Option<Bytes>)
    requires Consistent(a, d) && id in d.held
    ensures var served := ReleaseHeld(a, d, id, opening, raw);
            && served.response
               == (if raw.Some? && a.passes(d.held[id].blindedKey, raw.value) then Says(Issued) else Fails)
            && served.desk.office.log == d.office.log + [a.commit(id, opening)]
            && id in served.desk.office.released && id !in served.desk.held && id !in served.desk.office.reserved
            && (served.response == Says(Issued) ==>
                  && d.held[id].blindedKey in served.desk.replies
                  && served.desk.replies[d.held[id].blindedKey] == raw.value)
  {
    assert IsReservedFor(d.office, d.held[id]);
  }

  /** What is collected by presenting a blinded value is the reply filed under it, and it passes the
      fault check for that value. */
  lemma CollectedPasses(a: Authority, d: Desk, c: Bytes)
    requires Consistent(a, d)
    ensures Collect(d, Encode(c)) == if c in d.replies then Collected(d.replies[c]) else NotFound
    ensures Collect(d, Encode(c)).Collected? ==> a.passes(c, Collect(d, Encode(c)).signature)
  {
    DecodeInvertsEncode(c);
  }

  // ---- a desk only does what the office allows ------------------------------------------

  /** The office's own steps behind one call. */
  function ActionsOf(a: Authority, d: Desk, call: Call): seq<Action> {
    match call
    case RequestToken(id, blindedKey, signature, now, opening, raw) =>
      (match (Decode(blindedKey), Decode(signature))
       case (Some(c), Some(s)) =>
         var reserve := DoReserve(id, c, s, now);
         if d.manual || Reserve(a, d.office, id, c, s, now).answer != Told(Reserved, None) then [reserve]
         else [reserve, DoRelease(Request(id, c, Wallet(s)), opening, raw)]
       case _ => [])
    case RequestTokenSigned(document, opening, raw) =>
      if |document| > LARGEST_UPLOAD || a.validate.None? then []
      else
        var step, request := ReserveDocument(a, d.office, document), RequestIn(a, document);
        if step.answer != Told(Reserved, None) || request.None? || d.manual then [DoReserveDocument(document)]
        else [DoReserveDocument(document), DoRelease(request.value, opening, raw)]
    case SetMode(_) => []
    case OperatorRelease(id, opening, raw) => if id in d.held then [DoRelease(d.held[id], opening, raw)] else []
    case OperatorCancel(id) => [DoCancel(id)]
    case EnrolCitizen(id) => [DoEnrol(id)]
  }

  function ActionsOfAll(a: Authority, d: Desk, calls: seq<Call>): seq<Action> {
    if calls == [] then []
    else
      var n := |calls| - 1;
      ActionsOfAll(a, d, calls[..n]) + ActionsOf(a, ServeAll(a, d, calls[..n]), calls[n])
  }

  lemma RunOne(a: Authority, s: Office, x: Action)
    ensures Run(a, s, [x]) == Act(a, s, x).office
  {
    assert [x][..0] == [];
  }

  lemma RunTwo(a: Authority, s: Office, x: Action, y: Action)
    ensures Run(a, s, [x, y]) == Act(a, Act(a, s, x).office, y).office
  {
    assert [x, y][..1] == [x];
    RunOne(a, s, x);
  }

  lemma {:induction false} RunAppend(a: Authority, s: Office, xs: seq<Action>, ys: seq<Action>)
    ensures Run(a, s, xs + ys) == Run(a, Run(a, s, xs), ys)
  {
    if ys == [] {
      assert xs + ys == xs;
    } else {
      var n := |ys| - 1;
      RunAppend(a, s, xs, ys[..n]);
      assert (xs + ys)[..|xs + ys| - 1] == xs + ys[..n];
    }
  }

  lemma FilingKeepsOffice(d: Desk, step: Step, c: Bytes)
    ensures File(d, step, c).desk.office == step.office
  {
  }

  /** One step, or one step and the release it made possible. */
  lemma ReserveThenRelease(a: Authority, s: Office, reserve: Action, r: Request, opening: Bytes, raw: Option<Bytes>)
    ensures Run(a, s, [reserve]) == Act(a, s, reserve).office
    ensures Run(a, s, [reserve, DoRelease(r, opening, raw)])
         == Release(a, Act(a, s, reserve).office, r, opening, raw).office
  {
    RunOne(a, s, reserve);
    RunTwo(a, s, reserve, DoRelease(r, opening, raw));
  }

  lemma AskIsActions(a: Authority, d: Desk, id: string, c: Bytes, signature: Bytes, now: int,
                     opening: Bytes, raw: Option<Bytes>)
    ensures var r := Request(id, c, Wallet(signature));
            var step := Reserve(a, d.office, id, c, signature, now);
            AskDecoded(a, d, id, c, signature, now, opening, raw).desk.office
            == if d.manual || step.answer != Told(Reserved, None) then step.office
               else Release(a, step.office, r, opening, raw).office
  {
    var step := Reserve(a, d.office, id, c, signature, now);
    FilingKeepsOffice(d, step, c);
    FilingKeepsOffice(d, Release(a, step.office, Request(id, c, Wallet(signature)), opening, raw), c);
  }

  lemma AskSignedIsActions(a: Authority, d: Desk, document: Bytes, opening: Bytes, raw: Option<Bytes>)
    requires |document| <= LARGEST_UPLOAD && a.validate.Some?
    ensures var step, request := ReserveDocument(a, d.office, document), RequestIn(a, document);
            AskSigned(a, d, document, opening, raw).desk.office
            == if step.answer != Told(Reserved, None) || request.None? || d.manual then step.office
               else Release(a, step.office, request.value, opening, raw).office
  {
    var step, request := ReserveDocument(a, d.office, document), RequestIn(a, document);
    FilingKeepsOffice(d, step, "");
    if request.Some? {
      FilingKeepsOffice(d, Release(a, step.office, request.value, opening, raw), request.value.blindedKey);
    }
  }

  lemma CallIsActions(a: Authority, d: Desk, call: Call)
    ensures Serve(a, d, call).desk.office == Run(a, d.office, ActionsOf(a, d, call))
  {
    match call
    case RequestToken(id, blindedKey, signature, now, opening, raw) =>
      var c, s := Decode(blindedKey), Decode(signature);
      if c.Some? && s.Some? {
        var r := Request(id, c.value, Wallet(s.value));
        AskIsActions(a, d, id, c.value, s.value, now, opening, raw);
        ReserveThenRelease(a, d.office, DoReserve(id, c.value, s.value, now), r, opening, raw);
      }
    case RequestTokenSigned(document, opening, raw) =>
      if |document| <= LARGEST_UPLOAD && a.validate.Some? {
        AskSignedIsActions(a, d, document, opening, raw);
        RunOne(a, d.office, DoReserveDocument(document));
        var request := RequestIn(a, document);
        if request.Some? {
          ReserveThenRelease(a, d.office, DoReserveDocument(document), request.value, opening, raw);
        }
      }
    case SetMode(_) =>
    case OperatorRelease(id, opening, raw) =>
      if id in d.held {
        RunOne(a, d.office, DoRelease(d.held[id], opening, raw));
      }
    case OperatorCancel(id) => RunOne(a, d.office, DoCancel(id));
    case EnrolCitizen(id) => RunOne(a, d.office, DoEnrol(id));
  }

  /** Whatever is called at the desk, the office behind it has taken some run of its own steps, so
      everything proved of the office's runs holds of it. */
  lemma {:induction false} DeskRefinesOffice(a: Authority, d: Desk, calls: seq<Call>)
    ensures ServeAll(a, d, calls).office == Run(a, d.office, ActionsOfAll(a, d, calls))
  {
    if calls != [] {
      var n := |calls| - 1;
      var before := ServeAll(a, d, calls[..n]);
      DeskRefinesOffice(a, d, calls[..n]);
      CallIsActions(a, before, calls[n]);
      RunAppend(a, d.office, ActionsOfAll(a, d, calls[..n]), ActionsOf(a, before, calls[n]));
    }
  }

  // ---- the object ------------------------------------------------------------------------

  class OfficeDesk {
    const vro: VRO
    var held: map<string, Request>
    var replies: map<Bytes, Bytes>
    var manual: bool

    ghost predicate Valid()
      reads this, vro, vro.releaseLog
    {
      vro.Valid()
    }

    ghost function State(): Desk
      reads this, vro, vro.releaseLog
    {
      Desk(vro.State(), held, replies, manual)
    }

    constructor (vro: VRO)
      requires vro.Valid()
      ensures this.vro == vro && Valid() && State() == Desk(vro.State(), map[], map[], false)
    {
      this.vro := vro;
      held, replies, manual := map[], map[], false;
    }

    method TokenRequest(id: string, blindedKey: string, signature: string, now: int, opening: Bytes, raw: Option<Bytes>)
      returns (response: Response)
      requires Valid()
      modifies this`held, this`replies, vro, vro.releaseLog
      ensures Valid()
      ensures Served(State(), response)
           == Ask(vro.authority, old(State()), id, blindedKey, signature, now, opening, raw)
    {
      var blinded, sig := Decode(blindedKey), Decode(signature);
      if blinded.None? || sig.None? {
        return Malformed;
      }
      var answer: Answer;
      if manual {
        answer := vro.Reserve(id, blinded.value, sig.value, now);
        if answer == Told(Reserved, None) {
          held := held[id := Request(id, blinded.value, Wallet(sig.value))];
          return AwaitingRelease;
        }
      } else {
        answer := vro.IssueToken(id, blinded.value, sig.value, now, opening, raw);
      }
      response := FileAnswer(answer, blinded.value);
    }

    method SignedTokenRequest(document: Bytes, opening: Bytes, raw: Option<Bytes>) returns (response: Response)
      requires Valid()
      modifies this`held, this`replies, vro, vro.releaseLog
      ensures Valid()
      ensures Served(State(), response) == AskSigned(vro.authority, old(State()), document, opening, raw)
    {
      if |document| > LARGEST_UPLOAD {
        return TooLarge;
      }
      if vro.authority.validate.None? {
        return RouteNotOffered;
      }
      var answer, request := vro.ReserveSignedDocument(document);
      if answer != Told(Reserved, None) || request.None? {
        response := FileAnswer(answer, "");
      } else {
        response := HoldOrRelease(request.value, opening, raw);
      }
    }

    method HoldOrRelease(request: Request, opening: Bytes, raw: Option<Bytes>) returns (response: Response)
      requires Valid()
      modifies this`held, this`replies, vro, vro.releaseLog
      ensures Valid()
      ensures Served(State(), response) ==
        if old(manual) then
          Served(old(State()).(held := old(held)[request.voterId := request]), AwaitingRelease)
        else
          File(old(State()), Release(vro.authority, old(vro.State()), request, opening, raw), request.blindedKey)
    {
      if manual {
        held := held[request.voterId := request];
        return AwaitingRelease;
      }
      var answer := vro.Release(request, opening, raw);
      response := FileAnswer(answer, request.blindedKey);
    }

    method FileAnswer(answer: Answer, blindedKey: Bytes) returns (response: Response)
      requires Valid()
      modifies this`replies
      ensures Valid()
      ensures Served(State(), response) == File(old(State()), Step(vro.State(), answer), blindedKey)
    {
      if !answer.Told? {
        return Fails;
      }
      if answer.outcome == Issued && answer.signature.Some? {
        replies := replies[blindedKey := answer.signature.value];
      }
      return Says(answer.outcome);
    }

    method OperatorReleases(id: string, opening: Bytes, raw: Option<Bytes>) returns (response: Response)
      requires Valid()
      modifies this`held, this`replies, vro, vro.releaseLog
      ensures Valid()
      ensures Served(State(), response) == ReleaseHeld(vro.authority, old(State()), id, opening, raw)
    {
      if id !in held {
        return NotFound;
      }
      var request := held[id];
      held := held - {id};
      var answer := vro.Release(request, opening, raw);
      response := FileAnswer(answer, request.blindedKey);
    }

    method OperatorCancels(id: string) returns (response: Response)
      requires Valid()
      modifies this`held, vro, vro.releaseLog
      ensures Valid()
      ensures Served(State(), response) == CancelHeld(old(State()), id)
    {
      held := held - {id};
      var had := vro.CancelReservation(id);
      response := Cancelled(had);
    }

    /** `collect`. */
    method CollectReply(blindedKey: string) returns (response: Response)
      ensures response == Collect(Desk(vro.State(), held, replies, manual), blindedKey)
    {
      var c := Decode(blindedKey);
      if c.None? || c.value !in replies {
        return NotFound;
      }
      return Collected(replies[c.value]);
    }

    /** `set_mode`. */
    method SwitchMode(manual: bool) returns (response: Response)
      requires Valid()
      modifies this`manual
      ensures Valid() && Served(State(), response) == Serve(vro.authority, old(State()), SetMode(manual))
    {
      this.manual := manual;
      response := ModeSet(manual);
    }

    method Enrol(id: string) returns (response: Response)
      requires Valid()
      modifies vro`register
      ensures Valid() && Served(State(), response) == Serve(vro.authority, old(State()), EnrolCitizen(id))
    {
      vro.Enrol(id);
      response := Enrolled;
    }
  }
}
