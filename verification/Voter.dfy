/** The voter's own steps, one voter's whole way through an election, and what the office's fault
    check means once its key is the one voters blind for. */
module VoterSide {
  import opened Base64
  import opened Statements
  import opened Octets
  import S = BlindSignature
  import Pss = PssEncoding
  import O = OfficeModel
  import B = BoxModel
  import D = Desks
  import Offices
  import BallotBoxes

  function OctetsOf(b: Bytes): (o: Octets)
    ensures |o| == |b|
  {
    seq(|b|, i requires 0 <= i < |b| => b[i] as int)
  }

  function BytesOf(o: Octets): (b: Bytes)
    ensures |b| == |o|
  {
    seq(|o|, i requires 0 <= i < |o| => o[i] as char)
  }

  lemma BytesOfOctets(o: Octets)
    ensures OctetsOf(BytesOf(o)) == o
  {
  }

  /** An ad-hoc key pair: its public half, and signing with the other. */
  datatype AdHocKey = AdHocKey(publicKey: Bytes, sign: Bytes -> Bytes)

  datatype AuthRequest = AuthRequest(voterId: string, blindedKey: Bytes, walletSignature: Bytes)

  class Voter {
    const voterId: string
    const wallet: Bytes -> Bytes
    const payload: Statement -> Bytes
    const vroKey: S.PublicKey
    /** Whether the office's key has the fingerprint the application was given. */
    const pinMatches: bool
    var adhoc: Option<AdHocKey>
    var token: Option<Bytes>
    var blindState: Option<S.BlindState>

    constructor (voterId: string, wallet: Bytes -> Bytes, payload: Statement -> Bytes, vroKey: S.PublicKey,
                 pinMatches: bool)
      ensures this.voterId == voterId && this.wallet == wallet && this.payload == payload
      ensures this.vroKey == vroKey && this.pinMatches == pinMatches
      ensures adhoc == None && token == None && blindState == None
    {
      this.voterId, this.wallet, this.payload := voterId, wallet, payload;
      this.vroKey, this.pinMatches := vroKey, pinMatches;
      adhoc, token, blindState := None, None, None;
    }

    /** Steps 1 to 4, with the drawn key, salt and blinding factor as arguments; None where it
        raises. A key that is not the pinned one leaves the voter as they were. */
    method BuildAuthRequest(hash: Pss.HashFunction, pair: AdHocKey, salt: Octets, r: nat)
      returns (request: Option<AuthRequest>)
      requires Pss.IsHash(hash) && |salt| == Pss.SALT_LEN && 1 <= r < vroKey.n
      modifies this`adhoc, this`blindState
      ensures !pinMatches ==> request == None && adhoc == old(adhoc) && blindState == old(blindState)
      ensures pinMatches ==> adhoc == Some(pair)
      ensures var blinding := S.Blind(hash, vroKey, OctetsOf(pair.publicKey), salt, r);
              pinMatches ==>
                if blinding.Ok? then
                  && blindState == Some(blinding.value.state)
                  && request == Some(AuthRequest(voterId, BytesOf(blinding.value.c),
                                                 wallet(payload(TokenRequest(voterId, BytesOf(blinding.value.c))))))
                else request == None && blindState == old(blindState)
    {
      if !pinMatches {
        return None;
      }
      adhoc := Some(pair);
      var blinding := S.Blind(hash, vroKey, OctetsOf(pair.publicKey), salt, r);
      if blinding.Err? {
        return None;
      }
      blindState := Some(blinding.value.state);
      var c := BytesOf(blinding.value.c);
      return Some(AuthRequest(voterId, c, wallet(payload(TokenRequest(voterId, c)))));
    }

    /** Step 8. False where it raises: a value that does not unblind to a token is not kept, and the
        blinding is not given up for it. */
    method AcceptToken(hash: Pss.HashFunction, blindSignature: Bytes) returns (ok: bool)
      requires Pss.IsHash(hash) && vroKey.n > 0 && adhoc.Some? && blindState.Some? && blindState.value.modulus > 0
      modifies this`token, this`blindState
      ensures var result := S.Finalize(hash, vroKey, OctetsOf(adhoc.value.publicKey), OctetsOf(blindSignature),
                                       old(blindState).value);
              if result.Ok? then ok && token == Some(BytesOf(result.value)) && blindState == None
              else !ok && token == old(token) && blindState == old(blindState)
      ensures ok ==> S.Verify(hash, vroKey, OctetsOf(adhoc.value.publicKey), OctetsOf(token.value))
    {
      var key := OctetsOf(adhoc.value.publicKey);
      var result := S.Finalize(hash, vroKey, key, OctetsOf(blindSignature), blindState.value);
      if result.Err? {
        return false;
      }
      token := Some(BytesOf(result.value));
      blindState := None;
      BytesOfOctets(result.value);
      return true;
    }

    /** Step 9. */
    method Cast(selection: int, nonce: Bytes) returns (ballot: Ballot)
      requires adhoc.Some? && token.Some?
      ensures ballot.selection == selection && ballot.adhocKey == adhoc.value.publicKey && ballot.token == token.value
      ensures ballot.nonce == nonce
      ensures ballot.signature == adhoc.value.sign(payload(B.VoteStatement(ballot)))
    {
      var key := adhoc.value.publicKey;
      ballot := Ballot(selection, key, token.value, nonce, adhoc.value.sign(payload(Vote(selection, key, nonce))));
    }
  }

  // ---- one voter's way -----------------------------------------------------------------------

  /** The office's fault check is the one under this key. */
  ghost predicate ChecksUnder(a: O.Authority, pub: S.PublicKey)
    requires pub.n > 0
  {
    forall c: Bytes, s: Bytes {:trigger a.passes(c, s)} ::
      a.passes(c, s) == S.CheckBlindSignature(pub, OctetsOf(c), OctetsOf(s))
  }

  /** The office checks its blind signatures, and the box its tokens, under the key pair the voter
      blinds for. */
  ghost predicate OneKey(a: O.Authority, p: B.Poll, hash: Pss.HashFunction, pub: S.PublicKey)
    requires Pss.IsHash(hash) && pub.n > 0
  {
    && ChecksUnder(a, pub)
    && (forall k: Bytes, t: Bytes {:trigger p.tokenOk(k, t)} ::
          p.tokenOk(k, t) == S.Verify(hash, pub, OctetsOf(k), OctetsOf(t)))
  }

  /** What the office's signing operation computes for a blinded value. */
  function SignRaw(priv: S.PrivateKey, c: Bytes): Option<Bytes>
    requires priv.n > 0
  {
    match S.BlindSign(priv, OctetsOf(c))
    case Ok(s) => Some(BytesOf(s))
    case Err(_) => None
  }

  lemma SignedPasses(a: O.Authority, poll: B.Poll, hash: Pss.HashFunction, pub: S.PublicKey, priv: S.PrivateKey,
                     p: nat, q: nat, msg: Octets, salt: Octets, r: nat, blinding: S.Blinded)
    requires Pss.IsHash(hash) && |salt| == Pss.SALT_LEN && 1 <= r < pub.n && S.IsKeyPair(pub, priv, p, q)
    requires S.Blind(hash, pub, msg, salt, r) == Pss.Ok(blinding) && OneKey(a, poll, hash, pub)
    ensures var raw := SignRaw(priv, BytesOf(blinding.c));
            && raw.Some? && a.passes(BytesOf(blinding.c), raw.value)
            && blinding.state.modulus == pub.n
            && S.Finalize(hash, pub, msg, OctetsOf(raw.value), blinding.state).Ok?
  {
    S.BlindSignatureCorrect(hash, pub, priv, p, q, msg, salt, r, blinding);
    S.BlindedShape(hash, pub, msg, salt, r, blinding);
    BytesOfOctets(blinding.c);
    BytesOfOctets(S.BlindSign(priv, blinding.c).value);
  }

  datatype Grant = Grant(blindedKey: Bytes, raw: Bytes, token: Bytes)

  /** What asking with this key, salt and factor leads to: the blinded value, what the office's signing
      operation makes of it, and what that unblinds to. None where one of the three raises. */
  function GrantFor(hash: Pss.HashFunction, pub: S.PublicKey, priv: S.PrivateKey, key: Bytes, salt: Octets, r: nat)
    : Option<Grant>
    requires Pss.IsHash(hash) && |salt| == Pss.SALT_LEN && 1 <= r < pub.n && priv.n > 0
  {
    match S.Blind(hash, pub, OctetsOf(key), salt, r)
    case Err(_) => None
    case Ok(blinding) =>
      match SignRaw(priv, BytesOf(blinding.c))
      case None => None
      case Some(raw) =>
        if blinding.state.modulus == 0 then None
        else
          match S.Finalize(hash, pub, OctetsOf(key), OctetsOf(raw), blinding.state)
          case Err(_) => None
          case Ok(token) => Some(Grant(BytesOf(blinding.c), raw, BytesOf(token)))
  }

  /** Whenever blinding goes through, so does the rest: what the office signs passes its fault check,
      and what that unblinds to the box recognises as a token for the key. */
  lemma GrantHolds(a: O.Authority, poll: B.Poll, hash: Pss.HashFunction, pub: S.PublicKey, priv: S.PrivateKey,
                   p: nat, q: nat, key: Bytes, salt: Octets, r: nat)
    requires Pss.IsHash(hash) && |salt| == Pss.SALT_LEN && 1 <= r < pub.n && S.IsKeyPair(pub, priv, p, q)
    requires OneKey(a, poll, hash, pub)
    ensures priv.n > 0
    ensures var grant := GrantFor(hash, pub, priv, key, salt, r);
            && (grant.Some? <==> S.Blind(hash, pub, OctetsOf(key), salt, r).Ok?)
            && (grant.Some? ==>
                  a.passes(grant.value.blindedKey, grant.value.raw) && poll.tokenOk(key, grant.value.token))
  {
    var result := S.Blind(hash, pub, OctetsOf(key), salt, r);
    if result.Ok? {
      var blinding := result.value;
      SignedPasses(a, poll, hash, pub, priv, p, q, OctetsOf(key), salt, r, blinding);
      var raw := SignRaw(priv, BytesOf(blinding.c)).value;
      BytesOfOctets(S.Finalize(hash, pub, OctetsOf(key), OctetsOf(raw), blinding.state).value);
    }
  }

  // ---- the replies on file ---------------------------------------------------------------------

  lemma PassingIsTheSignature(a: O.Authority, pub: S.PublicKey, priv: S.PrivateKey, p: nat, q: nat, c: Bytes, s: Bytes)
    requires S.IsKeyPair(pub, priv, p, q) && pub.n > 0 && ChecksUnder(a, pub)
    ensures a.passes(c, s) <==> SignRaw(priv, c) == Some(s)
  {
    S.CheckAcceptsOnlyTheSignature(pub, priv, p, q, OctetsOf(c), OctetsOf(s));
    OctetsOfBytes(s);
    if S.BlindSign(priv, OctetsOf(c)).Ok? {
      BytesOfOctets(S.BlindSign(priv, OctetsOf(c)).value);
    }
  }

  lemma OctetsOfBytes(b: Bytes)
    ensures BytesOf(OctetsOf(b)) == b
  {
  }

  /** Whatever was asked at the desk and however its signing operation failed on the way, each reply
      kept for collection is the blind signature of the value it is filed under: s^e = c mod n, and
      the very octets that signing c under the private key gives. */
  lemma RepliesAreBlindSignatures(a: O.Authority, pub: S.PublicKey, priv: S.PrivateKey, p: nat, q: nat, d: D.Desk,
                                  calls: seq<D.Call>)
    requires S.IsKeyPair(pub, priv, p, q) && pub.n > 0 && ChecksUnder(a, pub) && D.Consistent(a, d)
    ensures var replies := D.ServeAll(a, d, calls).replies;
            forall c :: c in replies ==>
              && S.ModPow(ToInt(OctetsOf(replies[c])), pub.e, pub.n) == ToInt(OctetsOf(c))
              && SignRaw(priv, c) == Some(replies[c])
  {
    D.DeskStaysConsistent(a, d, calls);
    var replies := D.ServeAll(a, d, calls).replies;
    forall c | c in replies
      ensures S.ModPow(ToInt(OctetsOf(replies[c])), pub.e, pub.n) == ToInt(OctetsOf(c))
      ensures SignRaw(priv, c) == Some(replies[c])
    {
      PassingIsTheSignature(a, pub, priv, p, q, c, replies[c]);
    }
  }

  // ---- asking and being answered ---------------------------------------------------------------

  /** The office has no reason to refuse this voter. */
  ghost predicate MayAsk(a: O.Authority, s: O.Office, id: string, c: Bytes, signature: Bytes, now: int) {
    && O.Identified(a, id, c, signature)
    && !a.lookup(id).value.revoked && !a.lookup(id).value.expired(now)
    && id in s.register && id !in s.released && id !in s.reserved
  }

  lemma ReserveHolds(a: O.Authority, s: O.Office, id: string, c: Bytes, signature: Bytes, now: int)
    requires MayAsk(a, s, id, c, signature, now)
    ensures var held := O.Reserve(a, s, id, c, signature, now);
            held.answer == O.Told(O.Reserved, None) && O.SameBooks(s.(reserved := s.reserved[id := c]), held.office)
  {
  }

  lemma IssueAnswers(a: O.Authority, s: O.Office, id: string, c: Bytes, signature: Bytes, now: int,
                     opening: Bytes, raw: Option<Bytes>)
    requires MayAsk(a, s, id, c, signature, now) && raw.Some? && a.passes(c, raw.value)
    ensures var step := O.Issue(a, s, id, c, signature, now, opening, raw);
            && step.answer == O.Told(O.Issued, raw)
            && id in step.office.released && |step.office.log| == |s.log| + 1
  {
    ReserveHolds(a, s, id, c, signature, now);
  }

  /** Asking and being answered: the office logs one release, and what it hands out unblinds to a
      token that verifies for the voter's ad-hoc key. */
  method ObtainToken(voter: Voter, vro: Offices.VRO, ghost poll: B.Poll, hash: Pss.HashFunction,
                     priv: S.PrivateKey, ghost p: nat, ghost q: nat, pair: AdHocKey, salt: Octets, r: nat,
                     opening: Bytes, now: int)
    returns (ok: bool)
    requires vro.Valid() && Pss.IsHash(hash) && |salt| == Pss.SALT_LEN && 1 <= r < voter.vroKey.n
    requires S.IsKeyPair(voter.vroKey, priv, p, q) && OneKey(vro.authority, poll, hash, voter.vroKey)
    requires voter.pinMatches
    requires S.Blind(hash, voter.vroKey, OctetsOf(pair.publicKey), salt, r).Ok?
    requires forall c: Bytes {:trigger TokenRequest(voter.voterId, c)} ::
      MayAsk(vro.authority, vro.State(), voter.voterId, c,
             voter.wallet(voter.payload(TokenRequest(voter.voterId, c))), now)
    modifies voter, vro, vro.releaseLog
    ensures vro.Valid() && ok && voter.adhoc == Some(pair) && voter.token.Some?
    ensures poll.tokenOk(pair.publicKey, voter.token.value)
    ensures voter.voterId in vro.released && |vro.releaseLog.records| == old(|vro.releaseLog.records|) + 1
  {
    ghost var blinding := S.Blind(hash, voter.vroKey, OctetsOf(pair.publicKey), salt, r).value;
    SignedPasses(vro.authority, poll, hash, voter.vroKey, priv, p, q, OctetsOf(pair.publicKey), salt, r, blinding);
    var request := voter.BuildAuthRequest(hash, pair, salt, r);
    var c := request.value.blindedKey;
    assert c == BytesOf(blinding.c);
    var raw := SignRaw(priv, c);
    ghost var signature := voter.wallet(voter.payload(TokenRequest(voter.voterId, c)));
    IssueAnswers(vro.authority, vro.State(), voter.voterId, c, signature, now, opening, raw);
    var answer := vro.IssueToken(voter.voterId, c, request.value.walletSignature, now, opening, raw);
    ok := voter.AcceptToken(hash, answer.signature.value);
  }

  /** The box has no reason to refuse this ballot, but for a replay. */
  ghost predicate MayVote(poll: B.Poll, s: B.Box, b: Ballot) {
    && B.Opened(s) && !s.closed
    && poll.tokenOk(b.adhocKey, b.token)
    && poll.verify(b.adhocKey, b.signature, poll.payload(B.VoteStatement(b)))
  }

  /** A nonce no accepted ballot carries makes a new record, where the hash tells this one ballot from
      each of the accepted. */
  lemma FreshNonceIsNew(poll: B.Poll, accepted: seq<Ballot>, b: Ballot)
    requires B.Faithful(poll)
    requires forall i :: 0 <= i < |accepted| ==> accepted[i].nonce != b.nonce
    requires forall i :: 0 <= i < |accepted| && poll.h(poll.text(accepted[i])) == poll.h(poll.text(b))
               ==> poll.text(accepted[i]) == poll.text(b)
    ensures B.RecordDigest(poll, b) !in B.RecordDigests(poll, accepted)
  {
    forall i | 0 <= i < |accepted| ensures B.RecordDigest(poll, accepted[i]) != B.RecordDigest(poll, b) {
    }
  }

  ghost predicate SignsFor(poll: B.Poll, pair: AdHocKey) {
    forall m: Bytes {:trigger pair.sign(m)} :: poll.verify(pair.publicKey, pair.sign(m), m)
  }

  lemma SubmitCounts(poll: B.Poll, s: B.Box, b: Ballot, at: real)
    requires MayVote(poll, s, b)
    ensures var answer, accepted := B.SubmitAnswer(poll, s, b, at), B.Submit(poll, s, b, at).registry.accepted;
            if B.RecordDigest(poll, b) !in B.RecordDigests(poll, s.registry.accepted) then
              && answer.accepted && accepted == s.registry.accepted + [b]
              && b.adhocKey in B.Effective(accepted) && B.Effective(accepted)[b.adhocKey] == b
            else !answer.accepted && answer.reason == B.ALREADY_ACCEPTED && accepted == s.registry.accepted
  {
    B.CatchUpKeepsRegistry(poll, s, at);
    B.EffectiveIsLast(s.registry.accepted + [b], |s.registry.accepted|);
  }

  /** What became of the ballot: unless the box holds a record with its very digest, it is accepted
      and is the effective one under its key; then it is refused as a replay and nothing is accepted. */
  ghost predicate CountedUnlessReplay(poll: B.Poll, before: seq<Ballot>, after: seq<Ballot>, ballot: Ballot,
                                      receipt: B.Answer)
  {
    && (receipt.accepted <==> B.RecordDigest(poll, ballot) !in B.RecordDigests(poll, before))
    && (receipt.accepted ==>
          && after == before + [ballot]
          && ballot.adhocKey in B.Effective(after) && B.Effective(after)[ballot.adhocKey] == ballot)
    && (!receipt.accepted ==> receipt.reason == B.ALREADY_ACCEPTED && after == before)
  }

  /** Voting with the token. */
  method CastInto(voter: Voter, box: BallotBoxes.BallotBox, selection: int, nonce: Bytes, at: real)
    returns (ballot: Ballot, receipt: B.Answer)
    requires box.Valid() && voter.adhoc.Some? && voter.token.Some? && voter.payload == box.poll.payload
    requires B.Opened(box.State()) && !box.closed && box.poll.tokenOk(voter.adhoc.value.publicKey, voter.token.value)
    requires SignsFor(box.poll, voter.adhoc.value)
    modifies box, box.accepted, box.rejected
    ensures box.Valid()
    ensures ballot.selection == selection && ballot.nonce == nonce && ballot.adhocKey == voter.adhoc.value.publicKey
    ensures CountedUnlessReplay(box.poll, old(box.accepted.records), box.accepted.records, ballot, receipt)
  {
    ballot := voter.Cast(selection, nonce);
    SubmitCounts(box.poll, box.State(), ballot, at);
    receipt := box.Submit(ballot, at);
  }

  /** An entitled voter who asks, is answered, and votes, is counted: the office releases a token
      whose blind signature passes its own check, it unblinds to a token the box recognises, and the
      ballot becomes the effective one under that voter's ad-hoc key, unless its record is already in
      the box. */
  method Participate(voter: Voter, vro: Offices.VRO, box: BallotBoxes.BallotBox, hash: Pss.HashFunction,
                     priv: S.PrivateKey, ghost p: nat, ghost q: nat, pair: AdHocKey, salt: Octets, r: nat,
                     opening: Bytes, selection: int, nonce: Bytes, now: int, at: real)
    returns (ballot: Ballot, receipt: B.Answer)
    requires vro.Valid() && box.Valid() && Pss.IsHash(hash) && |salt| == Pss.SALT_LEN && 1 <= r < voter.vroKey.n
    requires S.IsKeyPair(voter.vroKey, priv, p, q) && OneKey(vro.authority, box.poll, hash, voter.vroKey)
    requires voter.pinMatches && voter.payload == box.poll.payload
    requires S.Blind(hash, voter.vroKey, OctetsOf(pair.publicKey), salt, r).Ok?
    requires forall c: Bytes {:trigger TokenRequest(voter.voterId, c)} ::
      MayAsk(vro.authority, vro.State(), voter.voterId, c,
             voter.wallet(voter.payload(TokenRequest(voter.voterId, c))), now)
    requires SignsFor(box.poll, pair)
    requires B.Opened(box.State()) && !box.closed
    modifies voter, vro, vro.releaseLog, box, box.accepted, box.rejected
    ensures vro.Valid() && box.Valid()
    ensures voter.voterId in vro.released && |vro.releaseLog.records| == old(|vro.releaseLog.records|) + 1
    ensures ballot.selection == selection && ballot.nonce == nonce && ballot.adhocKey == pair.publicKey
    ensures CountedUnlessReplay(box.poll, old(box.accepted.records), box.accepted.records, ballot, receipt)
  {
    var _ := ObtainToken(voter, vro, box.poll, hash, priv, p, q, pair, salt, r, opening, now);
    ballot, receipt := CastInto(voter, box, selection, nonce, at);
  }
}
