/** What the office's books are good for: the supervision register, the answer to a voter, and the
    restoring of a finished poll in the order of the release chain. */
module OfficeRecords {
  import opened Base64
  import opened Canonical
  import opened HashChains
  import opened Ledgers
  import opened Statements
  import opened OfficeModel

  // ---- the supervision register ----------------------------------------------------

  /** What a supervisor is shown of a request: a wallet signature itself, but of a signed document only
      its digest, its length and the office's two findings about it. */
  datatype Shown =
    | ByWallet(blindedKey: Bytes, signature: Bytes)
    | ByDocument(blindedKey: Bytes, digest: Bytes, length: nat, qualified: Option<bool>, timeVouched: Option<bool>)

  /** `_request_for_supervision`. */
  function ShownOf(a: Authority, r: SignedRequest): Shown {
    match r.evidence
    case Wallet(signature) => ByWallet(r.blindedKey, signature)
    case Document(document, qualified, timeVouched) =>
      ByDocument(r.blindedKey, a.digest(document), |document|, qualified, timeVouched)
  }

  datatype Row = Row(index: nat, voterId: string, opening: Bytes, commitment: Bytes, selfEnrolled: bool,
                     request: Option<Shown>)

  function RowAt(a: Authority, s: Office, i: nat): Row
    requires i < |s.openings|
  {
    var o := s.openings[i];
    Row(i, o.voterId, o.value, a.commit(o.voterId, o.value), o.voterId in s.selfEnrolled,
        if o.voterId in s.requests then Some(ShownOf(a, s.requests[o.voterId])) else None)
  }

  function Rows(a: Authority, s: Office): (rows: seq<Row>)
    ensures |rows| == |s.openings|
  {
    seq(|s.openings|, i requires 0 <= i < |s.openings| => RowAt(a, s, i))
  }

  function Named(ids: seq<string>): set<string> { set id | id in ids }

  /** The whole register as a supervisor is given it. */
  datatype Register = Register(enrols: bool, selfEnrolled: set<string>, releases: seq<Row>, audit: seq<AuditEntry>,
                               head: Bytes, headSignature: Bytes, count: nat, countSignature: Bytes)

  /** `supervision_dump`, but for counting the download. */
  function RegisterOf(a: Authority, s: Office): Register {
    var head := Head(a.link, s.log);
    Register(s.enrols, Named(s.selfEnrolled), Rows(a, s), s.audit,
             head, a.sign(a.payload(ReleaseHead(a.electionId, head))),
             |s.log|, a.sign(a.payload(ReleaseCount(a.electionId, |s.log|))))
  }

  function Commitments(rows: seq<Row>): (cs: seq<Bytes>)
    ensures |cs| == |rows|
  {
    seq(|rows|, i requires 0 <= i < |rows| => rows[i].commitment)
  }

  /** Row i carries log entry i's commitment, so the rows chain to the signed head and are as many as
      the signed count; every row names an entitled citizen, no citizen twice, and exhibits a request. */
  lemma RegisterChains(a: Authority, s: Office)
    requires Sound(a, s)
    ensures Commitments(Rows(a, s)) == s.log
    ensures Head(a.link, Commitments(RegisterOf(a, s).releases)) == RegisterOf(a, s).head
    ensures |RegisterOf(a, s).releases| == RegisterOf(a, s).count
    ensures forall i :: 0 <= i < |Rows(a, s)| ==>
              Rows(a, s)[i].voterId in s.register && Rows(a, s)[i].request.Some?
    ensures forall i, j :: 0 <= i < j < |Rows(a, s)| ==> Rows(a, s)[i].voterId != Rows(a, s)[j].voterId
  {
    forall i | 0 <= i < |s.openings|
      ensures Commitments(Rows(a, s))[i] == s.log[i]
      ensures s.openings[i].voterId in s.register && s.openings[i].voterId in s.requests
    {
      assert Holds(s.openings, s.openings[i].voterId);
    }
  }

  // ---- answering a voter -------------------------------------------------------------

  datatype ReleaseAnswer =
    | UnknownVoter
    | Denied(denial: Bytes)
    | Disclosed(opening: Bytes, index: nat)
    | NoSuchEntry

  predicate AsksAsVoter(a: Authority, id: string, signature: Bytes) {
    && a.lookup(id).Some?
    && a.verify(a.lookup(id).value.publicKey, signature, a.payload(ReleaseQuery(id)))
  }

  function FirstIndex(log: seq<Bytes>, c: Bytes): Option<nat> {
    if log == [] then None
    else
      var n := |log| - 1;
      var before := FirstIndex(log[..n], c);
      if before.Some? then before else if log[n] == c then Some(n) else None
  }

  /** `query_token_release`. `NoSuchEntry` is where looking the commitment up would raise. */
  function Query(a: Authority, s: Office, id: string, signature: Bytes): ReleaseAnswer {
    if !AsksAsVoter(a, id, signature) then UnknownVoter
    else
      match Find(s.openings, id)
      case None => Denied(a.sign(a.payload(Denial(id))))
      case Some(opening) =>
        match FirstIndex(s.log, a.commit(id, opening))
        case None => NoSuchEntry
        case Some(index) => Disclosed(opening, index)
  }

  /** `verify_release_answer`, run by the voter against the published log. */
  predicate VerifyAnswer(a: Authority, published: seq<Bytes>, id: string, answer: ReleaseAnswer) {
    answer.Disclosed? && answer.index < |published| && published[answer.index] == a.commit(id, answer.opening)
  }

  lemma {:induction false} FirstIndexIsFirst(log: seq<Bytes>, c: Bytes)
    ensures FirstIndex(log, c).Some? <==> c in log
    ensures var i := FirstIndex(log, c); i.Some? ==> i.value < |log| && log[i.value] == c && c !in log[..i.value]
  {
    if log != [] {
      var n := |log| - 1;
      FirstIndexIsFirst(log[..n], c);
      assert log == log[..n] + [log[n]];
      var before := FirstIndex(log[..n], c);
      assert before.Some? ==> log[..n][..before.value] == log[..before.value];
    }
  }

  /** An identified voter is told the truth, and what they are told verifies against the log. */
  lemma QueryTellsTheTruth(a: Authority, s: Office, id: string, signature: Bytes)
    requires Sound(a, s)
    ensures var answer := Query(a, s, id, signature);
            && (answer.UnknownVoter? <==> !AsksAsVoter(a, id, signature))
            && (AsksAsVoter(a, id, signature) ==>
                  && (answer.Disclosed? <==> id in s.released)
                  && (answer.Denied? <==> id !in s.released))
            && (answer.Disclosed? ==> VerifyAnswer(a, s.log, id, answer) && Opening(id, answer.opening) in s.openings)
  {
    if id in s.released {
      var i :| 0 <= i < |s.openings| && s.openings[i].voterId == id;
      FindFinds(s.openings, i);
      assert s.openings[i] == Opening(id, s.openings[i].value);
      FirstIndexIsFirst(s.log, a.commit(id, s.openings[i].value));
      assert s.log[i] in s.log;
    } else {
      FindMisses(s.openings, id);
    }
  }

  /** The commitment is the hash of the identifier and the opening, run together. */
  ghost predicate CommitsBy(a: Authority, h: HashFunction) {
    forall id: string, opening: Bytes {:trigger a.commit(id, opening)} :: a.commit(id, opening) == h(id + opening)
  }

  lemma SplitFromEnd(a: string, x: string, b: string, y: string)
    requires |x| == |y| && a + x == b + y
    ensures a == b && x == y
  {
    assert |a| == |b|;
    assert a == (a + x)[..|a|] && x == (a + x)[|a|..];
    assert b == (b + y)[..|b|] && y == (b + y)[|b|..];
  }

  /** When the disclosed value verifies for some identifier: exactly when the two run together to
      the same bytes. Between openings of one length, as the office draws them, that is for the
      identifier the entry was made for and for no other. */
  lemma AnswerNamesOneVoter(a: Authority, h: HashFunction, published: seq<Bytes>, index: nat,
                            id: string, opening: Bytes, id': string, opening': Bytes)
    requires CommitsBy(a, h) && index < |published| && published[index] == a.commit(id, opening)
    requires CollisionFree(h, {id + opening, id' + opening'})
    ensures VerifyAnswer(a, published, id', Disclosed(opening', index)) <==> id' + opening' == id + opening
    ensures |opening'| == |opening| ==>
              (VerifyAnswer(a, published, id', Disclosed(opening', index)) <==> id' == id && opening' == opening)
  {
    if id' + opening' == id + opening && |opening'| == |opening| {
      SplitFromEnd(id', opening', id, opening);
    }
  }

  /** Without that condition it is false: the check does not look at the opening's length, so a
      disclosure for "AB" verifies for "A" with a longer opening. */
  lemma OpeningLengthMatters(a: Authority, h: HashFunction, opening: Bytes)
    requires CommitsBy(a, h)
    ensures VerifyAnswer(a, [a.commit("AB", opening)], "AB", Disclosed(opening, 0))
    ensures VerifyAnswer(a, [a.commit("AB", opening)], "A", Disclosed("B" + opening, 0))
  {
    assert "AB" + opening == "A" + ("B" + opening);
  }

  // ---- back from storage, in the order of the chain -------------------------------------

  /** `by_commitment[c]`: the dict keeps the last of several. */
  function OwnerOf(a: Authority, openings: seq<Opening>, c: Bytes): Option<string> {
    if openings == [] then None
    else
      var n := |openings| - 1;
      if a.commit(openings[n].voterId, openings[n].value) == c then Some(openings[n].voterId)
      else OwnerOf(a, openings[..n], c)
  }

  /** The openings the chain accounts for, in the chain's order. */
  function Chained(a: Authority, log: seq<Bytes>, openings: seq<Opening>): seq<Opening> {
    if log == [] then []
    else
      var n := |log| - 1;
      ChainedNext(a, Chained(a, log[..n], openings), log[n], openings)
  }

  function ChainedNext(a: Authority, ordered: seq<Opening>, c: Bytes, openings: seq<Opening>): seq<Opening> {
    match OwnerOf(a, openings, c)
    case None => ordered
    case Some(id) =>
      if Holds(ordered, id) || Find(openings, id).None? then ordered
      else ordered + [Opening(id, Find(openings, id).value)]
  }

  /** The rest, in the order given. */
  function Completed(ordered: seq<Opening>, openings: seq<Opening>): seq<Opening> {
    if openings == [] then ordered
    else
      var n := |openings| - 1;
      CompletedNext(Completed(ordered, openings[..n]), openings[n])
  }

  function CompletedNext(ordered: seq<Opening>, o: Opening): seq<Opening> {
    if Holds(ordered, o.voterId) then ordered else ordered + [o]
  }

  /** `_in_chain_order`. */
  function InChainOrder(a: Authority, log: seq<Bytes>, openings: seq<Opening>): seq<Opening> {
    Completed(Chained(a, log, openings), openings)
  }

  lemma {:induction false} OwnerOfIsOwner(a: Authority, openings: seq<Opening>, c: Bytes)
    ensures OwnerOf(a, openings, c).Some? <==>
              exists i :: 0 <= i < |openings| && a.commit(openings[i].voterId, openings[i].value) == c
    ensures OwnerOf(a, openings, c).Some? ==>
              exists i :: 0 <= i < |openings| && openings[i].voterId == OwnerOf(a, openings, c).value
                          && a.commit(openings[i].voterId, openings[i].value) == c
  {
    if openings != [] {
      var n := |openings| - 1;
      if a.commit(openings[n].voterId, openings[n].value) != c {
        OwnerOfIsOwner(a, openings[..n], c);
        if i :| 0 <= i < |openings| && a.commit(openings[i].voterId, openings[i].value) == c {
          assert openings[..n][i] == openings[i];
        }
        if OwnerOf(a, openings[..n], c).Some? {
          var i :| 0 <= i < n && openings[..n][i].voterId == OwnerOf(a, openings[..n], c).value
                   && a.commit(openings[..n][i].voterId, openings[..n][i].value) == c;
          assert openings[i] == openings[..n][i];
        }
      }
    }
  }

  lemma {:induction false} FindIsMember(openings: seq<Opening>, id: string)
    ensures Find(openings, id).Some? ==> Opening(id, Find(openings, id).value) in openings
  {
    if openings != [] {
      FindIsMember(openings[1..], id);
    }
  }

  /** A partial order of these openings: each one of them, none twice. */
  ghost predicate OrdersSome(ordered: seq<Opening>, openings: seq<Opening>) {
    DistinctIds(ordered) && forall o :: o in ordered ==> o in openings
  }

  lemma OrdersOneMore(ordered: seq<Opening>, openings: seq<Opening>, o: Opening)
    requires OrdersSome(ordered, openings) && o in openings && !Holds(ordered, o.voterId)
    ensures OrdersSome(ordered + [o], openings)
  {
  }

  lemma {:induction false} ChainedOrders(a: Authority, log: seq<Bytes>, openings: seq<Opening>)
    ensures OrdersSome(Chained(a, log, openings), openings)
  {
    if log != [] {
      var n := |log| - 1;
      var before := Chained(a, log[..n], openings);
      ChainedOrders(a, log[..n], openings);
      var owner := OwnerOf(a, openings, log[n]);
      if owner.Some? && !Holds(before, owner.value) && Find(openings, owner.value).Some? {
        FindIsMember(openings, owner.value);
        OrdersOneMore(before, openings, Opening(owner.value, Find(openings, owner.value).value));
      }
    }
  }

  lemma {:induction false} CompletedOrders(ordered: seq<Opening>, openings: seq<Opening>, k: nat)
    requires OrdersSome(ordered, openings) && k <= |openings|
    ensures OrdersSome(Completed(ordered, openings[..k]), openings)
    ensures forall i :: 0 <= i < k ==> Holds(Completed(ordered, openings[..k]), openings[i].voterId)
  {
    if k > 0 {
      CompletedOrders(ordered, openings, k - 1);
      assert openings[..k][..k - 1] == openings[..k - 1];
      var before, o := Completed(ordered, openings[..k - 1]), openings[k - 1];
      if !Holds(before, o.voterId) {
        OrdersOneMore(before, openings, o);
        forall id ensures Holds(before + [o], id) <==> Holds(before, id) || id == o.voterId {
          HoldsAppend(before, o, id);
        }
      }
    } else {
      assert openings[..0] == [];
    }
  }

  lemma SameIdSameOpening(openings: seq<Opening>, x: Opening, y: Opening)
    requires DistinctIds(openings) && x in openings && y in openings && x.voterId == y.voterId
    ensures x == y
  {
  }

  /** Whatever the stored chain and openings say about each other, no identifier is dropped, none
      is invented, and each keeps its opening. */
  lemma NothingDropped(a: Authority, log: seq<Bytes>, openings: seq<Opening>)
    requires DistinctIds(openings)
    ensures DistinctIds(InChainOrder(a, log, openings))
    ensures forall o :: o in InChainOrder(a, log, openings) <==> o in openings
  {
    ChainedOrders(a, log, openings);
    CompletedOrders(Chained(a, log, openings), openings, |openings|);
    assert openings[..|openings|] == openings;
    var result := InChainOrder(a, log, openings);
    forall o | o in openings ensures o in result {
      assert Holds(result, o.voterId);
      var j :| 0 <= j < |result| && result[j].voterId == o.voterId;
      assert result[j] in openings;
      SameIdSameOpening(openings, result[j], o);
    }
  }

  /** No two of these openings have the same commitment. */
  ghost predicate DistinctCommitments(a: Authority, openings: seq<Opening>) {
    forall x, y {:trigger a.commit(x.voterId, x.value), a.commit(y.voterId, y.value)} ::
      x in openings && y in openings && a.commit(x.voterId, x.value) == a.commit(y.voterId, y.value) ==> x == y
  }

  /** Openings of one length under distinct identifiers give distinct commitments. */
  lemma CommitmentsDiffer(a: Authority, h: HashFunction, openings: seq<Opening>, length: nat)
    requires CommitsBy(a, h)
    requires forall o :: o in openings ==> |o.value| == length
    requires CollisionFree(h, set o | o in openings :: o.voterId + o.value)
    ensures DistinctCommitments(a, openings)
  {
    var inputs := set o | o in openings :: o.voterId + o.value;
    forall x, y | x in openings && y in openings && a.commit(x.voterId, x.value) == a.commit(y.voterId, y.value)
      ensures x == y
    {
      assert x.voterId + x.value in inputs && y.voterId + y.value in inputs;
      SplitFromEnd(x.voterId, x.value, y.voterId, y.value);
    }
  }

  ghost predicate SameOpenings(x: seq<Opening>, y: seq<Opening>) {
    DistinctIds(x) && DistinctIds(y) && forall o :: o in x <==> o in y
  }

  lemma OwnerIsOriginal(a: Authority, original: seq<Opening>, openings: seq<Opening>, k: nat)
    requires SameOpenings(original, openings) && DistinctCommitments(a, original) && k < |original|
    ensures OwnerOf(a, openings, a.commit(original[k].voterId, original[k].value)) == Some(original[k].voterId)
    ensures Find(openings, original[k].voterId) == Some(original[k].value)
  {
    var o := original[k];
    assert o in openings;
    var j :| 0 <= j < |openings| && openings[j] == o;
    FindFinds(openings, j);
    var c := a.commit(o.voterId, o.value);
    OwnerOfIsOwner(a, openings, c);
    assert a.commit(openings[j].voterId, openings[j].value) == c;
    var i :| 0 <= i < |openings| && openings[i].voterId == OwnerOf(a, openings, c).value
             && a.commit(openings[i].voterId, openings[i].value) == c;
    assert openings[i] in original;
  }

  lemma {:induction false} ChainedIsOriginal(a: Authority, log: seq<Bytes>, original: seq<Opening>,
                                             openings: seq<Opening>, k: nat)
    requires SameOpenings(original, openings) && DistinctCommitments(a, original)
    requires LogMatches(a, log, original) && k <= |log|
    ensures Chained(a, log[..k], openings) == original[..k]
  {
    if k > 0 {
      ChainedIsOriginal(a, log, original, openings, k - 1);
      assert log[..k][..k - 1] == log[..k - 1];
      OwnerIsOriginal(a, original, openings, k - 1);
      assert original[k - 1] == Opening(original[k - 1].voterId, original[k - 1].value);
      assert !Holds(original[..k - 1], original[k - 1].voterId);
      assert original[..k] == original[..k - 1] + [original[k - 1]];
    }
  }

  lemma {:induction false} CompletedIsSame(ordered: seq<Opening>, openings: seq<Opening>)
    requires forall o :: o in openings ==> o in ordered
    ensures Completed(ordered, openings) == ordered
  {
    if openings != [] {
      var n := |openings| - 1;
      assert openings[n] in openings;
      var j :| 0 <= j < |ordered| && ordered[j] == openings[n];
      CompletedIsSame(ordered, openings[..n]);
    }
  }

  /** Storage sorts the openings by identifier; the chain puts them back in the order of release,
      from whatever order they come in. */
  lemma OrderIsRestored(a: Authority, log: seq<Bytes>, original: seq<Opening>, openings: seq<Opening>)
    requires SameOpenings(original, openings) && DistinctCommitments(a, original) && LogMatches(a, log, original)
    ensures InChainOrder(a, log, openings) == original
  {
    ChainedIsOriginal(a, log, original, openings, |log|);
    assert log[..|log|] == log && original[..|original|] == original;
    CompletedIsSame(original, openings);
  }

  // ---- storing and restoring -----------------------------------------------------------

  datatype Stored = Stored(releases: seq<Bytes>, released: set<string>, openings: seq<Opening>,
                           audit: seq<AuditEntry>, requests: map<string, SignedRequest>,
                           selfEnrolled: seq<string>, downloads: nat)

  /** `stored_state`, with the head beside it. */
  function StoredState(s: Office): Stored {
    Stored(s.log, s.released, s.openings, s.audit, s.requests, s.selfEnrolled, s.downloads)
  }

  datatype Restored = Restored(office: Office, ok: bool)

  /** `restore_releases`. The commitments are appended before the head is compared, so a refusal
      leaves them in the log. */
  function Restore(a: Authority, s: Office, stored: Stored, expectedHead: Bytes): Restored {
    var t := s.(log := s.log + stored.releases);
    if Head(a.link, t.log) != expectedHead then Restored(t, false)
    else
      Restored(
        t.(released := stored.released, openings := InChainOrder(a, t.log, stored.openings), audit := stored.audit,
           requests := stored.requests, selfEnrolled := stored.selfEnrolled, downloads := stored.downloads),
        true)
  }

  /** A new office restored from what a finished one stored, the openings in any order, holds the
      finished one's books, and shows a supervisor the same register. */
  lemma RestoreReproduces(a: Authority, s: Office, empty: Office, openings: seq<Opening>)
    requires Sound(a, s) && DistinctCommitments(a, s.openings) && SameOpenings(s.openings, openings) && empty.log == []
    ensures var back := Restore(a, empty, StoredState(s).(openings := openings), Head(a.link, s.log));
            && back.ok
            && StoredState(back.office) == StoredState(s)
            && RegisterOf(a, back.office) == RegisterOf(a, s).(enrols := empty.enrols)
  {
    assert [] + s.log == s.log;
    OrderIsRestored(a, s.log, s.openings, openings);
    var back := Restore(a, empty, StoredState(s).(openings := openings), Head(a.link, s.log));
    SameRegister(a, s, back.office);
  }

  lemma SameRegister(a: Authority, s: Office, t: Office)
    requires t.log == s.log && t.openings == s.openings && t.requests == s.requests
    requires t.selfEnrolled == s.selfEnrolled && t.audit == s.audit
    ensures RegisterOf(a, t) == RegisterOf(a, s).(enrols := t.enrols)
  {
    forall i | 0 <= i < |s.openings| ensures RowAt(a, t, i) == RowAt(a, s, i) {
    }
  }

  /** A release log entry's payload, as it is hashed. */
  function CommitmentText(c: Bytes): string {
    CanonicalBytes([Member("commitment", Text(Encode(c)))])
  }

  lemma CommitmentTextInjective(c: Bytes, d: Bytes)
    requires CommitmentText(c) == CommitmentText(d)
    ensures c == d
  {
    var o, p := [Member("commitment", Text(Encode(c)))], [Member("commitment", Text(Encode(d)))];
    CanonicalExact(o, p);
    MapHoldsMembers(o, o[0]);
    MapHoldsMembers(p, o[0]);
    EncodeInjective(c, d);
  }

  /** Against the head the office signed, restoring accepts the original log and no other. */
  lemma RestoresOnlyTheOriginal(a: Authority, h: HashFunction, s: Office, empty: Office, stored: Stored)
    requires IsSha256(h) && Computes(a.link, h, CommitmentText) && empty.log == []
    requires |s.log| <= INDEX_LIMIT && |stored.releases| <= INDEX_LIMIT
    requires NoCollision(h, a.link, CommitmentText, stored.releases, s.log)
    ensures Restore(a, empty, stored, Head(a.link, s.log)).ok <==> stored.releases == s.log
  {
    assert [] + stored.releases == stored.releases;
    HeadBindsRecords(h, a.link, CommitmentText, stored.releases, s.log);
    if SameTexts(CommitmentText, stored.releases, s.log) {
      forall i | 0 <= i < |s.log| ensures stored.releases[i] == s.log[i] {
        CommitmentTextInjective(stored.releases[i], s.log[i]);
      }
    }
  }
}
