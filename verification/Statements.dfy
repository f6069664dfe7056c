/** The ballot record and the nine signed statements of the protocol. */
module Statements {
  import opened Base64
  import opened Canonical
  import opened Ledgers

  // ---- ballots ---------------------------------------------------------------

  datatype Ballot = Ballot(selection: int, adhocKey: Bytes, token: Bytes, nonce: Bytes, signature: Bytes)

  /** `Ballot.to_dict`. */
  function ToDict(b: Ballot): Object {
    [Member("selection", Integer(b.selection)),
     Member("adhoc_public_key", Text(Encode(b.adhocKey))),
     Member("token", Text(Encode(b.token))),
     Member("nonce", Text(Encode(b.nonce))),
     Member("vote_signature", Text(Encode(b.signature)))]
  }

  function Lookup(o: Object, key: string): Option<Value> {
    if o == [] then None else if o[0].key == key then Some(o[0].value) else Lookup(o[1..], key)
  }

  function BytesField(o: Object, key: string): Option<Bytes> {
    match Lookup(o, key)
    case Some(Text(t)) => Decode(t)
    case _ => None
  }

  /** `Ballot.from_dict`; None where it raises. */
  function FromDict(o: Object): Option<Ballot> {
    match (Lookup(o, "selection"), BytesField(o, "adhoc_public_key"), BytesField(o, "token"),
           BytesField(o, "nonce"), BytesField(o, "vote_signature"))
    case (Some(Integer(n)), Some(k), Some(t), Some(c), Some(s)) => Some(Ballot(n, k, t, c, s))
    case _ => None
  }

  lemma {:induction false} LookupAt(o: Object, i: nat)
    requires DistinctKeys(o) && i < |o|
    ensures Lookup(o, o[i].key) == Some(o[i].value)
  {
    if i > 0 {
      LookupAt(o[1..], i - 1);
    }
  }

  lemma BallotKeysDistinct(b: Ballot)
    ensures DistinctKeys(ToDict(b))
  {
  }

  /** `from_dict` inverts `to_dict`. */
  lemma FromDictInvertsToDict(b: Ballot)
    ensures FromDict(ToDict(b)) == Some(b)
  {
    var o := ToDict(b);
    BallotKeysDistinct(b);
    LookupAt(o, 0);
    LookupAt(o, 1);
    LookupAt(o, 2);
    LookupAt(o, 3);
    LookupAt(o, 4);
    DecodeInvertsEncode(b.adhocKey);
    DecodeInvertsEncode(b.token);
    DecodeInvertsEncode(b.nonce);
    DecodeInvertsEncode(b.signature);
  }

  lemma {:induction false} MapHoldsMembers(o: Object, m: Member)
    requires DistinctKeys(o)
    ensures m in o <==> m.key in AsMap(o) && AsMap(o)[m.key] == m.value
  {
    if o != [] {
      assert o == [o[0]] + o[1..];
      MapHoldsMembers(o[1..], m);
      KeysInMap(o[1..]);
    }
  }

  /** The record a ballot is kept as. */
  function RecordText(b: Ballot): string { CanonicalBytes(ToDict(b)) }

  function RejectedDict(b: Ballot, reason: string): Object {
    ToDict(b) + [Member("reason", Text(reason))]
  }

  function RejectedRecordText(b: Ballot, reason: string): string { CanonicalBytes(RejectedDict(b, reason)) }

  lemma LookupFromMap(o: Object, key: string)
    requires DistinctKeys(o)
    ensures Lookup(o, key) == if key in AsMap(o) then Some(AsMap(o)[key]) else None
  {
    if o != [] {
      LookupFromMap(o[1..], key);
    }
  }

  lemma SameMapSameBallot(a: Object, b: Object)
    requires DistinctKeys(a) && DistinctKeys(b) && AsMap(a) == AsMap(b)
    ensures FromDict(a) == FromDict(b) && Lookup(a, "reason") == Lookup(b, "reason")
  {
    forall key: string ensures Lookup(a, key) == Lookup(b, key) {
      LookupFromMap(a, key);
      LookupFromMap(b, key);
    }
  }

  lemma RecordTextInjective(a: Ballot, b: Ballot)
    requires RecordText(a) == RecordText(b)
    ensures a == b
  {
    BallotKeysDistinct(a);
    BallotKeysDistinct(b);
    CanonicalExact(ToDict(a), ToDict(b));
    SameMapSameBallot(ToDict(a), ToDict(b));
    FromDictInvertsToDict(a);
    FromDictInvertsToDict(b);
  }

  lemma RejectedDictFields(b: Ballot, reason: string)
    ensures DistinctKeys(RejectedDict(b, reason))
    ensures FromDict(RejectedDict(b, reason)) == Some(b)
    ensures Lookup(RejectedDict(b, reason), "reason") == Some(Text(reason))
  {
    var o := RejectedDict(b, reason);
    LookupAt(o, 0);
    LookupAt(o, 1);
    LookupAt(o, 2);
    LookupAt(o, 3);
    LookupAt(o, 4);
    LookupAt(o, 5);
    DecodeInvertsEncode(b.adhocKey);
    DecodeInvertsEncode(b.token);
    DecodeInvertsEncode(b.nonce);
    DecodeInvertsEncode(b.signature);
  }

  lemma RejectedRecordTextInjective(a: Ballot, reason: string, b: Ballot, reason': string)
    requires RejectedRecordText(a, reason) == RejectedRecordText(b, reason')
    ensures a == b && reason == reason'
  {
    RejectedDictFields(a, reason);
    RejectedDictFields(b, reason');
    CanonicalExact(RejectedDict(a, reason), RejectedDict(b, reason'));
    SameMapSameBallot(RejectedDict(a, reason), RejectedDict(b, reason'));
  }

  // ---- signed statements -----------------------------------------------------

  const BALLOT_RECEIPT := "ballot-receipt"
  const POLL_PHASE := "poll-phase"
  const REGISTRY_HEAD := "registry-head"
  const TOKEN_RELEASE := "token-release"
  const NO_TOKEN_RELEASED := "no-token-released"
  const TOKENS_RELEASED := "tokens-released"
  const RELEASE_REGISTER_HEAD := "release-register-head"

  datatype Statement =
    | TokenRequest(voterId: string, blindedKey: Bytes)
    | Vote(selection: int, adhocKey: Bytes, nonce: Bytes)
    | Receipt(electionId: string, accepted: bool, reason: string, index: Option<int>, entryHash: Bytes)
    | PollPhase(electionId: string, phase: string, at: int)
    | RegistryHead(electionId: string, ledger: string, head: Bytes)
    | ReleaseQuery(voterId: string)
    | Denial(voterId: string)
    | ReleaseCount(electionId: string, count: int)
    | ReleaseHead(electionId: string, head: Bytes)

  /** The object each payload builder serialises. */
  function Fields(s: Statement): Object {
    match s
    case TokenRequest(voterId, blindedKey) =>
      [Member("voter_id", Text(voterId)), Member("blinded_key", Text(Encode(blindedKey)))]
    case Vote(selection, adhocKey, nonce) =>
      [Member("selection", Integer(selection)), Member("adhoc_public_key", Text(Encode(adhocKey))),
       Member("nonce", Text(Encode(nonce)))]
    case Receipt(electionId, accepted, reason, index, entryHash) =>
      [Member("statement", Text(BALLOT_RECEIPT)), Member("election_id", Text(electionId)),
       Member("accepted", Flag(accepted)), Member("reason", Text(reason)),
       Member("index", if index.None? then Null else Integer(index.value)),
       Member("entry_hash", Text(Encode(entryHash)))]
    case PollPhase(electionId, phase, at) =>
      [Member("statement", Text(POLL_PHASE)), Member("election_id", Text(electionId)),
       Member("phase", Text(phase)), Member("at", Instant(at))]
    case RegistryHead(electionId, ledger, head) =>
      [Member("statement", Text(REGISTRY_HEAD)), Member("election_id", Text(electionId)),
       Member("ledger", Text(ledger)), Member("head", Text(Encode(head)))]
    case ReleaseQuery(voterId) =>
      [Member("query", Text(TOKEN_RELEASE)), Member("voter_id", Text(voterId))]
    case Denial(voterId) =>
      [Member("statement", Text(NO_TOKEN_RELEASED)), Member("voter_id", Text(voterId))]
    case ReleaseCount(electionId, count) =>
      [Member("statement", Text(TOKENS_RELEASED)), Member("election_id", Text(electionId)),
       Member("count", Integer(count))]
    case ReleaseHead(electionId, head) =>
      [Member("statement", Text(RELEASE_REGISTER_HEAD)), Member("election_id", Text(electionId)),
       Member("head", Text(Encode(head)))]
  }

  function StatementText(s: Statement): string { CanonicalBytes(Fields(s)) }

  /** The bytes that are signed. */
  function Payload(h: HashFunction, s: Statement): Bytes { h(StatementText(s)) }

  lemma FieldsDistinct(s: Statement)
    ensures DistinctKeys(Fields(s))
  {
  }

  lemma SameTextSameMembers(s: Statement, t: Statement, m: Member)
    requires StatementText(s) == StatementText(t)
    ensures m in Fields(s) <==> m in Fields(t)
  {
    FieldsDistinct(s);
    FieldsDistinct(t);
    CanonicalExact(Fields(s), Fields(t));
    MapHoldsMembers(Fields(s), m);
    MapHoldsMembers(Fields(t), m);
  }

  /** The member that only statements of this kind carry. */
  function Mark(s: Statement): Member {
    match s
    case TokenRequest(_, blindedKey) => Member("blinded_key", Text(Encode(blindedKey)))
    case Vote(_, adhocKey, _) => Member("adhoc_public_key", Text(Encode(adhocKey)))
    case Receipt(_, _, _, _, _) => Member("statement", Text(BALLOT_RECEIPT))
    case PollPhase(_, _, _) => Member("statement", Text(POLL_PHASE))
    case RegistryHead(_, _, _) => Member("statement", Text(REGISTRY_HEAD))
    case ReleaseQuery(_) => Member("query", Text(TOKEN_RELEASE))
    case Denial(_) => Member("statement", Text(NO_TOKEN_RELEASED))
    case ReleaseCount(_, _) => Member("statement", Text(TOKENS_RELEASED))
    case ReleaseHead(_, _) => Member("statement", Text(RELEASE_REGISTER_HEAD))
  }

  predicate SameKind(s: Statement, t: Statement) {
    match s
    case TokenRequest(_, _) => t.TokenRequest?
    case Vote(_, _, _) => t.Vote?
    case Receipt(_, _, _, _, _) => t.Receipt?
    case PollPhase(_, _, _) => t.PollPhase?
    case RegistryHead(_, _, _) => t.RegistryHead?
    case ReleaseQuery(_) => t.ReleaseQuery?
    case Denial(_) => t.Denial?
    case ReleaseCount(_, _) => t.ReleaseCount?
    case ReleaseHead(_, _) => t.ReleaseHead?
  }

  /** Only statements of one kind carry that kind's mark. */
  lemma MarkSeparates(s: Statement, t: Statement)
    requires Mark(s) in Fields(t)
    ensures SameKind(s, t)
  {
    var k := Mark(s).key;
    assert k == "blinded_key" ==> k[0] == 'b';
    assert "election_id"[0] == 'e' && "selection"[1] == 'e' && "statement"[1] == 't';
    assert "query"[0] == 'q' && "nonce"[0] == 'n' && "index"[0] == 'i' && "phase"[0] == 'p' && "count"[0] == 'c';
  }

  lemma SameKindSameKeys(s: Statement, t: Statement)
    requires SameKind(s, t)
    ensures |Fields(s)| == |Fields(t)|
    ensures forall i :: 0 <= i < |Fields(s)| ==> Fields(s)[i].key == Fields(t)[i].key
  {
  }

  lemma FieldsAgree(s: Statement, t: Statement)
    requires SameKind(s, t) && forall m :: m in Fields(s) ==> m in Fields(t)
    ensures Fields(s) == Fields(t)
  {
    SameKindSameKeys(s, t);
    FieldsDistinct(t);
    var f, g := Fields(s), Fields(t);
    forall i | 0 <= i < |f| ensures f[i] == g[i] {
      assert f[i] in g;
    }
  }

  lemma FieldsDetermine(s: Statement, t: Statement)
    requires SameKind(s, t) && Fields(s) == Fields(t)
    ensures s == t
  {
    var f, g := Fields(s), Fields(t);
    assert f[0] == g[0] && f[1] == g[1];
    match s
    case TokenRequest(_, x) => EncodeInjective(x, t.blindedKey);
    case Vote(_, x, y) =>
      assert f[2] == g[2];
      EncodeInjective(x, t.adhocKey);
      EncodeInjective(y, t.nonce);
    case Receipt(_, _, _, _, x) =>
      assert f[2] == g[2] && f[3] == g[3] && f[4] == g[4] && f[5] == g[5];
      EncodeInjective(x, t.entryHash);
    case PollPhase(_, _, _) => assert f[2] == g[2] && f[3] == g[3];
    case RegistryHead(_, _, x) =>
      assert f[2] == g[2] && f[3] == g[3];
      EncodeInjective(x, t.head);
    case ReleaseCount(_, _) => assert f[2] == g[2];
    case ReleaseHead(_, x) =>
      assert f[2] == g[2];
      EncodeInjective(x, t.head);
    case _ =>
  }

  /** Domain separation: the texts of two statements are equal only when they are the same kind
      of statement about the same things. */
  lemma StatementsSeparated(s: Statement, t: Statement)
    ensures StatementText(s) == StatementText(t) <==> s == t
  {
    if StatementText(s) == StatementText(t) {
      SameTextSameMembers(s, t, Mark(s));
      MarkSeparates(s, t);
      forall m ensures m in Fields(s) ==> m in Fields(t) {
        SameTextSameMembers(s, t, m);
      }
      FieldsAgree(s, t);
      FieldsDetermine(s, t);
    }
  }

  /** So no signature made over one statement can be carried over to another. */
  lemma PayloadsSeparated(h: HashFunction, s: Statement, t: Statement)
    requires CollisionFree(h, {StatementText(s), StatementText(t)})
    ensures Payload(h, s) == Payload(h, t) <==> s == t
  {
    StatementsSeparated(s, t);
  }
}
