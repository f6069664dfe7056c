/** The exact bytes: what every record and every signed statement is written as, what is hashed for an
    entry, and how bytes are spelt in base64url. */
module Wires {
  import opened Base64
  import opened Canonical
  import opened HashChains
  import opened Ledgers
  import opened Statements
  import O = Octets
  import opened NumberTheory

  // ---- how an object is written ---------------------------------------------------------------

  /** Text that needs no escape: no quote, no backslash, no control character. */
  predicate Plain(s: string) {
    forall i :: 0 <= i < |s| ==> s[i] as int >= 32 && s[i] != '"' && s[i] != '\\'
  }

  function Quoted(s: string): string { "\"" + (s + "\"") }

  lemma {:induction false} PlainBody(s: string)
    requires Plain(s)
    ensures TextBody(s) == s + "\""
  {
    if s != "" {
      PlainBody(s[1..]);
      assert s == [s[0]] + s[1..];
      Associate([s[0]], s[1..], "\"");
    }
  }

  lemma {:induction false} PlainQuote(s: string)
    requires Plain(s)
    ensures Quote(s) == Quoted(s)
  {
    PlainBody(s);
  }

  lemma {:induction false} EncodedIsPlain(b: Bytes)
    ensures Plain(Encode(b))
  {
    EncodedAlphabet(b);
    forall i | 0 <= i < |Encode(b)| ensures Encode(b)[i] as int >= 32 && Encode(b)[i] != '"' && Encode(b)[i] != '\\' {
      assert IsUrlSafe(Encode(b)[i]);
    }
  }

  /** Numbers are written in decimal, without leading zeros, and read as what they are. */
  lemma {:induction false} DigitsAreDecimal(n: nat)
    ensures Digits(n) != "" && AllDigits(Digits(n)) && ReadDigits(Digits(n)) == n
    ensures n > 0 ==> Digits(n)[0] != '0'
    ensures Digits(0) == "0"
  {
    DigitsReadBack(n);
    if n >= 10 {
      DigitsAreDecimal(n / 10);
    }
  }

  /** A key and its printed value. */
  type Field = (string, string)

  /** The fields between commas. */
  function Listed(fields: seq<Field>): string {
    if fields == [] then ""
    else
      var first := Quoted(fields[0].0) + (":" + fields[0].1);
      if |fields| == 1 then first else first + ("," + Listed(fields[1..]))
  }

  /** The whole object, between braces and without white space. */
  function Written(fields: seq<Field>): string { "{" + (Listed(fields) + "}") }

  function Printed(o: Object): (fields: seq<Field>)
    ensures |fields| == |o|
  {
    seq(|o|, i requires 0 <= i < |o| => (o[i].key, Print(o[i].value)))
  }

  ghost predicate PlainKeys(o: Object) {
    forall i :: 0 <= i < |o| ==> Plain(o[i].key)
  }

  lemma {:induction false} FourParts(a: string, b: string, c: string, d: string)
    ensures a + (b + (c + d)) == (a + (b + c)) + d
  {
  }

  lemma {:induction false} SixParts(a: string, b: string, c: string, d: string, e: string, f: string)
    ensures a + (b + (c + (d + (e + f)))) == ((a + (b + c)) + (d + e)) + f
  {
  }

  lemma {:induction false} MembersAreListed(o: Object)
    requires o != [] && PlainKeys(o)
    ensures Members(o) == Listed(Printed(o)) + "}"
    decreases |o|
  {
    PlainQuote(o[0].key);
    if |o| == 1 {
      FourParts(Quoted(o[0].key), ":", Print(o[0].value), "}");
    } else {
      MembersAreListed(o[1..]);
      assert Printed(o)[1..] == Printed(o[1..]);
      SixParts(Quoted(o[0].key), ":", Print(o[0].value), ",", Listed(Printed(o[1..])), "}");
    }
  }

  // ---- the order of the keys --------------------------------------------------------------------

  /** a comes before b: it is a proper beginning of it, or smaller at the first place they differ. */
  ghost predicate Precedes(a: string, b: string) {
    exists k :: 0 <= k <= |a| && k < |b| && a[..k] == b[..k] && (k == |a| || a[k] < b[k])
  }

  lemma {:induction false} PrecedesAfter(a: string, b: string)
    requires a != "" && b != "" && a[0] == b[0] && Precedes(a[1..], b[1..])
    ensures Precedes(a, b)
  {
    var k :| 0 <= k <= |a[1..]| && k < |b[1..]| && a[1..][..k] == b[1..][..k]
             && (k == |a[1..]| || a[1..][k] < b[1..][k]);
    assert a[..k + 1] == [a[0]] + a[1..][..k] && b[..k + 1] == [b[0]] + b[1..][..k];
  }

  lemma {:induction false} PrecedesWithin(a: string, b: string)
    requires a != "" && b != "" && a[0] == b[0] && Precedes(a, b)
    ensures Precedes(a[1..], b[1..])
  {
    var k :| 0 <= k <= |a| && k < |b| && a[..k] == b[..k] && (k == |a| || a[k] < b[k]);
    assert k > 0;
    assert a[1..][..k - 1] == a[..k][1..] && b[1..][..k - 1] == b[..k][1..];
  }

  lemma {:induction false} BeforeIsPrecedes(a: string, b: string)
    ensures Before(a, b) <==> Precedes(a, b)
  {
    if a != "" && b != "" && a[0] == b[0] {
      BeforeIsPrecedes(a[1..], b[1..]);
      if Precedes(a[1..], b[1..]) {
        PrecedesAfter(a, b);
      }
      if Precedes(a, b) {
        PrecedesWithin(a, b);
      }
    } else if b != "" {
      assert a[..0] == b[..0];
      if a != "" {
        forall k | 0 < k <= |a| && k <= |b| ensures a[..k] != b[..k] {
          DifferAtOnce(a, b, k);
        }
      }
      if Before(a, b) {
        assert Precedes(a, b);
      }
    }
  }

  lemma {:induction false} DifferAtOnce(a: string, b: string, k: nat)
    requires 0 < k <= |a| && k <= |b| && a[0] != b[0]
    ensures a[..k] != b[..k]
  {
    assert a[..k][0] == a[0] && b[..k][0] == b[0];
  }

  /** Each key before the next. */
  ghost predicate InOrder(o: Object) {
    forall i :: 0 <= i < |o| - 1 ==> Before(o[i].key, o[i + 1].key)
  }

  lemma {:induction false} InOrderAscends(o: Object)
    requires InOrder(o)
    ensures Ascending(o) && DistinctKeys(o)
    ensures forall i :: 0 < i < |o| ==> Before(o[0].key, o[i].key)
    decreases |o|
  {
    if o != [] {
      InOrderAscends(o[1..]);
      forall i | 0 < i < |o| ensures Before(o[0].key, o[i].key) {
        if i > 1 {
          BeforeTransitive(o[0].key, o[1].key, o[i].key);
        }
      }
      FirstIsLeast(o);
    }
  }

  lemma {:induction false} FirstIsLeast(o: Object)
    requires o != [] && Ascending(o[1..]) && DistinctKeys(o[1..])
    requires forall i :: 0 < i < |o| ==> Before(o[0].key, o[i].key)
    ensures Ascending(o) && DistinctKeys(o)
  {
    KeysInMap(o[1..]);
    forall k | k in AsMap(o[1..]) ensures Before(o[0].key, k) {
      var i :| 0 <= i < |o[1..]| && o[1..][i].key == k;
      assert o[i + 1].key == k;
    }
    forall i, j | 0 <= i < j < |o| ensures o[i].key != o[j].key {
      if i > 0 {
        assert o[1..][i - 1].key != o[1..][j - 1].key;
      } else {
        BeforeTotal(o[0].key, o[j].key);
      }
    }
  }

  lemma {:induction false} SameMembersSameMap(o: Object, t: Object)
    requires DistinctKeys(o) && DistinctKeys(t)
    requires forall m {:trigger m in o} {:trigger m in t} :: m in o <==> m in t
    ensures AsMap(o) == AsMap(t)
  {
    forall k: string ensures k in AsMap(o) <==> k in AsMap(t)
    ensures k in AsMap(o) ==> AsMap(o)[k] == AsMap(t)[k] {
      if k in AsMap(o) {
        MapHoldsMembers(o, Member(k, AsMap(o)[k]));
        MapHoldsMembers(t, Member(k, AsMap(o)[k]));
      }
      if k in AsMap(t) {
        MapHoldsMembers(o, Member(k, AsMap(t)[k]));
        MapHoldsMembers(t, Member(k, AsMap(t)[k]));
      }
    }
  }

  /** Canonical bytes are the members in the order of their keys, between commas and braces, whatever
      order they came in. */
  lemma {:induction false} CanonicalIsWritten(o: Object, t: Object)
    requires DistinctKeys(o) && InOrder(t) && PlainKeys(t) && t != []
    requires forall m {:trigger m in o} {:trigger m in t} :: m in o <==> m in t
    ensures CanonicalBytes(o) == Written(Printed(t))
  {
    InOrderAscends(t);
    SameMembersSameMap(o, t);
    SortKeeps(o);
    AscendingUnique(Sort(o), t);
    MembersAreListed(t);
  }

  /** The same, given the fields in full. */
  lemma {:induction false} WrittenAs(o: Object, t: Object, fields: seq<Field>)
    requires DistinctKeys(o) && InOrder(t) && PlainKeys(t) && t != []
    requires forall m {:trigger m in o} {:trigger m in t} :: m in o <==> m in t
    requires |fields| == |t| && forall i :: 0 <= i < |t| ==> fields[i] == (t[i].key, Print(t[i].value))
    ensures CanonicalBytes(o) == Written(fields)
  {
    CanonicalIsWritten(o, t);
    assert Printed(t) == fields;
  }

  lemma {:induction false} SpeltOut(b: Bytes)
    ensures Print(Text(Encode(b))) == Quoted(Encode(b))
  {
    EncodedIsPlain(b);
    PlainQuote(Encode(b));
  }

  function FieldOf(m: Member): Field { (m.key, Print(m.value)) }

  ghost predicate Follows(a: Member, b: Member) {
    Plain(a.key) && Plain(b.key) && Before(a.key, b.key)
  }

  lemma {:induction false} WrittenTwo(o: Object, a: Member, b: Member)
    requires DistinctKeys(o) && Follows(a, b) && (o == [a, b] || o == [b, a])
    ensures CanonicalBytes(o) == Written([FieldOf(a), FieldOf(b)])
  {
    WrittenAs(o, [a, b], [FieldOf(a), FieldOf(b)]);
  }

  lemma {:induction false} WrittenThree(o: Object, a: Member, b: Member, c: Member)
    requires DistinctKeys(o) && Follows(a, b) && Follows(b, c)
    requires forall m {:trigger m in o} :: m in o <==> m == a || m == b || m == c
    ensures CanonicalBytes(o) == Written([FieldOf(a), FieldOf(b), FieldOf(c)])
  {
    var t := [a, b, c];
    assert InOrder(t) && PlainKeys(t);
    assert forall m {:trigger m in o} {:trigger m in t} :: m in o <==> m in t;
    WrittenAs(o, t, [FieldOf(a), FieldOf(b), FieldOf(c)]);
  }

  lemma {:induction false} WrittenFour(o: Object, a: Member, b: Member, c: Member, d: Member)
    requires DistinctKeys(o) && Follows(a, b) && Follows(b, c) && Follows(c, d)
    requires forall m {:trigger m in o} :: m in o <==> m == a || m == b || m == c || m == d
    ensures CanonicalBytes(o) == Written([FieldOf(a), FieldOf(b), FieldOf(c), FieldOf(d)])
  {
    var t := [a, b, c, d];
    assert InOrder(t) && PlainKeys(t);
    assert forall m {:trigger m in o} {:trigger m in t} :: m in o <==> m in t;
    WrittenAs(o, t, [FieldOf(a), FieldOf(b), FieldOf(c), FieldOf(d)]);
  }

  lemma {:induction false} WrittenFive(o: Object, a: Member, b: Member, c: Member, d: Member, e: Member)
    requires DistinctKeys(o) && Follows(a, b) && Follows(b, c) && Follows(c, d) && Follows(d, e)
    requires forall m {:trigger m in o} :: m in o <==> m == a || m == b || m == c || m == d || m == e
    ensures CanonicalBytes(o) == Written([FieldOf(a), FieldOf(b), FieldOf(c), FieldOf(d), FieldOf(e)])
  {
    var t := [a, b, c, d, e];
    assert InOrder(t) && PlainKeys(t);
    assert forall m {:trigger m in o} {:trigger m in t} :: m in o <==> m in t;
    WrittenAs(o, t, [FieldOf(a), FieldOf(b), FieldOf(c), FieldOf(d), FieldOf(e)]);
  }

  lemma {:induction false} WrittenSix(o: Object, a: Member, b: Member, c: Member, d: Member, e: Member, f: Member)
    requires DistinctKeys(o) && Follows(a, b) && Follows(b, c) && Follows(c, d) && Follows(d, e) && Follows(e, f)
    requires forall m {:trigger m in o} :: m in o <==> m == a || m == b || m == c || m == d || m == e || m == f
    ensures CanonicalBytes(o) == Written([FieldOf(a), FieldOf(b), FieldOf(c), FieldOf(d), FieldOf(e), FieldOf(f)])
  {
    var t := [a, b, c, d, e, f];
    assert InOrder(t) && PlainKeys(t);
    assert forall m {:trigger m in o} {:trigger m in t} :: m in o <==> m in t;
    WrittenAs(o, t, [FieldOf(a), FieldOf(b), FieldOf(c), FieldOf(d), FieldOf(e), FieldOf(f)]);
  }

  /** The member that names a statement. */
  ghost predicate Bears(m: Member, name: string) {
    m.value == Text(name) && Plain(name)
  }

  lemma {:induction false} NameIsQuoted(m: Member, name: string)
    requires Bears(m, name)
    ensures FieldOf(m) == (m.key, Quoted(name))
  {
    PlainQuote(name);
  }

  lemma {:induction false} NamedTwo(o: Object, a: Member, name: string, b: Member)
    requires DistinctKeys(o) && Follows(a, b) && o == [a, b] && Bears(a, name)
    ensures CanonicalBytes(o) == Written([(a.key, Quoted(name)), FieldOf(b)])
  {
    WrittenTwo(o, a, b);
    NameIsQuoted(a, name);
  }

  lemma {:induction false} NamedThree(o: Object, a: Member, b: Member, c: Member, name: string)
    requires DistinctKeys(o) && Follows(a, b) && Follows(b, c) && Bears(c, name)
    requires forall m {:trigger m in o} :: m in o <==> m == a || m == b || m == c
    ensures CanonicalBytes(o) == Written([FieldOf(a), FieldOf(b), (c.key, Quoted(name))])
  {
    WrittenThree(o, a, b, c);
    NameIsQuoted(c, name);
  }

  lemma {:induction false} NamedFour(o: Object, a: Member, b: Member, c: Member, d: Member, name: string)
    requires DistinctKeys(o) && Follows(a, b) && Follows(b, c) && Follows(c, d) && Bears(d, name)
    requires forall m {:trigger m in o} :: m in o <==> m == a || m == b || m == c || m == d
    ensures CanonicalBytes(o) == Written([FieldOf(a), FieldOf(b), FieldOf(c), (d.key, Quoted(name))])
  {
    WrittenFour(o, a, b, c, d);
    NameIsQuoted(d, name);
  }

  lemma {:induction false} NamedSix(o: Object, a: Member, b: Member, c: Member, d: Member, e: Member, f: Member,
                                    name: string)
    requires DistinctKeys(o) && Follows(a, b) && Follows(b, c) && Follows(c, d) && Follows(d, e) && Follows(e, f)
    requires Bears(f, name)
    requires forall m {:trigger m in o} :: m in o <==> m == a || m == b || m == c || m == d || m == e || m == f
    ensures CanonicalBytes(o)
         == Written([FieldOf(a), FieldOf(b), FieldOf(c), FieldOf(d), FieldOf(e), (f.key, Quoted(name))])
  {
    WrittenSix(o, a, b, c, d, e, f);
    NameIsQuoted(f, name);
  }

  // ---- records ------------------------------------------------------------------------------------

  lemma {:induction false} RecordKeys()
    ensures Plain("adhoc_public_key") && Plain("nonce") && Plain("selection") && Plain("token")
    ensures Plain("vote_signature") && Plain("reason")
    ensures Before("adhoc_public_key", "nonce") && Before("nonce", "selection") && Before("selection", "token")
    ensures Before("token", "vote_signature") && Before("nonce", "reason") && Before("reason", "selection")
  {
  }

  /** A ballot record, to the byte. */
  lemma {:induction false} RecordIsWritten(b: Ballot)
    ensures RecordText(b) == Written([
              ("adhoc_public_key", Quoted(Encode(b.adhocKey))), ("nonce", Quoted(Encode(b.nonce))),
              ("selection", Decimal(b.selection)), ("token", Quoted(Encode(b.token))),
              ("vote_signature", Quoted(Encode(b.signature)))])
  {
    var o := ToDict(b);
    BallotKeysDistinct(b);
    RecordKeys();
    SpeltOut(b.adhocKey);
    SpeltOut(b.nonce);
    SpeltOut(b.token);
    SpeltOut(b.signature);
    WrittenFive(o, o[1], o[3], o[0], o[2], o[4]);
  }

  /** The record of a refused submission: the same with the reason. */
  lemma {:induction false} RejectedRecordIsWritten(b: Ballot, reason: string)
    ensures RejectedRecordText(b, reason) == Written([
              ("adhoc_public_key", Quoted(Encode(b.adhocKey))), ("nonce", Quoted(Encode(b.nonce))),
              ("reason", Quote(reason)), ("selection", Decimal(b.selection)), ("token", Quoted(Encode(b.token))),
              ("vote_signature", Quoted(Encode(b.signature)))])
  {
    var o := RejectedDict(b, reason);
    RejectedDictFields(b, reason);
    RecordKeys();
    SpeltOut(b.adhocKey);
    SpeltOut(b.nonce);
    SpeltOut(b.token);
    SpeltOut(b.signature);
    WrittenSix(o, o[1], o[3], o[5], o[0], o[2], o[4]);
  }

  // ---- signed statements ----------------------------------------------------------------------------

  lemma {:induction false} RequestKeys()
    ensures Plain("blinded_key") && Plain("voter_id") && Plain("query")
    ensures Before("blinded_key", "voter_id") && Before("query", "voter_id") && Before("statement", "voter_id")
  {
  }

  lemma {:induction false} StatementKeys()
    ensures Plain("election_id") && Plain("statement") && Plain("head") && Plain("ledger") && Plain("count")
    ensures Plain("phase") && Plain("at")
    ensures Before("at", "election_id") && Before("election_id", "phase") && Before("phase", "statement")
    ensures Before("election_id", "head") && Before("head", "ledger") && Before("ledger", "statement")
    ensures Before("count", "election_id") && Before("election_id", "statement") && Before("head", "statement")
  {
  }

  lemma {:induction false} ReceiptKeys()
    ensures Plain("accepted") && Plain("entry_hash") && Plain("index")
    ensures Before("accepted", "election_id") && Before("election_id", "entry_hash") && Before("entry_hash", "index")
    ensures Before("index", "reason") && Before("reason", "statement")
  {
    assert "election_id"[1..] == "lection_id" && "entry_hash"[1..] == "ntry_hash";
    assert Before("lection_id", "ntry_hash");
  }

  lemma {:induction false} Names()
    ensures Plain(BALLOT_RECEIPT) && Plain(POLL_PHASE) && Plain(REGISTRY_HEAD) && Plain(TOKEN_RELEASE)
    ensures Plain(NO_TOKEN_RELEASED) && Plain(TOKENS_RELEASED) && Plain(RELEASE_REGISTER_HEAD)
  {
  }

  /** What the citizen's wallet signs, asking for a token. */
  lemma {:induction false} TokenRequestIsWritten(voterId: string, c: Bytes)
    ensures StatementText(TokenRequest(voterId, c))
         == Written([("blinded_key", Quoted(Encode(c))), ("voter_id", Quote(voterId))])
  {
    var o := Fields(TokenRequest(voterId, c));
    RequestKeys();
    SpeltOut(c);
    WrittenTwo(o, o[1], o[0]);
  }

  /** What the ad-hoc key signs, voting. */
  lemma {:induction false} VoteIsWritten(selection: int, key: Bytes, nonce: Bytes)
    ensures StatementText(Vote(selection, key, nonce))
         == Written([("adhoc_public_key", Quoted(Encode(key))), ("nonce", Quoted(Encode(nonce))),
                     ("selection", Decimal(selection))])
  {
    var o := Fields(Vote(selection, key, nonce));
    RecordKeys();
    FieldsDistinct(Vote(selection, key, nonce));
    SpeltOut(key);
    SpeltOut(nonce);
    WrittenThree(o, o[1], o[2], o[0]);
  }

  /** What the citizen's wallet signs, asking about a release. */
  lemma {:induction false} ReleaseQueryIsWritten(voterId: string)
    ensures StatementText(ReleaseQuery(voterId))
         == Written([("query", Quoted(TOKEN_RELEASE)), ("voter_id", Quote(voterId))])
  {
    var o := Fields(ReleaseQuery(voterId));
    RequestKeys();
    Names();
    var name := TOKEN_RELEASE;
    NamedTwo(o, o[0], name, o[1]);
  }

  /** What the office signs, denying one. */
  lemma {:induction false} DenialIsWritten(voterId: string)
    ensures StatementText(Denial(voterId))
         == Written([("statement", Quoted(NO_TOKEN_RELEASED)), ("voter_id", Quote(voterId))])
  {
    var o := Fields(Denial(voterId));
    RequestKeys();
    StatementKeys();
    Names();
    var name := NO_TOKEN_RELEASED;
    NamedTwo(o, o[0], name, o[1]);
  }

  lemma {:induction false} FlagIsPrinted(m: Member, on: bool)
    requires m.value == Flag(on)
    ensures FieldOf(m) == (m.key, if on then "true" else "false")
  {
  }

  lemma {:induction false} IndexIsPrinted(m: Member, index: Option<int>)
    requires m.value == if index.None? then Null else Integer(index.value)
    ensures FieldOf(m) == (m.key, if index.None? then "null" else Decimal(index.value))
  {
  }

  lemma {:induction false} ReceiptMembers(s: Statement)
    requires s.Receipt?
    ensures var o := Fields(s);
            StatementText(s)
            == Written([FieldOf(o[2]), FieldOf(o[1]), FieldOf(o[5]), FieldOf(o[4]), FieldOf(o[3]),
                        (o[0].key, Quoted(BALLOT_RECEIPT))])
  {
    var o, name := Fields(s), BALLOT_RECEIPT;
    FieldsDistinct(s);
    ReceiptKeys();
    RecordKeys();
    StatementKeys();
    Names();
    NamedSix(o, o[2], o[1], o[5], o[4], o[3], o[0], name);
  }

  /** What the box signs over a submission. */
  lemma {:induction false} ReceiptIsWritten(electionId: string, accepted: bool, reason: string, index: Option<int>,
                                            entryHash: Bytes)
    ensures StatementText(Receipt(electionId, accepted, reason, index, entryHash))
         == Written([("accepted", if accepted then "true" else "false"), ("election_id", Quote(electionId)),
                     ("entry_hash", Quoted(Encode(entryHash))),
                     ("index", if index.None? then "null" else Decimal(index.value)),
                     ("reason", Quote(reason)), ("statement", Quoted(BALLOT_RECEIPT))])
  {
    var s := Receipt(electionId, accepted, reason, index, entryHash);
    var o := Fields(s);
    ReceiptMembers(s);
    FlagIsPrinted(o[2], accepted);
    IndexIsPrinted(o[4], index);
    SpeltOut(entryHash);
  }

  /** What the box signs over an act. */
  lemma {:induction false} PollPhaseIsWritten(electionId: string, phase: string, at: int)
    ensures StatementText(PollPhase(electionId, phase, at))
         == Written([("at", Decimal(at) + ".0"), ("election_id", Quote(electionId)), ("phase", Quote(phase)),
                     ("statement", Quoted(POLL_PHASE))])
  {
    var s := PollPhase(electionId, phase, at);
    var o := Fields(s);
    FieldsDistinct(s);
    StatementKeys();
    Names();
    var name := POLL_PHASE;
    NamedFour(o, o[3], o[1], o[2], o[0], name);
  }

  /** What the box signs over the head of a registry. */
  lemma {:induction false} RegistryHeadIsWritten(electionId: string, ledger: string, head: Bytes)
    ensures StatementText(RegistryHead(electionId, ledger, head))
         == Written([("election_id", Quote(electionId)), ("head", Quoted(Encode(head))), ("ledger", Quote(ledger)),
                     ("statement", Quoted(REGISTRY_HEAD))])
  {
    var s := RegistryHead(electionId, ledger, head);
    var o := Fields(s);
    FieldsDistinct(s);
    StatementKeys();
    Names();
    var name := REGISTRY_HEAD;
    SpeltOut(head);
    NamedFour(o, o[1], o[3], o[2], o[0], name);
  }

  /** What the office signs over the number of releases. */
  lemma {:induction false} ReleaseCountIsWritten(electionId: string, count: int)
    ensures StatementText(ReleaseCount(electionId, count))
         == Written([("count", Decimal(count)), ("election_id", Quote(electionId)),
                     ("statement", Quoted(TOKENS_RELEASED))])
  {
    var s := ReleaseCount(electionId, count);
    var o := Fields(s);
    FieldsDistinct(s);
    StatementKeys();
    Names();
    var name := TOKENS_RELEASED;
    NamedThree(o, o[2], o[1], o[0], name);
  }

  /** What the office signs over the head of the release register. */
  lemma {:induction false} ReleaseHeadIsWritten(electionId: string, head: Bytes)
    ensures StatementText(ReleaseHead(electionId, head))
         == Written([("election_id", Quote(electionId)), ("head", Quoted(Encode(head))),
                     ("statement", Quoted(RELEASE_REGISTER_HEAD))])
  {
    var s := ReleaseHead(electionId, head);
    var o := Fields(s);
    FieldsDistinct(s);
    StatementKeys();
    Names();
    var name := RELEASE_REGISTER_HEAD;
    SpeltOut(head);
    NamedThree(o, o[1], o[2], o[0], name);
  }

  // ---- what is hashed for an entry --------------------------------------------------------------------

  /** Eight octets of the index, big-endian, the previous hash, the canonical text. */
  lemma {:induction false} EntryIsLaidOut(index: nat, text: string, prev: Bytes)
    requires index < INDEX_LIMIT
    ensures var input := HashInput(index, text, prev);
            && |input| == 8 + |prev| + |text|
            && (forall i :: 0 <= i < 8 ==> input[i] as int < 256)
            && (forall i :: 0 <= i < 8 ==> Pow(256, 7 - i) > 0 && input[i] as int == index / Pow(256, 7 - i) % 256)
            && O.ToInt(seq(8, i requires 0 <= i < 8 => input[i] as int)) == index
            && input[8..8 + |prev|] == prev && input[8 + |prev|..] == text
  {
    var input := HashInput(index, text, prev);
    var octets := O.ToOctets(index, 8);
    forall i | 0 <= i < 8 ensures input[i] as int == octets[i] {
      assert input[i] == IndexBytes(index)[i];
    }
    forall i | 0 <= i < 8 ensures Pow(256, 7 - i) > 0 && octets[i] == index / Pow(256, 7 - i) % 256 {
      O.OctetAt(index, 8, i);
    }
    Limit();
    O.ToIntInvertsToOctets(index, 8);
    assert seq(8, i requires 0 <= i < 8 => input[i] as int) == octets;
  }

  /** The first entry has index 0 and links to 32 zero octets, which are also the head of an empty log. */
  lemma {:induction false} FirstLinksToZeros<P>(link: Link<P>, payloads: seq<P>)
    ensures |Head(link, [])| == 32 && forall i :: 0 <= i < 32 ==> Head(link, [])[i] as int == 0
    ensures payloads != [] ==>
              Chain(link, payloads)[0].index == 0 && Chain(link, payloads)[0].prevHash == Head(link, [])
  {
    if payloads != [] {
      assert Chain(link, payloads)[0] == EntryAt(link, payloads, 0);
    }
  }

  // ---- base64url ----------------------------------------------------------------------------------------

  /** The 64 characters of section 5 of RFC 4648, in order. */
  const ALPHABET: string :=
    "ABCDEFGHIJKLMNOPQRSTUVWXYZ" + "abcdefghijklmnopqrstuvwxyz" + "0123456789" + "-_"

  lemma {:induction false} Letters()
    ensures |ALPHABET| == 64
    ensures forall i :: 0 <= i < 26 ==> ALPHABET[i] == 'A' + i as char
    ensures forall i :: 26 <= i < 52 ==> ALPHABET[i] == 'a' + (i - 26) as char
    ensures forall i :: 52 <= i < 62 ==> ALPHABET[i] == '0' + (i - 52) as char
    ensures ALPHABET[62] == '-' && ALPHABET[63] == '_'
  {
    var upper, lower, digits := "ABCDEFGHIJKLMNOPQRSTUVWXYZ", "abcdefghijklmnopqrstuvwxyz", "0123456789";
    assert forall i :: 0 <= i < 26 ==> upper[i] == 'A' + i as char;
    assert forall i :: 0 <= i < 26 ==> lower[i] == 'a' + i as char;
    assert forall i :: 0 <= i < 10 ==> digits[i] == '0' + i as char;
    assert ALPHABET == upper + lower + digits + "-_";
  }

  lemma {:induction false} DigitIsLetter(v: nat)
    requires v < 64
    ensures |ALPHABET| == 64 && Digit(v) == ALPHABET[v]
  {
    Letters();
  }

  /** The six bits that character j spells: from the byte it begins in and, where they run over, the
      next. */
  function Sextet(b: Bytes, j: nat): nat
    requires 6 * j < 8 * |b|
  {
    var i := 6 * j / 8;
    SixBits(b[i] as int, if i + 1 < |b| then b[i + 1] as int else 0, j % 4)
  }

  function SixBits(x: nat, y: nat, phase: nat): nat {
    if phase == 0 then x / 4
    else if phase == 1 then x % 4 * 16 + y / 16
    else if phase == 2 then x % 16 * 4 + y / 64
    else x % 64
  }

  ghost predicate Spells(text: string, b: Bytes, j: nat)
    requires j < |text|
  {
    6 * j < 8 * |b| && Sextet(b, j) < |ALPHABET| && text[j] == ALPHABET[Sextet(b, j)]
  }

  lemma {:induction false} SextetLater(b: Bytes, j: nat)
    requires |b| >= 3 && 6 * j < 8 * (|b| - 3)
    ensures 6 * (j + 4) < 8 * |b| && Sextet(b, j + 4) == Sextet(b[3..], j)
  {
    assert 6 * (j + 4) / 8 == 6 * j / 8 + 3;
  }

  lemma {:induction false} FirstSextets(b: Bytes, x: nat, y: nat, z: nat)
    requires b != [] && x == b[0] as int
    requires y == (if |b| > 1 then b[1] as int else 0) && z == (if |b| > 2 then b[2] as int else 0)
    ensures Sextet(b, 0) == x / 4 && Sextet(b, 1) == x % 4 * 16 + y / 16
    ensures |b| > 1 ==> Sextet(b, 2) == y % 16 * 4 + z / 64
    ensures |b| > 2 ==> Sextet(b, 3) == z % 64
  {
  }

  lemma {:induction false} FirstDigits(b: Bytes, x: nat, y: nat, z: nat)
    requires b != [] && x == b[0] as int
    requires y == (if |b| > 1 then b[1] as int else 0) && z == (if |b| > 2 then b[2] as int else 0)
    ensures |Encode(b)| >= 2 && Encode(b)[0] == Digit(x / 4) && Encode(b)[1] == Digit(x % 4 * 16 + y / 16)
    ensures |Encode(b)| > 2 <==> |b| > 1
    ensures |Encode(b)| > 3 <==> |b| > 2
    ensures |b| > 1 ==> Encode(b)[2] == Digit(y % 16 * 4 + z / 64)
    ensures |b| > 2 ==> Encode(b)[3] == Digit(z % 64)
  {
  }

  lemma {:induction false} FirstLetters(b: Bytes, j: nat)
    requires b != [] && j < 4 && j < |Encode(b)|
    ensures Spells(Encode(b), b, j)
  {
    var x, y, z := b[0] as int, if |b| > 1 then b[1] as int else 0, if |b| > 2 then b[2] as int else 0;
    FirstSextets(b, x, y, z);
    FirstDigits(b, x, y, z);
    DigitIsLetter(x / 4);
    DigitIsLetter(x % 4 * 16 + y / 16);
    DigitIsLetter(y % 16 * 4 + z / 64);
    DigitIsLetter(z % 64);
  }

  lemma {:induction false} LaterLetters(b: Bytes, j: nat)
    requires |b| >= 3 && j < |Encode(b[3..])| && Spells(Encode(b[3..]), b[3..], j)
    ensures j + 4 < |Encode(b)| && Spells(Encode(b), b, j + 4)
  {
    SextetLater(b, j);
  }

  /** Unpadded: as many characters as it takes six bits at a time, each the letter of its six. */
  lemma {:induction false} EncodedLetters(b: Bytes)
    ensures |Encode(b)| == (8 * |b| + 5) / 6
    ensures forall j :: 0 <= j < |Encode(b)| ==> Spells(Encode(b), b, j)
  {
    if |b| > 2 {
      EncodedLetters(b[3..]);
    }
    forall j | 0 <= j < |Encode(b)| ensures Spells(Encode(b), b, j) {
      if j < 4 {
        FirstLetters(b, j);
      } else {
        LaterLetters(b, j - 4);
      }
    }
  }
}
