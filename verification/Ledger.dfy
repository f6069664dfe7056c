/** The append-only hash chain both registries are built on. SHA-256 is a parameter; binding is
    stated for a hash that does not collide on the inputs the chains at hand feed it, which
    those inputs make a finite condition. */
module Ledgers {
  import NT = NumberTheory
  import Octets
  import opened Base64
  import opened HashChains

  type HashFunction = string -> Bytes

  ghost predicate IsSha256(h: HashFunction) {
    forall x: string :: |h(x)| == 32
  }

  /** h tells the given inputs apart and sends none of them to the genesis value. */
  ghost predicate CollisionFree(h: HashFunction, inputs: set<string>) {
    && (forall x, y :: x in inputs && y in inputs && h(x) == h(y) ==> x == y)
    && (forall x :: x in inputs ==> h(x) != GENESIS)
  }

  // ---- hashing an entry ------------------------------------------------------

  function Chars(s: Octets.Octets): (t: string)
    ensures |t| == |s|
  {
    seq(|s|, i requires 0 <= i < |s| => s[i] as char)
  }

  /** `index.to_bytes(8, "big")`. */
  function IndexBytes(index: nat): (t: string)
    ensures |t| == 8
  {
    Chars(Octets.ToOctets(index, 8))
  }

  const INDEX_LIMIT := 0x1_0000_0000_0000_0000

  lemma IndexBytesInjective(i: nat, j: nat)
    requires i < INDEX_LIMIT && j < INDEX_LIMIT && IndexBytes(i) == IndexBytes(j)
    ensures i == j
  {
    var a, b := Octets.ToOctets(i, 8), Octets.ToOctets(j, 8);
    forall k | 0 <= k < 8 ensures a[k] == b[k] {
      assert IndexBytes(i)[k] == a[k] as char && IndexBytes(j)[k] == b[k] as char;
    }
    assert a == b;
    Limit();
    Octets.ToIntInvertsToOctets(i, 8);
    Octets.ToIntInvertsToOctets(j, 8);
  }

  lemma Limit()
    ensures NT.Pow(256, 8) == INDEX_LIMIT
  {
    NT.PowAdd(256, 4, 4);
    NT.PowAdd(256, 2, 2);
    assert NT.Pow(256, 2) == 65536;
  }

  /** What is hashed for an entry, given its payload's canonical text. */
  function HashInput(index: nat, text: string, prev: Bytes): string {
    IndexBytes(index) + (prev + text)
  }

  /** How a kind of payload is serialised. */
  type Serialiser<!P> = P -> string

  /** `link` is `compute_entry_hash` over payloads serialised by `text`. */
  ghost predicate Computes<P(!new)>(link: Link<P>, h: HashFunction, text: Serialiser<P>) {
    forall i: nat, payload: P, prev: Bytes {:trigger HashInput(i, text(payload), prev)} ::
      link(i, payload, prev) == h(HashInput(i, text(payload), prev))
  }

  /** `compute_entry_hash`. */
  function EntryLink<P>(h: HashFunction, text: Serialiser<P>): Link<P> {
    (index: nat, payload: P, prev: Bytes) => h(HashInput(index, text(payload), prev))
  }

  lemma EntryLinkComputes<P(!new)>(h: HashFunction, text: Serialiser<P>)
    ensures Computes(EntryLink(h, text), h, text)
  {
  }

  lemma SplitAt(a: string, x: string, b: string, y: string)
    requires |a| == |b| && a + x == b + y
    ensures a == b && x == y
  {
    assert a == (a + x)[..|a|] && x == (a + x)[|a|..];
    assert b == (b + y)[..|b|] && y == (b + y)[|b|..];
  }

  /** The index and the previous hash have fixed widths, so the concatenation is unambiguous. */
  lemma HashInputInjective(i: nat, s: string, prev: Bytes, j: nat, t: string, prev': Bytes)
    requires i < INDEX_LIMIT && j < INDEX_LIMIT && |prev| == |prev'|
    requires HashInput(i, s, prev) == HashInput(j, t, prev')
    ensures i == j && prev == prev' && s == t
  {
    SplitAt(IndexBytes(i), prev + s, IndexBytes(j), prev' + t);
    SplitAt(prev, s, prev', t);
    IndexBytesInjective(i, j);
  }

  // ---- the ledger ------------------------------------------------------------

  class Ledger<P> {
    const link: Link<P>
    var entries: seq<Entry<P>>
    ghost var records: seq<P>

    ghost predicate Valid()
      reads this
    {
      entries == Chain(link, records)
    }

    constructor (link: Link<P>)
      ensures this.link == link && records == [] && Valid()
    {
      this.link := link;
      entries := [];
      records := [];
    }

    method Append(payload: P) returns (entry: Entry<P>)
      requires Valid()
      modifies this
      ensures Valid()
      ensures records == old(records) + [payload]
      ensures entries == old(entries) + [entry]
      ensures entry == Entry(|old(records)|, payload, Head(link, old(records)), Head(link, records))
    {
      var index := |entries|;
      var prev := CurrentHead();
      entry := Entry(index, payload, prev, link(index, payload, prev));
      HeadAppend(link, records, payload);
      ChainAppend(link, records, payload);
      entries := entries + [entry];
      records := records + [payload];
    }

    /** The head of the chain: the last entry's hash, or the genesis value. */
    method CurrentHead() returns (head: Bytes)
      requires Valid()
      ensures head == Head(link, records)
    {
      if entries != [] {
        assert entries[|entries| - 1] == EntryAt(link, records, |entries| - 1);
        return entries[|entries| - 1].entryHash;
      }
      return GENESIS;
    }

    /** Recomputes the chain over whatever the entries have become: it answers yes exactly when
        they are the chain of their own payloads. */
    method VerifyChain() returns (ok: bool)
      ensures ok <==> entries == Chain(link, Payloads(entries))
    {
      var log := entries;
      LinkedIsChain(link, log);
      var prev := GENESIS;
      var i := 0;
      while i < |log|
        invariant 0 <= i <= |log|
        invariant prev == Previous(log, i)
        invariant Linked(link, log, i)
      {
        var entry := log[i];
        if entry.index != i || entry.prevHash != prev || entry.entryHash != link(i, entry.payload, prev) {
          assert !Linked(link, log, i + 1);
          Unlinked(link, log, i + 1, |log|);
          return false;
        }
        prev := entry.entryHash;
        i := i + 1;
      }
      return true;
    }
  }

  // ---- binding ---------------------------------------------------------------

  /** What entry i of the chain over these payloads hashes. */
  function InputAt<P>(link: Link<P>, text: Serialiser<P>, payloads: seq<P>, i: nat): string
    requires i < |payloads|
  {
    HashInput(i, text(payloads[i]), HeadAt(link, payloads, i))
  }

  /** h tells the entries of these two logs apart and sends none of them to the genesis value. */
  ghost predicate NoCollision<P(!new)>(h: HashFunction, link: Link<P>, text: Serialiser<P>, a: seq<P>, b: seq<P>) {
    && (forall i, j :: 0 <= i < |a| && 0 <= j < |b|
          && h(InputAt(link, text, a, i)) == h(InputAt(link, text, b, j))
          ==> InputAt(link, text, a, i) == InputAt(link, text, b, j))
    && AvoidsGenesis(h, link, text, a) && AvoidsGenesis(h, link, text, b)
  }

  ghost predicate AvoidsGenesis<P(!new)>(h: HashFunction, link: Link<P>, text: Serialiser<P>, a: seq<P>) {
    forall i :: 0 <= i < |a| ==> h(InputAt(link, text, a, i)) != GENESIS
  }

  /** The same records in the same order. */
  ghost predicate SameTexts<P>(text: Serialiser<P>, a: seq<P>, b: seq<P>) {
    |a| == |b| && forall i :: 0 <= i < |a| ==> text(a[i]) == text(b[i])
  }

  lemma HeadIsHash<P(!new)>(h: HashFunction, link: Link<P>, text: Serialiser<P>, payloads: seq<P>, i: nat)
    requires Computes(link, h, text) && 0 < i <= |payloads|
    ensures HeadAt(link, payloads, i) == h(InputAt(link, text, payloads, i - 1))
  {
    HeadUnfolds(link, payloads, i);
  }

  lemma HeadLength<P(!new)>(h: HashFunction, link: Link<P>, text: Serialiser<P>, payloads: seq<P>, k: nat)
    requires IsSha256(h) && Computes(link, h, text) && k <= |payloads|
    ensures |HeadAt(link, payloads, k)| == 32
  {
    if k > 0 {
      HeadIsHash(h, link, text, payloads, k);
    }
  }

  lemma {:induction false} EqualHeadsSameTexts<P(!new)>(h: HashFunction, link: Link<P>, text: Serialiser<P>,
                                                        a: seq<P>, b: seq<P>, m: nat, n: nat)
    requires IsSha256(h) && Computes(link, h, text) && m <= |a| <= INDEX_LIMIT && n <= |b| <= INDEX_LIMIT
    requires NoCollision(h, link, text, a, b)
    requires HeadAt(link, a, m) == HeadAt(link, b, n)
    ensures m == n && forall i :: 0 <= i < m ==> text(a[i]) == text(b[i])
    decreases m
  {
    if m > 0 {
      NotGenesis(h, link, text, a, m);
    }
    if n > 0 {
      NotGenesis(h, link, text, b, n);
    }
    if m > 0 && n > 0 {
      LastEntrySame(h, link, text, a, b, m, n);
      EqualHeadsSameTexts(h, link, text, a, b, m - 1, n - 1);
    }
  }

  lemma NotGenesis<P(!new)>(h: HashFunction, link: Link<P>, text: Serialiser<P>, a: seq<P>, m: nat)
    requires Computes(link, h, text) && 0 < m <= |a|
    requires AvoidsGenesis(h, link, text, a)
    ensures HeadAt(link, a, m) != GENESIS
  {
    HeadIsHash(h, link, text, a, m);
  }

  lemma LastEntrySame<P(!new)>(h: HashFunction, link: Link<P>, text: Serialiser<P>,
                               a: seq<P>, b: seq<P>, m: nat, n: nat)
    requires IsSha256(h) && Computes(link, h, text) && 0 < m <= |a| <= INDEX_LIMIT && 0 < n <= |b| <= INDEX_LIMIT
    requires NoCollision(h, link, text, a, b)
    requires HeadAt(link, a, m) == HeadAt(link, b, n)
    ensures m == n && text(a[m - 1]) == text(b[n - 1]) && HeadAt(link, a, m - 1) == HeadAt(link, b, n - 1)
  {
    HeadIsHash(h, link, text, a, m);
    HeadIsHash(h, link, text, b, n);
    HeadLength(h, link, text, a, m - 1);
    HeadLength(h, link, text, b, n - 1);
    InputsDetermine(link, text, a, b, m - 1, n - 1);
  }

  lemma InputsDetermine<P>(link: Link<P>, text: Serialiser<P>, a: seq<P>, b: seq<P>, i: nat, j: nat)
    requires i < |a| <= INDEX_LIMIT && j < |b| <= INDEX_LIMIT
    requires InputAt(link, text, a, i) == InputAt(link, text, b, j)
    requires |HeadAt(link, a, i)| == |HeadAt(link, b, j)|
    ensures i == j && text(a[i]) == text(b[j]) && HeadAt(link, a, i) == HeadAt(link, b, j)
  {
    HashInputInjective(i, text(a[i]), HeadAt(link, a, i), j, text(b[j]), HeadAt(link, b, j));
  }

  lemma {:induction false} SameTextsSameHead<P(!new)>(h: HashFunction, link: Link<P>, text: Serialiser<P>,
                                                      a: seq<P>, b: seq<P>, k: nat)
    requires Computes(link, h, text) && SameTexts(text, a, b) && k <= |a|
    ensures HeadAt(link, a, k) == HeadAt(link, b, k)
  {
    if k > 0 {
      SameTextsSameHead(h, link, text, a, b, k - 1);
      HeadIsHash(h, link, text, a, k);
      HeadIsHash(h, link, text, b, k);
    }
  }

  /** The head binds the whole registry, its length included: two heads are equal exactly when
      the same records stand behind them. */
  lemma HeadBindsRecords<P(!new)>(h: HashFunction, link: Link<P>, text: Serialiser<P>, a: seq<P>, b: seq<P>)
    requires IsSha256(h) && Computes(link, h, text) && |a| <= INDEX_LIMIT && |b| <= INDEX_LIMIT
    requires NoCollision(h, link, text, a, b)
    ensures Head(link, a) == Head(link, b) <==> SameTexts(text, a, b)
  {
    if Head(link, a) == Head(link, b) {
      EqualHeadsSameTexts(h, link, text, a, b, |a|, |b|);
    }
    if SameTexts(text, a, b) {
      SameTextsSameHead(h, link, text, a, b, |a|);
    }
  }

  lemma NoCollisionOnPrefix<P(!new)>(h: HashFunction, link: Link<P>, text: Serialiser<P>, a: seq<P>, b: seq<P>, k: nat)
    requires k <= |b| && NoCollision(h, link, text, a, b)
    ensures NoCollision(h, link, text, a, b[..k])
  {
    forall i | 0 <= i < k ensures InputAt(link, text, b[..k], i) == InputAt(link, text, b, i) {
      HeadOfPrefix(link, b[..k], b, i);
    }
  }

  lemma EntryHashIsHead<P>(link: Link<P>, payloads: seq<P>, index: nat)
    requires index < |payloads|
    ensures Chain(link, payloads)[index].entryHash == Head(link, payloads[..index + 1])
  {
    HeadOfPrefix(link, payloads[..index + 1], payloads, index + 1);
    assert Chain(link, payloads)[index] == EntryAt(link, payloads, index);
  }

  /** A receipt pins history: an entry of one chain carrying the hash that another chain gave its
      last entry means everything up to there is the same in both. */
  lemma ReceiptPinsPrefix<P(!new)>(h: HashFunction, link: Link<P>, text: Serialiser<P>,
                                   seen: seq<P>, published: seq<P>, index: nat)
    requires IsSha256(h) && Computes(link, h, text)
    requires |seen| <= INDEX_LIMIT && index < |published| <= INDEX_LIMIT
    requires NoCollision(h, link, text, seen, published)
    ensures Chain(link, published)[index].entryHash == Head(link, seen)
       <==> |seen| == index + 1 && SameTexts(text, seen, published[..index + 1])
  {
    NoCollisionOnPrefix(h, link, text, seen, published, index + 1);
    HeadBindsRecords(h, link, text, seen, published[..index + 1]);
    EntryHashIsHead(link, published, index);
  }
}
