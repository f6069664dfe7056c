/** Hash chains over any kind of payload, for any way of linking an entry to the one before it:
    the shape of the log, what verifying it establishes, and what its head binds. */
module HashChains {
  import opened Base64

  /** Index, payload and previous hash to entry hash. */
  type Link<!P> = (nat, P, Bytes) -> Bytes

  datatype Entry<+P> = Entry(index: nat, payload: P, prevHash: Bytes, entryHash: Bytes)

  function ZeroBytes(k: nat): (t: Bytes)
    ensures |t| == k
  {
    seq(k, _ => 0 as char)
  }

  const GENESIS: Bytes := ZeroBytes(32)

  /** The head after the first k payloads. */
  function HeadAt<P>(link: Link<P>, payloads: seq<P>, k: nat): Bytes
    requires k <= |payloads|
  {
    if k == 0 then GENESIS else link(k - 1, payloads[k - 1], HeadAt(link, payloads, k - 1))
  }

  function Head<P>(link: Link<P>, payloads: seq<P>): Bytes {
    HeadAt(link, payloads, |payloads|)
  }

  function EntryAt<P>(link: Link<P>, payloads: seq<P>, i: nat): Entry<P>
    requires i < |payloads|
  {
    Entry(i, payloads[i], HeadAt(link, payloads, i), HeadAt(link, payloads, i + 1))
  }

  function Chain<P>(link: Link<P>, payloads: seq<P>): (entries: seq<Entry<P>>)
    ensures |entries| == |payloads|
  {
    seq(|payloads|, i requires 0 <= i < |payloads| => EntryAt(link, payloads, i))
  }

  function Payloads<P>(entries: seq<Entry<P>>): (payloads: seq<P>)
    ensures |payloads| == |entries|
  {
    seq(|entries|, i requires 0 <= i < |entries| => entries[i].payload)
  }

  lemma PayloadsOfChain<P>(link: Link<P>, payloads: seq<P>)
    ensures Payloads(Chain(link, payloads)) == payloads
  {
  }

  /** The published commitments: every entry's hash. */
  function Hashes<P>(entries: seq<Entry<P>>): (hashes: seq<Bytes>)
    ensures |hashes| == |entries|
  {
    seq(|entries|, i requires 0 <= i < |entries| => entries[i].entryHash)
  }

  lemma HeadUnfolds<P>(link: Link<P>, payloads: seq<P>, i: nat)
    requires 0 < i <= |payloads|
    ensures HeadAt(link, payloads, i) == link(i - 1, payloads[i - 1], HeadAt(link, payloads, i - 1))
  {
  }

  /** The first k entries pass the verifier's comparisons, each against the entry before it. */
  predicate Linked<P>(link: Link<P>, entries: seq<Entry<P>>, k: nat)
    requires k <= |entries|
  {
    k == 0 || (Linked(link, entries, k - 1) && Follows(link, entries[k - 1], k - 1, Previous(entries, k - 1)))
  }

  function Previous<P>(entries: seq<Entry<P>>, k: nat): Bytes
    requires k <= |entries|
  {
    if k == 0 then GENESIS else entries[k - 1].entryHash
  }

  predicate Follows<P>(link: Link<P>, entry: Entry<P>, index: nat, prev: Bytes) {
    entry.index == index && entry.prevHash == prev && entry.entryHash == link(index, entry.payload, prev)
  }

  lemma {:induction false} Unlinked<P>(link: Link<P>, entries: seq<Entry<P>>, j: nat, k: nat)
    requires j <= k <= |entries| && !Linked(link, entries, j)
    ensures !Linked(link, entries, k)
  {
    if j < k {
      Unlinked(link, entries, j, k - 1);
    }
  }

  lemma FollowsIsEntry<P>(link: Link<P>, entries: seq<Entry<P>>, k: nat)
    requires k < |entries| && Previous(entries, k) == HeadAt(link, Payloads(entries), k)
    ensures Follows(link, entries[k], k, Previous(entries, k)) <==> entries[k] == EntryAt(link, Payloads(entries), k)
    ensures entries[k] == EntryAt(link, Payloads(entries), k)
        ==> Previous(entries, k + 1) == HeadAt(link, Payloads(entries), k + 1)
  {
    HeadUnfolds(link, Payloads(entries), k + 1);
  }

  ghost predicate Chained<P>(link: Link<P>, entries: seq<Entry<P>>, k: nat)
    requires k <= |entries|
  {
    forall i :: 0 <= i < k ==> entries[i] == EntryAt(link, Payloads(entries), i)
  }

  lemma ChainedStep<P>(link: Link<P>, entries: seq<Entry<P>>, k: nat)
    requires k < |entries|
    ensures Chained(link, entries, k + 1)
       <==> Chained(link, entries, k) && entries[k] == EntryAt(link, Payloads(entries), k)
  {
  }

  lemma LinkedStep<P>(link: Link<P>, entries: seq<Entry<P>>, k: nat)
    requires k < |entries| && Previous(entries, k) == HeadAt(link, Payloads(entries), k)
    ensures Follows(link, entries[k], k, Previous(entries, k)) && Chained(link, entries, k)
       <==> Chained(link, entries, k + 1)
    ensures Chained(link, entries, k + 1) ==> Previous(entries, k + 1) == HeadAt(link, Payloads(entries), k + 1)
  {
    ChainedStep(link, entries, k);
    FollowsIsEntry(link, entries, k);
  }

  /** The first k entries are linked and chained alike, and lead to the head when they are. */
  ghost predicate Agree<P>(link: Link<P>, entries: seq<Entry<P>>, k: nat)
    requires k <= |entries|
  {
    && (Linked(link, entries, k) <==> Chained(link, entries, k))
    && (Linked(link, entries, k) ==> Previous(entries, k) == HeadAt(link, Payloads(entries), k))
  }

  lemma {:induction false} AgreeNext<P>(link: Link<P>, entries: seq<Entry<P>>, k: nat)
    requires k < |entries| && Agree(link, entries, k)
    ensures Agree(link, entries, k + 1)
  {
    if Linked(link, entries, k) {
      LinkedStep(link, entries, k);
    } else {
      ChainedStep(link, entries, k);
    }
  }

  lemma {:induction false} AgreeUpTo<P>(link: Link<P>, entries: seq<Entry<P>>, k: nat)
    requires k <= |entries|
    ensures Agree(link, entries, k)
  {
    for i := 0 to k
      invariant Agree(link, entries, i)
    {
      AgreeNext(link, entries, i);
    }
  }

  /** Passing every comparison is being the chain of one's own payloads. */
  lemma LinkedIsChain<P>(link: Link<P>, entries: seq<Entry<P>>)
    ensures Linked(link, entries, |entries|) <==> entries == Chain(link, Payloads(entries))
  {
    AgreeUpTo(link, entries, |entries|);
    if entries == Chain(link, Payloads(entries)) {
      forall i | 0 <= i < |entries| ensures entries[i] == EntryAt(link, Payloads(entries), i) {
        assert entries[i] == Chain(link, Payloads(entries))[i];
      }
    }
  }

  /** The head after k payloads depends on those k alone. */
  lemma {:induction false} HeadOfPrefix<P>(link: Link<P>, a: seq<P>, b: seq<P>, k: nat)
    requires k <= |a| && k <= |b| && forall i :: 0 <= i < k ==> a[i] == b[i]
    ensures HeadAt(link, a, k) == HeadAt(link, b, k)
  {
    if k > 0 {
      HeadOfPrefix(link, a, b, k - 1);
    }
  }

  /** Appending a payload links it to the head. */
  lemma HeadAppend<P>(link: Link<P>, payloads: seq<P>, payload: P)
    ensures Head(link, payloads + [payload]) == link(|payloads|, payload, Head(link, payloads))
  {
    HeadOfPrefix(link, payloads + [payload], payloads, |payloads|);
  }

  /** Appending a payload appends its entry and disturbs no other. */
  lemma ChainAppend<P>(link: Link<P>, payloads: seq<P>, payload: P)
    ensures Chain(link, payloads + [payload])
         == Chain(link, payloads) + [Entry(|payloads|, payload, Head(link, payloads), Head(link, payloads + [payload]))]
  {
    var all := payloads + [payload];
    forall i | 0 <= i <= |payloads| ensures HeadAt(link, all, i) == HeadAt(link, payloads, i) {
      HeadOfPrefix(link, all, payloads, i);
    }
  }

  /** A chain that lost its tail is still a chain: noticing takes the head, or a receipt. */
  lemma PrefixIsChain<P>(link: Link<P>, payloads: seq<P>, k: nat)
    requires k <= |payloads|
    ensures Chain(link, payloads)[..k] == Chain(link, payloads[..k])
  {
    forall i | 0 <= i <= k ensures HeadAt(link, payloads[..k], i) == HeadAt(link, payloads, i) {
      HeadOfPrefix(link, payloads[..k], payloads, i);
    }
  }
}
