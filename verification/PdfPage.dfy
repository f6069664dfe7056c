/** What the citizen can check: the page states the very values the document carries. */
module PdfPages {
  import opened Base64
  import opened Canonical
  import opened Ledgers
  import opened PdfRequests

  // ---- hexadecimal and fingerprints -------------------------------------------------------------

  /** Digits 2i and 2i + 1 are the two halves of byte i. */
  lemma {:induction false} HexDigits(s: Bytes, i: nat)
    requires i < |s|
    ensures |Hex(s)| == 2 * |s|
    ensures Hex(s)[2 * i] == "0123456789abcdef"[s[i] as int / 16]
    ensures Hex(s)[2 * i + 1] == "0123456789abcdef"[s[i] as int % 16]
  {
    HexLength(s);
    HexTable(s[i] as int / 16);
    HexTable(s[i] as int % 16);
    if i > 0 {
      HexDigits(s[1..], i - 1);
    }
  }

  lemma {:induction false} HexLength(s: Bytes)
    ensures |Hex(s)| == 2 * |s|
  {
    if s != "" {
      HexLength(s[1..]);
    }
  }

  lemma HexTable(v: nat)
    requires v < 16
    ensures HexDigit(v) == "0123456789abcdef"[v]
  {
  }

  lemma SliceIs(s: string, i: nat, j: nat)
    requires i <= j <= |s|
    ensures Slice(s, i, j) == s[i..j]
  {
  }

  /** The fingerprint is the first eight bytes of the hash in hexadecimal, in four groups of four. */
  lemma FingerprintShows(h: HashFunction, key: Bytes)
    requires IsSha256(h)
    ensures var hex := Hex(h(key));
            |hex| == 64
            && Fingerprint(h, key) == hex[..4] + ("-" + (hex[4..8] + ("-" + (hex[8..12] + ("-" + hex[12..16])))))
  {
    var hex := Hex(h(key));
    HexLength(h(key));
    SliceIs(hex, 0, 16);
    var short := hex[..16];
    SliceIs(short, 0, 4);
    SliceIs(short, 4, 8);
    SliceIs(short, 8, 12);
    SliceIs(short, 12, 16);
    assert short[0..4] == hex[..4] && short[4..8] == hex[4..8];
    assert short[8..12] == hex[8..12] && short[12..16] == hex[12..16];
  }

  lemma {:induction false} RewriteEach(s: string, t: string)
    requires |t| == |s| && forall i :: 0 <= i < |s| ==> UpperChar(s[i]) == [t[i]]
    ensures Upper(s) == t
  {
    if s != "" {
      RewriteEach(s[1..], t[1..]);
      assert t == [t[0]] + t[1..];
    }
  }

  /** The document's identifier is the first half of its body's hash, in capital hexadecimal. */
  lemma IdentifierShows(h: HashFunction, body: string)
    requires IsSha256(h)
    ensures |Identifier(h, body)| == 32
    ensures forall i :: 0 <= i < 16 ==>
      && Identifier(h, body)[2 * i] == "0123456789ABCDEF"[h(body)[i] as int / 16]
      && Identifier(h, body)[2 * i + 1] == "0123456789ABCDEF"[h(body)[i] as int % 16]
  {
    var hex := Hex(h(body));
    HexLength(h(body));
    SliceIs(hex, 0, 32);
    var short := hex[0..32];
    forall j | 0 <= j < 32 ensures |UpperChar(short[j])| == 1 {
    }
    var capital := seq(32, j requires 0 <= j < 32 => UpperChar(short[j])[0]);
    RewriteEach(short, capital);
    forall i | 0 <= i < 16
      ensures Identifier(h, body)[2 * i] == "0123456789ABCDEF"[h(body)[i] as int / 16]
      ensures Identifier(h, body)[2 * i + 1] == "0123456789ABCDEF"[h(body)[i] as int % 16]
    {
      HexDigits(h(body), i);
      CapitalDigit(h(body)[i] as int / 16);
      CapitalDigit(h(body)[i] as int % 16);
    }
  }

  lemma CapitalDigit(v: nat)
    requires v < 16
    ensures UpperChar("0123456789abcdef"[v]) == ["0123456789ABCDEF"[v]]
  {
  }

  // ---- the page ------------------------------------------------------------------------------------

  /** Where the lines of the page are: eleven, the key's, three. */
  lemma PageLayout(top: seq<Line>, key: string)
    requires |top| == 11
    ensures var lines, n := WithKey(top, key), KeyLineCount(key);
            && |lines| == 14 + n && lines[..11] == top && lines[11..11 + n] == KeyLines(key, n)
            && Texts(lines[11..11 + n]) == key
  {
    var lines, n := WithKey(top, key), KeyLineCount(key);
    assert lines[..11] == top;
    assert lines[11..11 + n] == KeyLines(key, n);
    WholeKeyOnThePage(key);
  }

  lemma FieldsAreThird(h: HashFunction, p: Payload)
    ensures |TopLines(h, p)| == 11
    ensures TopLines(h, p)[2].text == "election            " + p.electionId
    ensures TopLines(h, p)[3].text == "configuration       " + p.configDigest
    ensures TopLines(h, p)[4].text == "fingerprint of c    " + FingerprintText(h, p.blindedKey)
  {
    assert TopLines(h, p)[2..5] == FieldLines(h, p);
  }

  /** The page names the election and the configuration of the payload, shows the fingerprint of its
      value, and below the eleventh line the value itself, 64 characters to the line. */
  lemma PageStatesThePayload(x: Renderer, p: Payload)
    requires WritesPage(x) && Decode(p.blindedKey).Some?
    ensures var lines, n := PageLines(x, p), KeyLineCount(p.blindedKey);
            && |lines| == 14 + n
            && lines[2].text == "election            " + p.electionId
            && lines[3].text == "configuration       " + p.configDigest
            && lines[4].text == "fingerprint of c    " + Fingerprint(x.h, Decode(p.blindedKey).value)
            && Texts(lines[11..11 + n]) == p.blindedKey
  {
    var top := x.top(p);
    FieldsAreThird(x.h, p);
    PageLayout(top, p.blindedKey);
    var lines := PageLines(x, p);
    assert lines[2] == lines[..11][2] && lines[3] == lines[..11][3] && lines[4] == lines[..11][4];
  }

  /** Two payloads whose pages have the same lines are the same payload. */
  lemma SamePageSamePayload(x: Renderer, p: Payload, q: Payload)
    requires WritesPage(x) && Decode(p.blindedKey).Some? && Decode(q.blindedKey).Some?
    requires PageLines(x, p) == PageLines(x, q)
    ensures p == q
  {
    PageStatesThePayload(x, p);
    PageStatesThePayload(x, q);
    CancelLeft("election            ", p.electionId, q.electionId);
    CancelLeft("configuration       ", p.configDigest, q.configDigest);
  }
}
