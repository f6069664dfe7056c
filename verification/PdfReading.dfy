/** Reading a token request back: a crude extractor, and the rule that makes it safe, which is to
    render what was extracted and compare. */
module PdfReadings {
  import opened Base64
  import opened Canonical
  import opened Statements
  import opened Searches
  import opened PdfRequests
  import O = OfficeModel

  // ---- the carriers ------------------------------------------------------------------------

  /** `_from_marker`. */
  function FromMarker(document: string): Option<string> {
    var start := Find(document, MARKER, 0);
    if start < 0 then None
    else
      var end := Find(document, "\n", start);
      Some(Slice(document, start + |MARKER|, if end >= 0 then end else |document|))
  }

  predicate IsSpace(c: char) { c == ' ' || 9 <= c as int <= 13 }

  /** `bytes.strip()`. */
  function Strip(s: string): string {
    if s == "" then ""
    else if IsSpace(s[0]) then Strip(s[1..])
    else if IsSpace(s[|s| - 1]) then Strip(s[..|s| - 1])
    else s
  }

  /** `_from_embedded`. */
  function FromEmbedded(document: string): Option<string> {
    var at := Find(document, EMBEDDED, 0);
    if at < 0 then None
    else
      var start := Find(document, STREAM, at);
      if start < 0 then None
      else
        var stop := Find(document, END_STREAM, start);
        if stop < 0 then None else Some(Strip(Slice(document, start + |STREAM|, stop)))
  }

  // ---- the candidate -----------------------------------------------------------------------

  datatype Refusal = NotARequestDocument | CarriersDisagree | NotAsRendered | SignatureDoesNotCoverIt

  datatype Carrier = EmbeddedCopy | MarkerComment

  datatype Candidate = Candidate(payload: Payload, recoveredFrom: Carrier) | NoCandidate(refusal: Refusal)

  function Read(loads: Parser, raw: string, carrier: Carrier): Candidate {
    match loads(raw)
    case None => NoCandidate(NotARequestDocument)
    case Some(json) =>
      match WellFormed(json)
      case None => NoCandidate(NotARequestDocument)
      case Some(p) => Candidate(p, carrier)
  }

  /** `extract`. */
  function Extract(loads: Parser, document: string): Candidate {
    ExtractFrom(loads, FromEmbedded(document), FromMarker(document))
  }

  function ExtractFrom(loads: Parser, embedded: Option<string>, marker: Option<string>): Candidate {
    match (embedded, marker)
    case (None, None) => NoCandidate(NotARequestDocument)
    case (Some(raw), None) => Read(loads, raw, EmbeddedCopy)
    case (None, Some(raw)) => Read(loads, raw, MarkerComment)
    case (Some(raw), Some(other)) =>
      if raw != other then NoCandidate(CarriersDisagree) else Read(loads, raw, EmbeddedCopy)
  }

  // ---- the rule ----------------------------------------------------------------------------

  datatype DocumentCheck = Accepted(payload: Payload, recoveredFrom: Carrier) | Refused(refusal: Refusal)

  /** `check`. */
  function Check(x: Renderer, loads: Parser, document: string, covered: int): DocumentCheck {
    Judge(x, Extract(loads, document), document, covered)
  }

  function Judge(x: Renderer, candidate: Candidate, document: string, covered: int): DocumentCheck {
    match candidate
    case NoCandidate(refusal) => Refused(refusal)
    case Candidate(payload, carrier) =>
      match RenderOf(x, payload)
      case None => Refused(NotAsRendered)
      case Some(expected) =>
        if !(expected <= document) then Refused(NotAsRendered)
        else if covered < |expected| then Refused(SignatureDoesNotCoverIt)
        else Accepted(payload, carrier)
  }

  function RefusalName(r: Refusal): string {
    match r
    case NotARequestDocument => "not_a_request_document"
    case CarriersDisagree => "carriers_disagree"
    case NotAsRendered => "not_as_rendered"
    case SignatureDoesNotCoverIt => "signature_does_not_cover_it"
  }

  /** What the office is told: the blinded value asked for, or why not. */
  function ForTheOffice(x: Renderer, loads: Parser): (Bytes, int) -> O.DocumentCheck {
    (document: Bytes, covered: int) =>
      match Check(x, loads, document, covered)
      case Refused(refusal) => O.DocumentCheck.Refused(RefusalName(refusal))
      case Accepted(p, _) =>
        match Decode(p.blindedKey)
        case Some(c) => O.DocumentCheck.Requests(c)
        case None => O.DocumentCheck.Refused("")
  }

  // ---- bodies --------------------------------------------------------------------------------

  predicate AllText(o: Object) {
    forall i :: 0 <= i < |o| ==> o[i].value.Text?
  }

  lemma {:induction false} InsertKeeps(m: Member, o: Object)
    ensures forall n :: n in Insert(m, o) <==> n == m || n in o
  {
    if o != [] && Before(o[0].key, m.key) {
      InsertKeeps(m, o[1..]);
      assert o == [o[0]] + o[1..];
    }
  }

  lemma {:induction false} SortHolds(o: Object)
    ensures forall n :: n in Sort(o) <==> n in o
  {
    if o != [] {
      SortHolds(o[1..]);
      InsertKeeps(o[0], Sort(o[1..]));
      assert o == [o[0]] + o[1..];
    }
  }

  lemma {:induction false} TextBodyIsRewriting(s: string)
    ensures TextBody(s) == Rewrite(Escape, s) + "\""
  {
    if s != "" {
      TextBodyIsRewriting(s[1..]);
    }
  }

  lemma {:induction false} TextBodyHasNoNewline(s: string)
    ensures '\n' !in TextBody(s)
  {
    if s != "" {
      TextBodyHasNoNewline(s[1..]);
      EscapeHasNoNewline(s[0]);
    }
  }

  lemma EscapeHasNoNewline(c: char)
    ensures '\n' !in Escape(c)
  {
    if c as int < 32 {
      assert HexDigit(c as int / 16) != '\n' && HexDigit(c as int % 16) != '\n';
    }
  }

  lemma {:induction false} MembersShape(o: Object)
    requires AllText(o)
    ensures '\n' !in Members(o) && Members(o) != "" && Members(o)[|Members(o)| - 1] == '}'
    decreases o
  {
    if o != [] {
      var m := o[0];
      TextBodyHasNoNewline(m.key);
      TextBodyHasNoNewline(m.value.text);
      if |o| > 1 {
        MembersShape(o[1..]);
      }
      assert '\n' !in After(o[1..]) && After(o[1..])[|After(o[1..])| - 1] == '}';
    }
  }

  /** The body is one line, from its opening brace to its closing one. */
  lemma BodyShape(p: Payload)
    ensures '\n' !in Body(p) && |Body(p)| >= 2 && Body(p)[0] == '{' && Body(p)[|Body(p)| - 1] == '}'
  {
    SortHolds(FieldsOf(p));
    assert AllText(Sort(FieldsOf(p))) by {
      forall i | 0 <= i < |Sort(FieldsOf(p))| ensures Sort(FieldsOf(p))[i].value.Text? {
        assert Sort(FieldsOf(p))[i] in FieldsOf(p);
      }
    }
    MembersShape(Sort(FieldsOf(p)));
  }

  lemma {:induction false} ValueInMembers(o: Object, m: Member, pattern: string)
    requires m in o && m.value.Text? && Occurs(TextBody(m.value.text), pattern)
    ensures Occurs(Members(o), pattern)
    decreases o
  {
    var key, value, after := Quote(o[0].key), Print(o[0].value), After(o[1..]);
    if o[0] == m {
      OccursRight("\"", TextBody(m.value.text), pattern);
      OccursLeft(value, after, pattern);
    } else {
      assert m in o[1..];
      ValueInMembers(o[1..], m, pattern);
      OccursRight(",", Members(o[1..]), pattern);
      OccursRight(value, after, pattern);
    }
    OccursRight(":", value + after, pattern);
    OccursRight(key, ":" + (value + after), pattern);
  }

  /** What occurs in a value occurs in the body, if JSON leaves it as it is. */
  lemma ValueInBody(p: Payload, m: Member, pattern: string)
    requires m in FieldsOf(p) && Plain(Escape, pattern) && Occurs(m.value.text, pattern)
    ensures Occurs(Body(p), pattern)
  {
    RewriteKeepsOccurrence(Escape, m.value.text, pattern);
    TextBodyIsRewriting(m.value.text);
    OccursLeft(Rewrite(Escape, m.value.text), "\"", pattern);
    SortHolds(FieldsOf(p));
    ValueInMembers(Sort(FieldsOf(p)), m, pattern);
    OccursRight("{", Members(Sort(FieldsOf(p))), pattern);
  }

  lemma FieldsDistinctKeys(p: Payload)
    ensures DistinctKeys(FieldsOf(p))
  {
    assert "blinded_key"[0] == 'b' && "config_digest"[0] == 'c' && "election_id"[0] == 'e';
  }

  lemma MemberFromMap(o: Object, q: Object, m: Member)
    requires DistinctKeys(o) && DistinctKeys(q) && AsMap(o) == AsMap(q)
    ensures m in o <==> m in q
  {
    MapHoldsMembers(o, m);
    MapHoldsMembers(q, m);
  }

  lemma BodyInjective(p: Payload, q: Payload)
    requires Body(p) == Body(q)
    ensures p == q
  {
    var f, g := FieldsOf(p), FieldsOf(q);
    FieldsDistinctKeys(p);
    FieldsDistinctKeys(q);
    CanonicalExact(f, g);
    MemberFromMap(f, g, f[0]);
    MemberFromMap(f, g, f[1]);
    MemberFromMap(f, g, f[2]);
    assert f[0] in g && f[1] in g && f[2] in g;
    assert "blinded_key"[0] == 'b' && "config_digest"[0] == 'c' && "election_id"[0] == 'e';
  }

  // ---- one payload per document --------------------------------------------------------------

  lemma LineReaches(head: string, a: string, b: string, x: string, y: string, document: string)
    requires '\n' !in b
    requires head + (a + ("\n" + x)) <= document && head + (b + ("\n" + y)) <= document
    ensures |b| <= |a|
  {
    assert document[|head| + |a|] == '\n';
    forall k | |head| <= k < |head| + |b| ensures document[k] != '\n' {
      assert document[k] == b[k - |head|] && b[k - |head|] in b;
    }
  }

  /** The text up to a line feed is determined by the document it stands in. */
  lemma LineDetermined(head: string, a: string, b: string, x: string, y: string, document: string)
    requires '\n' !in a && '\n' !in b
    requires head + (a + ("\n" + x)) <= document && head + (b + ("\n" + y)) <= document
    ensures a == b
  {
    LineReaches(head, a, b, x, y, document);
    LineReaches(head, b, a, y, x, document);
    assert a == document[|head|..|head| + |a|] && b == document[|head|..|head| + |b|];
  }

  /** Every assembled document begins with its prologue. */
  lemma {:induction false} BeginsWithPrologue(x: Renderer, prologue: string, objects: seq<string>, k: nat)
    requires k <= |objects|
    ensures prologue <= Written(x, prologue, objects, k)
  {
    if k > 0 {
      BeginsWithPrologue(x, prologue, objects, k - 1);
    }
  }

  lemma RestOf(heading: string, marker: string, body: string, prologue: string, document: string) returns (rest: string)
    requires prologue == heading + (marker + (body + "\n")) && prologue <= document
    ensures heading + marker + (body + ("\n" + rest)) == document
  {
    rest := document[|prologue|..];
    assert prologue + rest == document;
  }

  lemma BeginsWithBody(x: Renderer, p: Payload, document: string) returns (rest: string)
    requires WritesPrologue(x) && RenderOf(x, p) == Some(document)
    ensures HEADING + MARKER + (Body(p) + ("\n" + rest)) == document
  {
    var lines, body := PageLines(x, p), Body(p);
    var prologue, objects := x.prologue(body), x.objects(Blocks(x.block, lines, |lines|), body);
    BeginsWithPrologue(x, prologue, objects, |objects|);
    rest := RestOf(HEADING, MARKER, body, prologue, document);
  }

  /** Two payloads cannot both render to the beginning of one document. */
  lemma OnePayloadPerDocument(x: Renderer, p: Payload, q: Payload, a: string, b: string, document: string)
    requires WritesPrologue(x) && RenderOf(x, p) == Some(a) && RenderOf(x, q) == Some(b)
    requires a <= document && b <= document
    ensures p == q
  {
    var restA := BeginsWithBody(x, p, a);
    var restB := BeginsWithBody(x, q, b);
    BodyShape(p);
    BodyShape(q);
    LineDetermined(HEADING + MARKER, Body(p), Body(q), restA, restB, document);
    BodyInjective(p, q);
  }

  /** Soundness: a document is accepted only as the beginning of what its payload renders to, wholly
      covered by the signature, and no other payload could have produced that beginning. */
  lemma AcceptedMeansRendered(x: Renderer, loads: Parser, document: string, covered: int, p: Payload, carrier: Carrier)
    requires WritesPrologue(x) && Check(x, loads, document, covered) == Accepted(p, carrier)
    ensures RenderOf(x, p).Some? && RenderOf(x, p).value <= document && |RenderOf(x, p).value| <= covered
    ensures forall q :: RenderOf(x, q).Some? && RenderOf(x, q).value <= document ==> q == p
  {
    forall q | RenderOf(x, q).Some? && RenderOf(x, q).value <= document ensures q == p {
      OnePayloadPerDocument(x, p, q, RenderOf(x, p).value, RenderOf(x, q).value, document);
    }
  }

  /** What the office understands a signed document to ask for is what the document says: it begins
      with the rendering of a payload that carries that very blinded value, under the signature of
      the citizen the validator named. */
  lemma OfficeReadsWhatIsRendered(x: Renderer, loads: Parser, a: O.Authority, validate: Bytes -> O.Finding,
                                  document: Bytes, r: O.Request, revoked: bool, expired: bool)
    requires WritesPrologue(x)
    requires forall d: Bytes, covered: int {:trigger a.checkDocument(d, covered)} ::
      a.checkDocument(d, covered) == ForTheOffice(x, loads)(d, covered)
    requires O.Interpret(a, validate, document) == O.Understood(r, revoked, expired)
    ensures exists p :: RenderOf(x, p).Some? && RenderOf(x, p).value <= document
              && Decode(p.blindedKey) == Some(r.blindedKey)
              && |RenderOf(x, p).value| <= validate(document).covered
    ensures validate(document).Validated? && r.voterId == validate(document).identifier
  {
    var found := validate(document);
    var check := Check(x, loads, document, found.covered);
    assert a.checkDocument(document, found.covered) == ForTheOffice(x, loads)(document, found.covered);
    if check.Accepted? {
      AcceptedMeansRendered(x, loads, document, found.covered, check.payload, check.recoveredFrom);
    }
  }
}
