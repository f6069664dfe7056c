/** What the office's rule on documents answers, said without the rule: what a payload is, and which of the
    five answers a document gets. */
module PdfLaws {
  import opened Base64
  import opened Canonical
  import opened PdfRequests
  import opened PdfReadings
  import opened PdfRoundTrips
  import opened Statements

  lemma OnlyFields(o: Object, p: Payload)
    requires DistinctKeys(o) && WellFormed(Dict(o)) == Some(p)
    ensures AsMap(o) == AsMap(FieldsOf(p)) && Decode(p.blindedKey).Some?
  {
    FieldsDistinctKeys(p);
    forall key: string
      ensures key in AsMap(o) <==> key in AsMap(FieldsOf(p))
      ensures key in AsMap(o) ==> AsMap(o)[key] == AsMap(FieldsOf(p))[key]
    {
      FieldLookup(p, key);
      LookupHolds(o, key);
      LookupFromMap(o, key);
      LookupFromMap(FieldsOf(p), key);
    }
  }

  /** A payload is well formed exactly when it has the three fields, no others, all text, and the blinded key
      decodes. */
  lemma WellFormedExactly(o: Object, p: Payload)
    requires DistinctKeys(o)
    ensures WellFormed(Dict(o)) == Some(p) <==> AsMap(o) == AsMap(FieldsOf(p)) && Decode(p.blindedKey).Some?
  {
    if WellFormed(Dict(o)) == Some(p) {
      OnlyFields(o, p);
    }
    if AsMap(o) == AsMap(FieldsOf(p)) && Decode(p.blindedKey).Some? {
      LoadedIsWellFormed(o, p);
    }
  }

  /** The document carries this text, in either place. */
  ghost predicate Carries(document: string, raw: string) {
    Among(raw, FromEmbedded(document), FromMarker(document))
  }

  ghost predicate Among(raw: string, embedded: Option<string>, marker: Option<string>) {
    embedded == Some(raw) || marker == Some(raw)
  }

  ghost predicate Disagree(document: string) {
    Differ(FromEmbedded(document), FromMarker(document))
  }

  ghost predicate Differ(embedded: Option<string>, marker: Option<string>) {
    exists raw, other :: Among(raw, embedded, marker) && Among(other, embedded, marker) && raw != other
  }

  /** The text says this payload. */
  ghost predicate Says(loads: Parser, raw: string, p: Payload) {
    loads(raw).Some? && WellFormed(loads(raw).value) == Some(p)
  }

  ghost predicate BeginsWith(x: Renderer, document: string, p: Payload) {
    RenderOf(x, p).Some? && RenderOf(x, p).value <= document
  }

  lemma ReadSays(loads: Parser, raw: string, carrier: Carrier, p: Payload)
    ensures Read(loads, raw, carrier) == Candidate(p, carrier) <==> Says(loads, raw, p)
    ensures Read(loads, raw, carrier) == NoCandidate(NotARequestDocument) <==> forall q :: !Says(loads, raw, q)
    ensures Read(loads, raw, carrier).NoCandidate? ==> Read(loads, raw, carrier) == NoCandidate(NotARequestDocument)
  {
    if loads(raw).Some? {
      var said := WellFormed(loads(raw).value);
      assert said.Some? ==> Says(loads, raw, said.value);
    }
  }

  /** What is made of the two places, whatever they hold. */
  lemma Extracted(loads: Parser, embedded: Option<string>, marker: Option<string>, raw: string, p: Payload)
    ensures var candidate := ExtractFrom(loads, embedded, marker);
            && (candidate == NoCandidate(CarriersDisagree) <==> Differ(embedded, marker))
            && (embedded == None && marker == None ==> candidate == NoCandidate(NotARequestDocument))
            && (Among(raw, embedded, marker) && !Differ(embedded, marker) ==>
                  && (candidate == NoCandidate(NotARequestDocument) <==> forall q :: !Says(loads, raw, q))
                  && (Says(loads, raw, p) ==>
                        candidate == Candidate(p, if embedded.Some? then EmbeddedCopy else MarkerComment)))
            && (candidate.NoCandidate? ==>
                  candidate.refusal == NotARequestDocument || candidate.refusal == CarriersDisagree)
  {
    var carrier := if embedded.Some? then EmbeddedCopy else MarkerComment;
    if embedded.Some? {
      assert Among(embedded.value, embedded, marker);
      ReadSays(loads, embedded.value, carrier, p);
    }
    if marker.Some? {
      assert Among(marker.value, embedded, marker);
      ReadSays(loads, marker.value, carrier, p);
    }
  }

  lemma Judged(x: Renderer, candidate: Candidate, document: string, covered: int)
    ensures var answer := Judge(x, candidate, document, covered);
            match candidate
            case NoCandidate(refusal) => answer == Refused(refusal)
            case Candidate(p, carrier) =>
              answer == if !BeginsWith(x, document, p) then Refused(NotAsRendered)
                        else if covered < |RenderOf(x, p).value| then Refused(SignatureDoesNotCoverIt)
                        else Accepted(p, carrier)
  {
  }

  /** Which answer a document gets. It is read only when what it carries agrees, one carrier being enough,
      and the copy in the embedded file is named when there is one; it is accepted when it begins with the
      rendering of what it says and the signature covers all of that. */
  lemma CheckAnswers(x: Renderer, loads: Parser, document: string, covered: int, raw: string, p: Payload)
    ensures var answer := Check(x, loads, document, covered);
            && (answer == Refused(CarriersDisagree) <==> Disagree(document))
            && ((forall text :: !Carries(document, text)) ==> answer == Refused(NotARequestDocument))
            && (Carries(document, raw) && !Disagree(document) ==>
                  && (answer == Refused(NotARequestDocument) <==> forall q :: !Says(loads, raw, q))
                  && (Says(loads, raw, p) ==>
                        answer == if !BeginsWith(x, document, p) then Refused(NotAsRendered)
                                  else if covered < |RenderOf(x, p).value| then Refused(SignatureDoesNotCoverIt)
                                  else Accepted(p, if FromEmbedded(document).Some? then EmbeddedCopy
                                                   else MarkerComment)))
  {
    var embedded, marker := FromEmbedded(document), FromMarker(document);
    Extracted(loads, embedded, marker, raw, p);
    Judged(x, ExtractFrom(loads, embedded, marker), document, covered);
    assert embedded.Some? ==> Carries(document, embedded.value);
    assert marker.Some? ==> Carries(document, marker.value);
  }

  // ---- between the carrier's ends ---------------------------------------------------------------------

  /** ASCII white space: tab, line feed, vertical tab, form feed, carriage return, space. */
  predicate White(c: char) { c == '\t' || c == '\n' || c as int == 11 || c as int == 12 || c == '\r' || c == ' ' }

  predicate Blank(s: string) {
    forall i :: 0 <= i < |s| ==> White(s[i])
  }

  lemma SpaceIsWhite(c: char)
    ensures IsSpace(c) <==> White(c)
  {
  }

  lemma Put(c: char, before: string, middle: string, after: string)
    ensures [c] + (before + (middle + after)) == ([c] + before) + (middle + after)
    ensures (before + (middle + after)) + [c] == before + (middle + (after + [c]))
  {
  }

  /** Stripping takes the white space off both ends, all of it and nothing else. */
  lemma {:induction false} StripTakesBlanks(s: string) returns (before: string, after: string)
    ensures s == before + (Strip(s) + after) && Blank(before) && Blank(after)
    ensures Strip(s) != "" ==> !White(Strip(s)[0]) && !White(Strip(s)[|Strip(s)| - 1])
    decreases |s|
  {
    before, after := "", "";
    if s != "" {
      var n := |s| - 1;
      SpaceIsWhite(s[0]);
      SpaceIsWhite(s[n]);
      if IsSpace(s[0]) {
        before, after := StripTakesBlanks(s[1..]);
        assert s == [s[0]] + s[1..];
        Put(s[0], before, Strip(s), after);
        before := [s[0]] + before;
      } else if IsSpace(s[n]) {
        before, after := StripTakesBlanks(s[..n]);
        assert s == s[..n] + [s[n]];
        Put(s[n], before, Strip(s), after);
        after := after + [s[n]];
      }
    }
  }
}
