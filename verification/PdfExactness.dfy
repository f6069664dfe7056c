/** When a rendered document is accepted: exactly when its body contains neither of the two marks the
    extractor looks for. Otherwise the carriers come out different and it is refused. */
module PdfExactnesses {
  import opened Base64
  import opened Canonical
  import opened Searches
  import opened PdfRequests
  import opened PdfReadings
  import opened PdfRoundTrips

  lemma FoundBy(s: string, pattern: string, from: nat, i: nat)
    requires from <= i && At(s, pattern, i)
    ensures from <= Find(s, pattern, from) <= i && At(s, pattern, Find(s, pattern, from))
  {
    FindFinds(s, pattern, from);
  }

  lemma {:induction false} StripShortens(s: string)
    ensures |Strip(s)| <= |s|
    ensures s != "" && !IsSpace(s[0]) ==> Strip(s) == "" || Strip(s)[0] == s[0]
    decreases |s|
  {
    if s != "" {
      if IsSpace(s[0]) {
        StripShortens(s[1..]);
      } else if IsSpace(s[|s| - 1]) {
        StripShortens(s[..|s| - 1]);
      }
    }
  }

  /** Carriers that differ are refused. */
  lemma DifferingCarriers(x: Renderer, loads: Parser, document: string, covered: int, raw: string, body: string)
    requires FromEmbedded(document) == Some(raw) && FromMarker(document) == Some(body) && raw != body
    ensures Check(x, loads, document, covered) == Refused(CarriersDisagree)
  {
  }

  // ---- `endstream` in the body ---------------------------------------------------------------

  lemma OccursIn(a: string, b: string, c: string, pattern: string) returns (i: nat)
    requires Occurs(b, pattern)
    ensures |a| <= i && i + |pattern| <= |a| + |b| && At(a + (b + c), pattern, i)
  {
    var j :| At(b, pattern, j);
    i := |a| + j;
    AtLeft(b, c, pattern, j);
    AtRight(a, b + c, pattern, j);
  }

  lemma OpenSplits(clean: string, head: string, body: string, rest: string) returns (before: string, after: string)
    ensures |before| == |clean| + 1 + |head| + 1 + |STREAM|
    ensures LaidOpen(clean, head, body, rest) == before + (body + after)
  {
    before := clean + (" " + (head + ("\n" + STREAM)));
    after := "\n" + (END_STREAM + rest);
    Gather(clean, " ", head, "\n", STREAM, body + after);
  }

  lemma EarlierEnd(clean: string, head: string, body: string, rest: string)
    requires Occurs(body, END_STREAM)
    ensures var start := |clean| + 1 + |head| + 1;
            start <= Find(LaidOpen(clean, head, body, rest), END_STREAM, start) < start + |STREAM| + |body|
  {
    StreamChars();
    var before, after := OpenSplits(clean, head, body, rest);
    EarlierIn(before, body, after, |before| - |STREAM|);
  }

  lemma EarlierIn(before: string, body: string, after: string, start: nat)
    requires Occurs(body, END_STREAM) && start <= |before|
    ensures start <= Find(before + (body + after), END_STREAM, start) < |before| + |body|
  {
    var i := OccursIn(before, body, after, END_STREAM);
    FoundBy(before + (body + after), END_STREAM, start, i);
  }

  lemma CutAt(document: string, at: nat, start: nat, n: nat)
    requires Find(document, EMBEDDED, 0) == at && Find(document, STREAM, at) == start
    requires n > 0 && start <= Find(document, END_STREAM, start) < start + |STREAM| + n
    ensures FromEmbedded(document).Some? && |FromEmbedded(document).value| < n
  {
    var stop := Find(document, END_STREAM, start);
    ExtractedBetween(document, at, start, stop);
    StripShortens(Slice(document, start + |STREAM|, stop));
  }

  /** The stream is cut short. */
  lemma CutShort(clean: string, head: string, body: string, rest: string)
    requires Clean(clean) && clean != "" && clean[|clean| - 1] !in EMBEDDED
    requires EMBEDDED <= head && '\n' !in head && head[|head| - 1] == '>'
    requires Occurs(body, END_STREAM)
    ensures var document := LaidOpen(clean, head, body, rest);
            FromEmbedded(document).Some? && |FromEmbedded(document).value| < |body|
  {
    FindMark(clean, head, body, rest);
    FindStream(clean, head, body, rest);
    EarlierEnd(clean, head, body, rest);
    HasContent(body);
    CutAt(LaidOpen(clean, head, body, rest), |clean| + 1, |clean| + 1 + |head| + 1, |body|);
  }

  lemma HasContent(body: string)
    requires Occurs(body, END_STREAM)
    ensures body != ""
  {
    StreamChars();
  }

  // ---- the mark in the body ---------------------------------------------------------------------

  /** No line ends in the letter that ends the word before a stream. */
  ghost predicate Quiet(s: string) {
    && (s != "" ==> s[0] != '\n')
    && forall i :: 0 <= i < |s| - 1 && s[i + 1] == '\n' ==> s[i] != 'm'
  }

  lemma QuietHasNoStream(s: string)
    requires Quiet(s)
    ensures !Occurs(s, STREAM)
  {
    if i :| At(s, STREAM, i) {
      AtChar(s, STREAM, i, 5);
      AtChar(s, STREAM, i, 6);
    }
  }

  lemma QuietLine(s: string)
    requires '\n' !in s
    ensures Quiet(s)
  {
  }

  lemma QuietJoin(a: string, b: string)
    requires Quiet(a) && Quiet(b)
    ensures Quiet(a + b)
  {
    var s := a + b;
    forall i | 0 <= i < |s| - 1 && s[i + 1] == '\n' ensures s[i] != 'm' {
      assert i + 1 < |a| || i + 1 >= |a|;
    }
  }

  /** A line and its end. */
  lemma QuietEnd(a: string)
    requires Quiet(a) && a != "" && a[|a| - 1] != 'm'
    ensures Quiet(a + "\n")
  {
  }

  lemma QuietObject(k: nat, content: string)
    requires '\n' !in content && content != "" && content[|content| - 1] == '>'
    ensures Quiet(ObjectText(k, content))
  {
    DigitsPlain(k);
    QuietLine(Digits(k) + " 0 obj");
    QuietEnd(Digits(k) + " 0 obj");
    QuietLine(content);
    QuietEnd(content);
    QuietLine("endobj");
    QuietEnd("endobj");
    QuietJoin(content + "\n", "endobj" + "\n");
    QuietJoin(Digits(k) + " 0 obj" + "\n", (content + "\n") + ("endobj" + "\n"));
    ObjectLines(Digits(k), content);
  }

  lemma ObjectLines(d: string, content: string)
    ensures (d + " 0 obj" + "\n") + ((content + "\n") + ("endobj" + "\n"))
         == d + (" 0 obj\n" + (content + "\nendobj\n"))
  {
    assert content + "\nendobj\n" == (content + "\n") + ("endobj" + "\n");
    assert d + " 0 obj" + "\n" == d + " 0 obj\n";
  }

  lemma QuietPrologue(body: string)
    requires '\n' !in body && body != "" && body[|body| - 1] == '}'
    ensures Quiet(Prologue(body))
  {
    HeadingLacksMarker();
    QuietLine(MARKER + body);
    QuietEnd(MARKER + body);
    QuietHeading();
    QuietJoin(HEADING, MARKER + body + "\n");
    assert HEADING + (MARKER + body + "\n") == Prologue(body);
  }

  lemma QuietHeading()
    ensures Quiet(HEADING)
  {
  }

  lemma {:induction false} QuietWritten(x: Renderer, prologue: string, objects: seq<string>, k: nat)
    requires k <= |objects| && Quiet(prologue)
    requires forall i :: 0 <= i < k ==> Quiet(x.object'(i + 1, objects[i]))
    ensures Quiet(Written(x, prologue, objects, k))
  {
    if k > 0 {
      QuietWritten(x, prologue, objects, k - 1);
      assert Quiet(x.object'((k - 1) + 1, objects[k - 1]));
      QuietJoin(Written(x, prologue, objects, k - 1), x.object'(k, objects[k - 1]));
    }
  }

  ghost predicate OneLine(s: string) {
    '\n' !in s && s != "" && s[|s| - 1] == '>'
  }

  lemma OneLineParts(a: string, b: string)
    requires '\n' !in a && OneLine(b)
    ensures OneLine(a + b)
  {
  }

  lemma CatalogueHeadIsLine()
    ensures '\n' !in CATALOGUE_HEAD && '\n' !in NAME_TREE
  {
  }

  lemma CatalogueTailIsLine()
    ensures OneLine(CATALOGUE_TAIL)
  {
  }

  lemma PagesIsLine()
    ensures OneLine(PAGES)
  {
  }

  lemma PageSizeIsLine()
    ensures '\n' !in PAGE_SIZE
  {
  }

  lemma PageFontsIsLine()
    ensures OneLine(PAGE_FONTS)
  {
  }

  lemma FontIsLine(name: string)
    requires '\n' !in name
    ensures OneLine(FONT_HEAD + (name + FONT_TAIL))
  {
  }

  lemma FirstSixAreLines(content: string, body: string)
    ensures forall i :: 0 <= i < 6 ==> OneLine(Objects(content, body)[i])
  {
    CatalogueHeadIsLine();
    CatalogueTailIsLine();
    OneLineParts(NAME_TREE, CATALOGUE_TAIL);
    OneLineParts(CATALOGUE_HEAD, NAME_TREE + CATALOGUE_TAIL);
    PagesIsLine();
    PageSizeIsLine();
    PageFontsIsLine();
    OneLineParts(PAGE_SIZE, PAGE_FONTS);
    FontIsLine("Helvetica");
    FontIsLine("Courier");
    FontIsLine("Helvetica-Bold");
  }

  /** What precedes the page's own stream. */
  function UpToPageStream(length: nat): string { "7 0 obj\n<< /Length " + (Digits(length) + " >>") }

  lemma QuietUpToPage(x: Renderer, content: string, body: string)
    requires WritesObjects(x) && WritesPrologue(x)
    requires '\n' !in body && body != "" && body[|body| - 1] == '}'
    ensures Quiet(Written(x, x.prologue(body), x.objects(content, body), 6) + UpToPageStream(|content|))
  {
    var objects := x.objects(content, body);
    QuietPrologue(body);
    FirstSixAreLines(content, body);
    forall i | 0 <= i < 6 ensures Quiet(x.object'(i + 1, objects[i])) {
      assert OneLine(objects[i]);
      QuietObject(i + 1, objects[i]);
    }
    QuietWritten(x, x.prologue(body), objects, 6);
    QuietLength(|content|);
    QuietJoin(Written(x, x.prologue(body), objects, 6), UpToPageStream(|content|));
  }

  lemma QuietLength(length: nat)
    ensures Quiet(UpToPageStream(length))
  {
    DigitsPlain(length);
    QuietLine("7 0 obj");
    QuietEnd("7 0 obj");
    QuietLine("<< /Length " + (Digits(length) + " >>"));
    QuietJoin("7 0 obj" + "\n", "<< /Length " + (Digits(length) + " >>"));
    assert ("7 0 obj" + "\n") + ("<< /Length " + (Digits(length) + " >>")) == UpToPageStream(length);
  }

  // ---- a rendered document, opened at its page --------------------------------------------------

  /** A document, laid open around its page's stream. */
  function OpenAtPage(quiet: string, content: string, more: string): string {
    quiet + ("\n" + (STREAM + (content + ("\n" + (END_STREAM + more)))))
  }

  lemma SeventhPieces(a: string, b: string, c: string, d: string, e: string, content: string, f: string, g: string,
                      h: string, more: string)
    ensures (a + (b + ((c + (d + (e + (content + f)))) + g))) + (h + more)
         == (a + (b + (c + d))) + (e + (content + (f + (g + (h + more)))))
  {
    var inner := e + (content + f);
    assert (c + (d + inner)) + g == (c + d) + (inner + g);
    assert (a + (b + ((c + d) + (inner + g)))) + (h + more) == (a + (b + (c + d))) + (inner + (g + (h + more)));
    assert inner + (g + (h + more)) == e + (content + (f + (g + (h + more))));
  }

  lemma SeventhOpens(content: string, more: string)
    ensures ObjectText(7, PageStream(content)) + more
         == OpenAtPage(UpToPageStream(|content|), content, "\nendobj\n" + more)
  {
    SeventhPieces(Digits(7), " 0 obj\n", "<< /Length ", Digits(|content|), " >>\nstream\n", content, "\nendstream",
                  "\nendobj\n", "", more);
    assert "" + more == more;
    PageHead(Digits(|content|), content + ("\nendstream" + ("\nendobj\n" + more)));
    assert "\nendstream" + ("\nendobj\n" + more) == "\n" + (END_STREAM + ("\nendobj\n" + more));
  }

  lemma PageHead(length: string, x: string)
    ensures (Digits(7) + (" 0 obj\n" + ("<< /Length " + length))) + (" >>\nstream\n" + x)
         == ("7 0 obj\n<< /Length " + (length + " >>")) + ("\n" + (STREAM + x))
  {
    assert " >>\nstream\n" + x == " >>" + ("\n" + (STREAM + x));
    assert Digits(7) + (" 0 obj\n" + ("<< /Length " + length)) == "7 0 obj\n<< /Length " + length;
  }

  lemma OpensAfterSix(x: Renderer, prologue: string, objects: seq<string>, ident: string, tail: string)
    returns (more: string)
    requires |objects| == 10
    ensures Assembled(x, prologue, objects, ident) + tail
         == Written(x, prologue, objects, 6) + (x.object'(7, objects[6]) + more)
  {
    var later := OpensAfterEight(x, prologue, objects, ident, tail);
    var six, seventh, eighth, ninth :=
      Written(x, prologue, objects, 6), x.object'(7, objects[6]), x.object'(8, objects[7]), x.object'(9, objects[8]);
    assert Written(x, prologue, objects, 7) == six + seventh;
    assert Written(x, prologue, objects, 8) == (six + seventh) + eighth;
    more := eighth + (ninth + later);
    assert ((six + seventh) + eighth) + (ninth + later) == six + (seventh + (eighth + (ninth + later)));
  }

  lemma SeventhIsPage(x: Renderer, content: string, body: string)
    requires WritesObjects(x)
    ensures |x.objects(content, body)| == 10
    ensures x.object'(7, x.objects(content, body)[6]) == ObjectText(7, PageStream(content))
  {
  }

  lemma AssembledOpensAtPage(x: Renderer, prologue: string, objects: seq<string>, content: string, ident: string,
                             tail: string)
    returns (more: string)
    requires |objects| == 10 && x.object'(7, objects[6]) == ObjectText(7, PageStream(content))
    ensures Assembled(x, prologue, objects, ident) + tail
         == OpenAtPage(Written(x, prologue, objects, 6) + UpToPageStream(|content|), content, more)
  {
    var later := OpensAfterSix(x, prologue, objects, ident, tail);
    SeventhOpens(content, later);
    more := "\nendobj\n" + later;
    Associate(Written(x, prologue, objects, 6), UpToPageStream(|content|),
              "\n" + (STREAM + (content + ("\n" + (END_STREAM + more)))));
  }

  lemma UpToPageIsLong(x: Renderer, prologue: string, objects: seq<string>, length: nat)
    requires |objects| == 10
    ensures var quiet := Written(x, prologue, objects, 6) + UpToPageStream(length);
            |quiet| >= |prologue| && quiet != "" && quiet[|quiet| - 1] == '>'
  {
    BeginsWithPrologue(x, prologue, objects, 6);
  }

  lemma RenderedOpensAtPage(x: Renderer, p: Payload, rendered: string, tail: string)
    returns (content: string, quiet: string, more: string)
    requires WritesAll(x) && RenderOf(x, p) == Some(rendered)
    ensures rendered + tail == OpenAtPage(quiet, content, more)
    ensures Quiet(quiet) && |quiet| >= |Prologue(Body(p))| && quiet[|quiet| - 1] == '>'
    ensures content == Blocks(x.block, PageLines(x, p), |PageLines(x, p)|)
  {
    var body := Body(p);
    content := Blocks(x.block, PageLines(x, p), |PageLines(x, p)|);
    var prologue, objects := x.prologue(body), x.objects(content, body);
    SeventhIsPage(x, content, body);
    more := AssembledOpensAtPage(x, prologue, objects, content, Identifier(x.h, body), tail);
    quiet := Written(x, prologue, objects, 6) + UpToPageStream(|content|);
    BodyShape(p);
    QuietUpToPage(x, content, body);
    UpToPageIsLong(x, prologue, objects, |content|);
  }

  lemma {:induction false} BlocksBegin(block: Line -> string, lines: seq<Line>, k: nat)
    requires 0 < k <= |lines| && block(lines[0]) != ""
    ensures Blocks(block, lines, k) != "" && Blocks(block, lines, k)[0] == block(lines[0])[0]
  {
    if k == 1 {
      assert Blocks(block, lines, 1) == "" + block(lines[0]);
    } else {
      BlocksBegin(block, lines, k - 1);
    }
  }

  lemma PageBegins(x: Renderer, p: Payload)
    requires WritesPage(x)
    ensures var content := Blocks(x.block, PageLines(x, p), |PageLines(x, p)|);
            content != "" && content[0] == 'B'
  {
    BottomIsThere(x, p);
    var first := PageLines(x, p)[0];
    assert x.block(first) == LineBlock(first);
    BlocksBegin(x.block, PageLines(x, p), |PageLines(x, p)|);
  }

  lemma BottomIsThere(x: Renderer, p: Payload)
    ensures |PageLines(x, p)| > 0
  {
    assert |BottomLines(KEY_TOP - 10 * KeyLineCount(p.blindedKey))| == 3;
  }

  /** When the search starts early, it is the page that comes out. */
  lemma PageComesOut(quiet: string, content: string, more: string, body: string, j: nat)
    requires Quiet(quiet) && quiet != "" && quiet[|quiet| - 1] == '>' && content != "" && content[0] == 'B'
    requires j < |quiet| && At(OpenAtPage(quiet, content, more), EMBEDDED, j)
    requires body != "" && body[0] == '{'
    ensures var document := OpenAtPage(quiet, content, more);
            FromEmbedded(document).Some? && FromEmbedded(document).value != body
  {
    var document := OpenAtPage(quiet, content, more);
    FoundBy(document, EMBEDDED, 0, j);
    var at := Find(document, EMBEDDED, 0);
    FindPageStream(quiet, content, more, at);
    var start := |quiet| + 1;
    EndFollows(quiet, content, more);
    FoundBy(document, END_STREAM, start, start + |STREAM| + |content| + 1);
    var stop := Find(document, END_STREAM, start);
    ExtractedBetween(document, at, start, stop);
    ContentStarts(quiet, content, more);
    StripShortens(Slice(document, start + |STREAM|, stop));
  }

  lemma ContentStarts(quiet: string, content: string, more: string)
    requires content != ""
    ensures OpenAtPage(quiet, content, more)[|quiet| + 1 + |STREAM|] == content[0]
  {
    var before := quiet + ("\n" + STREAM);
    var after := "\n" + (END_STREAM + more);
    Associate("\n", STREAM, content + after);
    Associate(quiet, "\n" + STREAM, content + after);
    assert (before + (content + after))[|before|] == content[0];
  }

  lemma FindPageStream(quiet: string, content: string, more: string, at: nat)
    requires Quiet(quiet) && quiet != "" && quiet[|quiet| - 1] == '>' && at <= |quiet|
    ensures Find(OpenAtPage(quiet, content, more), STREAM, at) == |quiet| + 1
  {
    QuietHasNoStream(quiet);
    StreamChars();
    var after := content + ("\n" + (END_STREAM + more));
    var document := "" + (quiet + ("\n" + (STREAM + after)));
    forall j | at <= j < |quiet| + 1 ensures !At(document, STREAM, j) {
      NotFoundEarlier("", quiet, "\n", STREAM, after, j);
    }
    StandsAfter(quiet + "\n", STREAM, after);
    assert (quiet + "\n") + (STREAM + after) == document;
    FindIs(document, STREAM, at, |quiet| + 1);
    assert document == OpenAtPage(quiet, content, more);
  }

  lemma StandsAfter(a: string, b: string, c: string)
    ensures At(a + (b + c), b, |a|)
  {
    AtLeft(b, c, b, 0);
    AtRight(a, b + c, b, 0);
  }

  lemma EndFollows(quiet: string, content: string, more: string)
    ensures At(OpenAtPage(quiet, content, more), END_STREAM, |quiet| + 1 + |STREAM| + |content| + 1)
  {
    var before := quiet + ("\n" + (STREAM + (content + "\n")));
    StandsAfter(before, END_STREAM, more);
    Associate(content, "\n", END_STREAM + more);
    Associate(STREAM, content + "\n", END_STREAM + more);
    Associate("\n", STREAM + (content + "\n"), END_STREAM + more);
    Associate(quiet, "\n" + (STREAM + (content + "\n")), END_STREAM + more);
  }

  // ---- refusal ---------------------------------------------------------------------------------

  lemma MarkStandsInPrologue(x: Renderer, p: Payload, rendered: string, tail: string) returns (j: nat)
    requires WritesPrologue(x) && RenderOf(x, p) == Some(rendered) && Occurs(Body(p), EMBEDDED)
    ensures j < |Prologue(Body(p))| && At(rendered + tail, EMBEDDED, j)
  {
    var rest := BeginsWithBody(x, p, rendered);
    Extended(HEADING + MARKER, Body(p), rest, tail);
    j := OccursIn(HEADING + MARKER, Body(p), "\n" + (rest + tail), EMBEDDED);
  }

  lemma MarkedBodyComesOutWrong(x: Renderer, p: Payload, rendered: string, tail: string)
    requires WritesAll(x) && RenderOf(x, p) == Some(rendered) && Occurs(Body(p), EMBEDDED)
    ensures FromEmbedded(rendered + tail).Some? && FromEmbedded(rendered + tail).value != Body(p)
  {
    var j := MarkStandsInPrologue(x, p, rendered, tail);
    var content, quiet, more := RenderedOpensAtPage(x, p, rendered, tail);
    PageBegins(x, p);
    BodyShape(p);
    PageComesOut(quiet, content, more, Body(p), j);
  }

  lemma EndedBodyComesOutWrong(x: Renderer, p: Payload, rendered: string, tail: string)
    requires WritesAll(x) && RenderOf(x, p) == Some(rendered) && Genuine(p.blindedKey)
    requires Clean(Body(p)) && Occurs(Body(p), END_STREAM)
    ensures FromEmbedded(rendered + tail).Some? && FromEmbedded(rendered + tail).value != Body(p)
  {
    var before, rest := RenderedOpens(x, p, rendered, tail);
    CleanUpToNinth(x, p);
    MarkLacks();
    HeadShape(|Body(p)|);
    CutShort(before + NINTH, EmbeddedHead(|Body(p)|), Body(p), rest);
  }

  /** When a rendered document is accepted for its own payload, whatever was appended to it: exactly
      when its canonical body contains neither `/Type /EmbeddedFile` nor `endstream`. A body that does
      makes the two carriers disagree, and the document is refused. */
  lemma AcceptedExactlyWhenUnmarked(x: Renderer, loads: Parser, p: Payload, rendered: string, tail: string,
                                     covered: int)
    requires WritesAll(x) && LoadsBack(loads, p) && RenderOf(x, p) == Some(rendered)
    requires Genuine(p.blindedKey) && covered >= |rendered|
    ensures Check(x, loads, rendered + tail, covered) == Accepted(p, EmbeddedCopy)
       <==> !Occurs(Body(p), EMBEDDED) && !Occurs(Body(p), END_STREAM)
    ensures Occurs(Body(p), EMBEDDED) || Occurs(Body(p), END_STREAM)
        ==> Check(x, loads, rendered + tail, covered) == Refused(CarriersDisagree)
  {
    if !Occurs(Body(p), EMBEDDED) && !Occurs(Body(p), END_STREAM) {
      RenderedIsAccepted(x, loads, p, rendered, tail, covered);
    } else {
      MarkerGivesBody(x, p, rendered, tail);
      if Occurs(Body(p), EMBEDDED) {
        MarkedBodyComesOutWrong(x, p, rendered, tail);
      } else {
        EndedBodyComesOutWrong(x, p, rendered, tail);
      }
      DifferingCarriers(x, loads, rendered + tail, covered, FromEmbedded(rendered + tail).value, Body(p));
    }
  }
}
