/** What the extractor makes of a rendered document: when `check` gives back the payload that was
    rendered, whatever was appended to the document since. */
module PdfRoundTrips {
  import opened Base64
  import opened Canonical
  import opened Ledgers
  import opened Statements
  import opened Searches
  import opened PdfRequests
  import opened PdfReadings

  // ---- finding the first of something --------------------------------------------------------

  /** A pattern is first found after text that does not contain it, whose last character is foreign
      to it, and a gap in which it does not begin. */
  lemma FindFirst(before: string, clean: string, gap: string, pattern: string, after: string)
    requires pattern != "" && !Occurs(clean, pattern) && pattern[0] !in gap
    requires clean == "" || clean[|clean| - 1] !in pattern
    ensures Find(before + (clean + (gap + (pattern + after))), pattern, |before|) == |before| + |clean| + |gap|
  {
    var s := before + (clean + (gap + (pattern + after)));
    var n, m := |before| + |clean|, |before| + |clean| + |gap|;
    assert s[m..m + |pattern|] == pattern;
    forall j | |before| <= j < m ensures !At(s, pattern, j) {
      NotFoundEarlier(before, clean, gap, pattern, after, j);
    }
    FindIs(s, pattern, |before|, m);
  }

  lemma NotFoundEarlier(before: string, clean: string, gap: string, pattern: string, after: string, j: nat)
    requires pattern != "" && !Occurs(clean, pattern) && pattern[0] !in gap
    requires clean == "" || clean[|clean| - 1] !in pattern
    requires |before| <= j < |before| + |clean| + |gap|
    ensures !At(before + (clean + (gap + (pattern + after))), pattern, j)
  {
    var rest := gap + (pattern + after);
    var i := j - |before|;
    if At(before + (clean + rest), pattern, j) {
      AtInside(before, clean + rest, pattern, j);
      NotHere(clean, gap, rest, pattern, i);
    }
  }

  lemma NotHere(clean: string, gap: string, rest: string, pattern: string, i: nat)
    requires pattern != "" && !Occurs(clean, pattern) && pattern[0] !in gap && gap <= rest
    requires clean == "" || clean[|clean| - 1] !in pattern
    requires i < |clean| + |gap|
    ensures !At(clean + rest, pattern, i)
  {
    assert |clean| <= i ==> (clean + rest)[i] in gap;
    assert clean != "" ==> (clean + rest)[|clean| - 1] == clean[|clean| - 1];
    if At(clean + rest, pattern, i) {
      AtInside(clean, rest, pattern, i);
      AtChar(clean + rest, pattern, i, if |clean| <= i || i + |pattern| <= |clean| then 0 else |clean| - 1 - i);
    }
  }

  // ---- text without the embedded file's mark ---------------------------------------------------

  ghost predicate Clean(s: string) {
    !Occurs(s, EMBEDDED)
  }

  lemma MarkHas()
    ensures '/' in EMBEDDED && 'm' in EMBEDDED && 'E' in EMBEDDED && EMBEDDED[0] == '/' && |EMBEDDED| == 19
  {
    assert EMBEDDED[8] == 'm' && EMBEDDED[7] == 'E';
  }

  lemma MarkLacks()
    ensures '\n' !in EMBEDDED && '<' !in EMBEDDED && '\\' !in EMBEDDED
  {
  }

  lemma MarkLacksParentheses()
    ensures '(' !in EMBEDDED && ')' !in EMBEDDED
  {
  }

  /** Characters that do and do not occur in the mark. */
  lemma MarkChars()
    ensures '/' in EMBEDDED && 'm' in EMBEDDED && 'E' in EMBEDDED && EMBEDDED[0] == '/' && |EMBEDDED| == 19
    ensures '\n' !in EMBEDDED && '(' !in EMBEDDED && ')' !in EMBEDDED && '<' !in EMBEDDED && '\\' !in EMBEDDED
  {
    MarkHas();
    MarkLacks();
    MarkLacksParentheses();
  }

  lemma CleanWithout(s: string, c: char)
    requires c in EMBEDDED && c !in s
    ensures Clean(s)
  {
    NeedsChar(s, EMBEDDED, c);
  }

  lemma CleanShort(s: string)
    requires |s| < 19
    ensures Clean(s)
  {
    TooShort(s, EMBEDDED);
  }

  lemma DigitsPlain(n: nat)
    ensures 'm' !in Digits(n) && '/' !in Digits(n) && 'E' !in Digits(n) && '\n' !in Digits(n)
    ensures Digits(n) != "" && 'm' !in Decimal(n) && '/' !in Decimal(n)
  {
    DigitsReadBack(n);
  }

  lemma DecimalPlain(n: int)
    ensures 'm' !in Decimal(n)
  {
    if n < 0 {
      DigitsReadBack(-n);
    } else {
      DigitsReadBack(n);
    }
  }

  lemma EscapingIsForeign()
    ensures Foreign(PdfEscape, EMBEDDED)
  {
    MarkChars();
    forall c: char
      ensures PdfEscape(c) == [c]
           || (PdfEscape(c) != "" && forall k :: 0 <= k < |PdfEscape(c)| ==> PdfEscape(c)[k] !in EMBEDDED)
    {
      if c == '\\' || c == '(' || c == ')' {
        assert PdfEscape(c) == ['\\', c];
      }
    }
  }

  /** A clean text makes a clean literal string. */
  lemma CleanLiteral(text: string)
    requires Clean(text)
    ensures Clean(PdfText(text)) && PdfText(text) != ""
    ensures PdfText(text)[|PdfText(text)| - 1] == ')' && PdfText(text)[0] == '('
  {
    MarkChars();
    ThreeReplacesAreOnePass(text);
    EscapingIsForeign();
    var escaped := Rewrite(PdfEscape, text);
    if Occurs(escaped, EMBEDDED) {
      OccursBefore(PdfEscape, text, EMBEDDED);
    }
    CleanShort(")");
    CleanShort("(");
    JoinBefore(escaped, ")", EMBEDDED);
    JoinAfter("(", escaped + ")", EMBEDDED);
  }

  /** What stands before a line's text. */
  function Positioning(l: Line): string {
    "BT /" + (l.font + (" " + (Digits(l.size) + (" Tf " + (Decimal(l.x) + (" " + (Decimal(l.y) + " Td ")))))))
  }

  lemma BlockParts(l: Line)
    ensures LineBlock(l) == Positioning(l) + (PdfText(l.text) + " Tj ET\n")
  {
    Reassociate(l.font, Digits(l.size), Decimal(l.x), Decimal(l.y), PdfText(l.text) + " Tj ET\n");
  }

  lemma Reassociate(a: string, b: string, c: string, d: string, e: string)
    ensures "BT /" + (a + (" " + (b + (" Tf " + (c + (" " + (d + (" Td " + e))))))))
         == ("BT /" + (a + (" " + (b + (" Tf " + (c + (" " + (d + " Td "))))))) ) + e
  {
  }

  ghost predicate CleanLine(l: Line) {
    Clean(l.text) && 'm' !in l.font
  }

  lemma CleanBlock(l: Line)
    requires CleanLine(l)
    ensures Clean(LineBlock(l)) && LineBlock(l) != "" && LineBlock(l)[|LineBlock(l)| - 1] == '\n'
  {
    MarkChars();
    BlockParts(l);
    CleanLiteral(l.text);
    CleanShort(" Tj ET\n");
    JoinAfter(PdfText(l.text), " Tj ET\n", EMBEDDED);
    DigitsPlain(l.size);
    DecimalPlain(l.x);
    DecimalPlain(l.y);
    CleanWithout(Positioning(l), 'm');
    JoinBefore(Positioning(l), PdfText(l.text) + " Tj ET\n", EMBEDDED);
  }

  lemma OneMoreBlock(blocks: string, last: string)
    requires Clean(blocks) && (blocks == "" || blocks[|blocks| - 1] == '\n')
    requires Clean(last) && last != "" && last[|last| - 1] == '\n'
    ensures Clean(blocks + last) && blocks + last != "" && (blocks + last)[|blocks + last| - 1] == '\n'
  {
    MarkLacks();
    if blocks == "" {
      assert blocks + last == last;
    } else {
      JoinAfter(blocks, last, EMBEDDED);
    }
  }

  ghost predicate CleanEnd(s: string) {
    Clean(s) && s != "" && s[|s| - 1] == '\n'
  }

  lemma {:induction false} CleanBlocks(block: Line -> string, lines: seq<Line>, k: nat)
    requires k <= |lines|
    requires forall i :: 0 <= i < |lines| ==> CleanEnd(block(lines[i]))
    ensures var blocks := Blocks(block, lines, k); Clean(blocks) && (blocks == "" || blocks[|blocks| - 1] == '\n')
  {
    if k == 0 {
      CleanShort("");
    } else {
      CleanBlocks(block, lines, k - 1);
      assert CleanEnd(block(lines[k - 1]));
      OneMoreBlock(Blocks(block, lines, k - 1), block(lines[k - 1]));
    }
  }

  lemma CleanContent(x: Renderer, lines: seq<Line>)
    requires WritesPage(x) && forall i :: 0 <= i < |lines| ==> CleanLine(lines[i])
    ensures Clean(Blocks(x.block, lines, |lines|))
  {
    forall i | 0 <= i < |lines| ensures CleanEnd(x.block(lines[i])) {
      CleanBlock(lines[i]);
    }
    CleanBlocks(x.block, lines, |lines|);
  }

  // ---- the page is clean ----------------------------------------------------------------------

  predicate Genuine(key: string) {
    forall i :: 0 <= i < |key| ==> IsUrlSafe(key[i])
  }

  lemma SliceHolds(s: string, i: nat, j: nat, c: char)
    requires c !in s
    ensures c !in Slice(s, i, j)
  {
  }

  lemma {:induction false} HexHasNoSlash(s: Bytes)
    ensures '/' !in Hex(s)
  {
    if s != "" {
      HexHasNoSlash(s[1..]);
    }
  }

  lemma FingerprintHasNoSlash(h: HashFunction, key: string)
    ensures '/' !in FingerprintText(h, key)
  {
    if Decode(key).Some? {
      var hex := Hex(h(Decode(key).value));
      HexHasNoSlash(h(Decode(key).value));
      SliceHolds(hex, 0, 16, '/');
      var short := Slice(hex, 0, 16);
      SliceHolds(short, 0, 4, '/');
      SliceHolds(short, 4, 8, '/');
      SliceHolds(short, 8, 12, '/');
      SliceHolds(short, 12, 16, '/');
    }
  }

  lemma CleanText(text: string)
    requires '/' !in text
    ensures Clean(text)
  {
    MarkHas();
    CleanWithout(text, '/');
  }

  lemma CleanTitle()
    ensures forall i :: 0 <= i < |TITLE| ==> CleanLine(TITLE[i])
  {
    CleanText("TOKEN REQUEST");
    CleanSubtitle();
  }

  lemma CleanSubtitle()
    ensures Clean(SUBTITLE)
  {
    CleanText(SUBTITLE);
  }

  lemma CleanField(caption: string, value: string)
    requires '/' !in caption && Clean(value)
    ensures Clean(caption + value)
  {
    MarkHas();
    NotBegun(caption, value, EMBEDDED);
  }

  lemma CleanFingerprint(h: HashFunction, key: string)
    ensures Clean("fingerprint of c    " + FingerprintText(h, key))
  {
    MarkHas();
    FingerprintHasNoSlash(h, key);
    CleanWithout(FingerprintText(h, key), '/');
    CleanField("fingerprint of c    ", FingerprintText(h, key));
  }

  lemma CleanFields(h: HashFunction, p: Payload)
    requires Clean(p.electionId) && Clean(p.configDigest)
    ensures forall i :: 0 <= i < 3 ==> CleanLine(FieldLines(h, p)[i])
  {
    CleanFingerprint(h, p.blindedKey);
    CleanField("election            ", p.electionId);
    CleanField("configuration       ", p.configDigest);
  }

  lemma CleanRequesting()
    ensures Clean(REQUESTING)
  {
    CleanText(REQUESTING);
  }

  lemma CleanConcealed()
    ensures Clean(CONCEALED)
  {
    CleanText(CONCEALED);
  }

  lemma CleanCarried()
    ensures Clean(CARRIED)
  {
    CleanText(CARRIED);
  }

  lemma CleanCompared()
    ensures Clean(COMPARED)
  {
    CleanText(COMPARED);
  }

  lemma CleanShown()
    ensures Clean(SHOWN)
  {
    CleanText(SHOWN);
  }

  lemma CleanCaption()
    ensures Clean(CAPTION)
  {
    CleanText(CAPTION);
  }

  lemma CleanCarriers()
    ensures Clean(CARRIERS)
  {
    CleanText(CARRIERS);
  }

  lemma CleanRebuilt()
    ensures Clean(REBUILT)
  {
    CleanText(REBUILT);
  }

  lemma CleanRefused()
    ensures Clean(REFUSED)
  {
    CleanText(REFUSED);
  }

  lemma CleanProse()
    ensures forall i :: 0 <= i < |PROSE| ==> CleanLine(PROSE[i])
  {
    CleanRequesting();
    CleanConcealed();
    CleanCarried();
    CleanCompared();
    CleanShown();
    CleanCaption();
  }

  lemma CleanBottom(y: int)
    ensures forall i :: 0 <= i < |BottomLines(y)| ==> CleanLine(BottomLines(y)[i])
  {
    CleanCarriers();
    CleanRebuilt();
    CleanRefused();
  }

  lemma CleanKey(key: string, k: nat)
    requires Genuine(key)
    ensures forall i :: 0 <= i < k ==> CleanLine(KeyLines(key, k)[i])
  {
    assert '/' !in key;
    forall i | 0 <= i < k ensures CleanLine(KeyLines(key, k)[i]) {
      KeyLineAt(key, k, i);
      SliceHolds(key, 64 * i, 64 * (i + 1), '/');
      CleanText(KeyLines(key, k)[i].text);
    }
  }

  lemma AllLines(a: seq<Line>, b: seq<Line>)
    requires forall i :: 0 <= i < |a| ==> CleanLine(a[i])
    requires forall i :: 0 <= i < |b| ==> CleanLine(b[i])
    ensures forall i :: 0 <= i < |a + b| ==> CleanLine((a + b)[i])
  {
  }

  lemma CleanTop(h: HashFunction, p: Payload)
    requires Clean(p.electionId) && Clean(p.configDigest)
    ensures forall i :: 0 <= i < |TopLines(h, p)| ==> CleanLine(TopLines(h, p)[i])
  {
    CleanTitle();
    CleanFields(h, p);
    CleanProse();
    AllLines(FieldLines(h, p), PROSE);
    AllLines(TITLE, FieldLines(h, p) + PROSE);
  }

  lemma CleanPage(top: seq<Line>, key: string)
    requires Genuine(key) && forall i :: 0 <= i < |top| ==> CleanLine(top[i])
    ensures forall i :: 0 <= i < |WithKey(top, key)| ==> CleanLine(WithKey(top, key)[i])
  {
    var k := KeyLineCount(key);
    CleanKey(key, k);
    CleanBottom(KEY_TOP - 10 * k);
    AllLines(KeyLines(key, k), BottomLines(KEY_TOP - 10 * k));
    AllLines(top, KeyLines(key, k) + BottomLines(KEY_TOP - 10 * k));
  }

  // ---- the objects before the embedded file are clean -------------------------------------------

  lemma CleanCatalogueHead()
    ensures Clean(CATALOGUE_HEAD) && CATALOGUE_HEAD != "" && CATALOGUE_HEAD[|CATALOGUE_HEAD| - 1] == '<'
  {
    MarkHas();
    CleanWithout(CATALOGUE_HEAD, 'E');
  }

  lemma CleanCatalogueTail()
    ensures Clean(CATALOGUE_TAIL)
  {
    MarkHas();
    CleanWithout(CATALOGUE_TAIL, 'E');
  }

  lemma CleanCatalogue()
    ensures Clean(CATALOGUE)
  {
    MarkLacks();
    CleanCatalogueHead();
    CleanShort(NAME_TREE);
    CleanCatalogueTail();
    JoinAfter(NAME_TREE, CATALOGUE_TAIL, EMBEDDED);
    JoinAfter(CATALOGUE_HEAD, NAME_TREE + CATALOGUE_TAIL, EMBEDDED);
  }

  lemma CleanPages()
    ensures Clean(PAGES)
  {
    MarkHas();
    CleanWithout(PAGES, 'E');
  }

  lemma PageSizeLacksE()
    ensures 'E' !in PAGE_SIZE
  {
  }

  lemma PageFontsLackE()
    ensures 'E' !in PAGE_FONTS
  {
  }

  lemma CleanPageObject()
    ensures Clean(PAGE)
  {
    MarkHas();
    PageSizeLacksE();
    PageFontsLackE();
    LacksBoth(PAGE_SIZE, PAGE_FONTS, 'E');
    CleanWithout(PAGE, 'E');
  }

  lemma LacksBoth(a: string, b: string, c: char)
    requires c !in a && c !in b
    ensures c !in a + b
  {
  }

  lemma CleanFont(name: string)
    requires 'm' !in name
    ensures Clean(FONT_HEAD + (name + FONT_TAIL))
  {
    MarkHas();
    CleanWithout(FONT_HEAD + (name + FONT_TAIL), 'm');
  }

  lemma FileNamesLackE()
    ensures 'E' !in FILE_NAMES
  {
  }

  lemma FileDescriptionLacksE()
    ensures 'E' !in FILE_DESCRIPTION && FILE_DESCRIPTION != "" && FILE_DESCRIPTION[|FILE_DESCRIPTION| - 1] == ')'
  {
  }

  lemma CleanFileContents()
    ensures Clean(FILE_CONTENTS)
  {
    MarkHas();
    CleanWithout(FILE_CONTENTS, 'm');
  }

  lemma CleanThree(a: string, b: string, c: string)
    requires 'E' !in a && 'E' !in b && b != "" && b[|b| - 1] == ')' && Clean(c)
    ensures Clean(a + (b + c))
  {
    MarkHas();
    MarkLacksParentheses();
    LacksBoth(a, b, 'E');
    CleanWithout(a + b, 'E');
    JoinAfter(a + b, c, EMBEDDED);
    Associate(a, b, c);
  }

  lemma CleanFileSpecification()
    ensures Clean(FILE_SPECIFICATION)
  {
    FileNamesLackE();
    FileDescriptionLacksE();
    CleanFileContents();
    CleanThree(FILE_NAMES, FILE_DESCRIPTION, FILE_CONTENTS);
  }

  lemma CleanPageStream(content: string)
    requires Clean(content)
    ensures Clean(PageStream(content))
  {
    MarkHas();
    MarkLacks();
    var head := "<< /Length " + (Digits(|content|) + " >>\nstream\n");
    DigitsPlain(|content|);
    CleanWithout(head, 'E');
    CleanShort("\nendstream");
    JoinBefore(content, "\nendstream", EMBEDDED);
    JoinAfter(head, content + "\nendstream", EMBEDDED);
    assert head + (content + "\nendstream") == PageStream(content);
  }

  lemma CleanObject(k: nat, content: string)
    requires Clean(content)
    ensures CleanEnd(ObjectText(k, content))
  {
    MarkHas();
    MarkLacks();
    DigitsPlain(k);
    CleanShort("\nendobj\n");
    CleanShort(" 0 obj\n");
    JoinBefore(content, "\nendobj\n", EMBEDDED);
    JoinAfter(" 0 obj\n", content + "\nendobj\n", EMBEDDED);
    NotBegun(Digits(k), " 0 obj\n" + (content + "\nendobj\n"), EMBEDDED);
  }

  lemma CleanPrologue(body: string)
    requires Clean(body)
    ensures CleanEnd(Prologue(body))
  {
    MarkHas();
    MarkLacks();
    CleanShort("\n");
    JoinBefore(body, "\n", EMBEDDED);
    NotBegun(MARKER, body + "\n", EMBEDDED);
    NotBegun(HEADING, MARKER + (body + "\n"), EMBEDDED);
  }

  lemma {:induction false} CleanWritten(x: Renderer, prologue: string, objects: seq<string>, k: nat)
    requires k <= |objects| && CleanEnd(prologue)
    requires forall i :: 0 <= i < k ==> CleanEnd(x.object'(i + 1, objects[i]))
    ensures CleanEnd(Written(x, prologue, objects, k))
  {
    if k > 0 {
      CleanWritten(x, prologue, objects, k - 1);
      assert CleanEnd(x.object'((k - 1) + 1, objects[k - 1]));
      OneMoreBlock(Written(x, prologue, objects, k - 1), x.object'(k, objects[k - 1]));
    }
  }

  lemma CleanObjects(content: string, body: string)
    requires Clean(content)
    ensures forall i :: 0 <= i < 8 ==> Clean(Objects(content, body)[i])
  {
    CleanCatalogue();
    CleanPages();
    CleanPageObject();
    CleanFont("Helvetica");
    CleanFont("Courier");
    CleanFont("Helvetica-Bold");
    CleanPageStream(content);
    CleanFileSpecification();
  }

  /** Everything before the ninth object is clean. */
  lemma CleanBeforeEmbedded(x: Renderer, content: string, body: string)
    requires WritesObjects(x) && WritesPrologue(x) && Clean(content) && Clean(body)
    ensures CleanEnd(Written(x, x.prologue(body), x.objects(content, body), 8))
  {
    CleanPrologue(body);
    CleanObjects(content, body);
    var objects := x.objects(content, body);
    forall i | 0 <= i < 8 ensures CleanEnd(x.object'(i + 1, objects[i])) {
      CleanObject(i + 1, objects[i]);
    }
    CleanWritten(x, x.prologue(body), objects, 8);
  }

  // ---- what the extractor finds ----------------------------------------------------------------

  /** A document, laid open around its embedded copy. */
  function LaidOpen(clean: string, head: string, body: string, rest: string): string {
    clean + (" " + (head + ("\n" + (STREAM + (body + ("\n" + (END_STREAM + rest)))))))
  }

  lemma HeadShape(length: nat)
    ensures EMBEDDED <= EmbeddedHead(length) && '\n' !in EmbeddedHead(length)
    ensures EmbeddedHead(length)[|EmbeddedHead(length)| - 1] == '>'
  {
    MarkLacks();
    DigitsPlain(length);
  }

  lemma StreamChars()
    ensures '\n' in STREAM && '>' !in STREAM && STREAM[0] == 's' && |STREAM| == 7 && '\n' !in END_STREAM
    ensures |END_STREAM| == 9
  {
    assert STREAM[6] == '\n';
  }

  lemma FindMark(clean: string, head: string, body: string, rest: string)
    requires Clean(clean) && clean != "" && clean[|clean| - 1] !in EMBEDDED && EMBEDDED <= head
    ensures Find(LaidOpen(clean, head, body, rest), EMBEDDED, 0) == |clean| + 1
  {
    MarkHas();
    var after := head[|EMBEDDED|..] + ("\n" + (STREAM + (body + ("\n" + (END_STREAM + rest)))));
    assert EMBEDDED + head[|EMBEDDED|..] == head;
    FindFirst("", clean, " ", EMBEDDED, after);
    assert "" + (clean + (" " + (EMBEDDED + after))) == LaidOpen(clean, head, body, rest);
  }

  lemma FindStream(clean: string, head: string, body: string, rest: string)
    requires '\n' !in head && head != "" && head[|head| - 1] == '>'
    ensures Find(LaidOpen(clean, head, body, rest), STREAM, |clean| + 1) == |clean| + 1 + |head| + 1
  {
    StreamChars();
    NeedsChar(head, STREAM, '\n');
    FindAfterGap(clean, " ", head, "\n", STREAM, body + ("\n" + (END_STREAM + rest)));
  }

  lemma FindAfterGap(before: string, space: string, clean: string, gap: string, pattern: string, after: string)
    requires pattern != "" && !Occurs(clean, pattern) && pattern[0] !in gap
    requires clean == "" || clean[|clean| - 1] !in pattern
    ensures Find(before + (space + (clean + (gap + (pattern + after)))), pattern, |before| + |space|)
         == |before| + |space| + |clean| + |gap|
  {
    Associate(before, space, clean + (gap + (pattern + after)));
    FindFirst(before + space, clean, gap, pattern, after);
  }

  lemma Regroup(clean: string, space: string, head: string, gap: string, tail: string)
    ensures clean + (space + (head + (gap + tail))) == (clean + (space + (head + gap))) + tail
  {
    Associate(head, gap, tail);
    Associate(space, head + gap, tail);
    Associate(clean, space + (head + gap), tail);
  }

  lemma BodyIsQuiet(body: string)
    requires !Occurs(body, END_STREAM)
    ensures !Occurs(STREAM + (body + "\n"), END_STREAM)
  {
    StreamChars();
    TooShort(STREAM, END_STREAM);
    TooShort("\n", END_STREAM);
    JoinBefore(body, "\n", END_STREAM);
    JoinAfter(STREAM, body + "\n", END_STREAM);
  }

  lemma EndFound(before: string, body: string, rest: string)
    requires !Occurs(body, END_STREAM)
    ensures Find(before + (STREAM + (body + ("\n" + (END_STREAM + rest)))), END_STREAM, |before|)
         == |before| + |STREAM| + |body| + 1
  {
    StreamChars();
    BodyIsQuiet(body);
    Associate(body, "\n", END_STREAM + rest);
    Associate(STREAM, body + "\n", END_STREAM + rest);
    FindFirst(before, STREAM + (body + "\n"), "", END_STREAM, rest);
    assert "" + (END_STREAM + rest) == END_STREAM + rest;
  }

  lemma EndFoundIn(document: string, before: string, body: string, rest: string, start: nat)
    requires !Occurs(body, END_STREAM) && start == |before|
    requires document == before + (STREAM + (body + ("\n" + (END_STREAM + rest))))
    ensures Find(document, END_STREAM, start) == start + |STREAM| + |body| + 1
  {
    EndFound(before, body, rest);
  }

  lemma OpenedAtStream(clean: string, head: string, body: string, rest: string) returns (before: string)
    ensures |before| == |clean| + 1 + |head| + 1
    ensures LaidOpen(clean, head, body, rest) == before + (STREAM + (body + ("\n" + (END_STREAM + rest))))
  {
    before := clean + (" " + (head + "\n"));
    Regroup(clean, " ", head, "\n", STREAM + (body + ("\n" + (END_STREAM + rest))));
  }

  lemma StripsTo(body: string)
    requires |body| >= 2 && body[0] == '{' && body[|body| - 1] == '}'
    ensures Strip(body + "\n") == body
  {
    assert (body + "\n")[..|body|] == body;
    assert !IsSpace(body[0]) && !IsSpace(body[|body| - 1]);
    assert Strip(body) == body;
  }

  lemma SliceBetween(a: string, b: string, c: string)
    ensures Slice(a + (b + c), |a|, |a| + |b|) == b
  {
    if b != "" {
      assert (a + (b + c))[|a|..|a| + |b|] == b;
    }
  }

  lemma Gather(a: string, b: string, c: string, d: string, e: string, rest: string)
    ensures a + (b + (c + (d + (e + rest)))) == (a + (b + (c + (d + e)))) + rest
  {
    Associate(d, e, rest);
    Associate(c, d + e, rest);
    Associate(b, c + (d + e), rest);
    Associate(a, b + (c + (d + e)), rest);
  }

  /** What comes out, given what is found. */
  lemma ExtractedBetween(document: string, at: nat, start: nat, stop: nat)
    requires Find(document, EMBEDDED, 0) == at && Find(document, STREAM, at) == start
    requires Find(document, END_STREAM, start) == stop
    ensures FromEmbedded(document) == Some(Strip(Slice(document, start + |STREAM|, stop)))
  {
  }

  lemma StreamContents(clean: string, head: string, body: string, rest: string)
    ensures var start := |clean| + 1 + |head| + 1 + |STREAM|;
            Slice(LaidOpen(clean, head, body, rest), start, start + |body| + 1) == body + "\n"
  {
    StreamChars();
    var before := clean + (" " + (head + ("\n" + STREAM)));
    Associate(body, "\n", END_STREAM + rest);
    Gather(clean, " ", head, "\n", STREAM, (body + "\n") + (END_STREAM + rest));
    SliceBetween(before, body + "\n", END_STREAM + rest);
  }

  /** The embedded copy comes out as it went in. */
  lemma EmbeddedComesOut(clean: string, head: string, body: string, rest: string)
    requires Clean(clean) && clean != "" && clean[|clean| - 1] !in EMBEDDED
    requires EMBEDDED <= head && '\n' !in head && head[|head| - 1] == '>'
    requires |body| >= 2 && body[0] == '{' && body[|body| - 1] == '}' && !Occurs(body, END_STREAM)
    ensures FromEmbedded(LaidOpen(clean, head, body, rest)) == Some(body)
  {
    FindMark(clean, head, body, rest);
    FindStream(clean, head, body, rest);
    StreamContents(clean, head, body, rest);
    var start := |clean| + 1 + |head| + 1;
    var before := OpenedAtStream(clean, head, body, rest);
    var document := LaidOpen(clean, head, body, rest);
    EndFoundIn(document, before, body, rest, start);
    StrippedBetween(document, |clean| + 1, start, start + |STREAM| + |body| + 1, body);
  }

  lemma StrippedBetween(document: string, at: nat, start: nat, stop: nat, body: string)
    requires Find(document, EMBEDDED, 0) == at && Find(document, STREAM, at) == start
    requires Find(document, END_STREAM, start) == stop && Slice(document, start + |STREAM|, stop) == body + "\n"
    requires |body| >= 2 && body[0] == '{' && body[|body| - 1] == '}'
    ensures FromEmbedded(document) == Some(body)
  {
    ExtractedBetween(document, at, start, stop);
    StripsTo(body);
  }

  /** The marker comment comes out as it went in. */
  lemma MarkerComesOut(body: string, rest: string)
    requires '\n' !in body
    ensures FromMarker(HEADING + MARKER + (body + ("\n" + rest))) == Some(body)
  {
    var document := HEADING + MARKER + (body + ("\n" + rest));
    HeadingLacksMarker();
    FindFirst("", HEADING, "", MARKER, body + ("\n" + rest));
    assert "" + (HEADING + ("" + (MARKER + (body + ("\n" + rest))))) == document;
    TooShort("", "\n");
    FindFirst(HEADING, "", MARKER + body, "\n", rest);
    assert HEADING + ("" + ((MARKER + body) + ("\n" + rest))) == document;
    SliceBetween(HEADING + MARKER, body, "\n" + rest);
  }

  lemma HeadingLacksMarker()
    ensures !Occurs(HEADING, MARKER) && HEADING[|HEADING| - 1] !in MARKER && '\n' !in MARKER
  {
    assert MARKER[1] == 'O';
    NeedsChar(HEADING, MARKER, 'O');
  }

  // ---- a rendered document, laid open ------------------------------------------------------------

  lemma OpenNinth(a: string, b: string, c: string, head: string, body: string, closed: string, more: string)
    ensures (a + (b + ((c + (" " + (head + ("\n" + (STREAM + (body + ("\n" + END_STREAM))))))) + closed))) + more
         == (a + (b + c)) + (" " + (head + ("\n" + (STREAM + (body + ("\n" + (END_STREAM + (closed + more))))))))
  {
    OpenPieces(a, b, c, head, STREAM, body, END_STREAM, closed, more);
  }

  lemma OpenPieces(a: string, b: string, c: string, head: string, d: string, body: string, e: string,
                   closed: string, more: string)
    ensures (a + (b + ((c + (" " + (head + ("\n" + (d + (body + ("\n" + e))))))) + closed))) + more
         == (a + (b + c)) + (" " + (head + ("\n" + (d + (body + ("\n" + (e + (closed + more))))))))
  {
    var inner := " " + (head + ("\n" + (d + (body + ("\n" + e)))));
    assert inner + (closed + more) == " " + (head + ("\n" + (d + (body + ("\n" + (e + (closed + more)))))));
    assert (a + (b + ((c + inner) + closed))) + more == (a + (b + c)) + (inner + (closed + more));
  }

  const NINTH := "9 0 obj\n<<"

  lemma NinthOpens(body: string, more: string)
    ensures ObjectText(9, EmbeddedFile(body)) + more
         == NINTH
            + (" " + (EmbeddedHead(|body|)
               + ("\n" + (STREAM + (body + ("\n" + (END_STREAM + ("\nendobj\n" + more))))))))
  {
    OpenNinth(Digits(9), " 0 obj\n", "<<", EmbeddedHead(|body|), body, "\nendobj\n", more);
    assert Digits(9) + (" 0 obj\n" + "<<") == NINTH;
  }

  /** Any document, opened after its eighth object. */
  lemma OpensAfterEight(x: Renderer, prologue: string, objects: seq<string>, ident: string, tail: string)
    returns (more: string)
    requires |objects| == 10
    ensures Assembled(x, prologue, objects, ident) + tail
         == Written(x, prologue, objects, 8) + (x.object'(9, objects[8]) + more)
  {
    var eight, ninth, tenth := Written(x, prologue, objects, 8), x.object'(9, objects[8]), x.object'(10, objects[9]);
    var closing := Closing(x, prologue, objects, ident);
    assert Written(x, prologue, objects, 9) == eight + ninth;
    assert Written(x, prologue, objects, 10) == (eight + ninth) + tenth;
    more := tenth + (closing + tail);
    assert (((eight + ninth) + tenth) + closing) + tail == eight + (ninth + (tenth + (closing + tail)));
  }

  ghost predicate WritesAll(x: Renderer) {
    WritesPage(x) && WritesObjects(x) && WritesPrologue(x)
  }

  /** A rendered document with anything after it, around its embedded copy. */
  lemma RenderedOpens(x: Renderer, p: Payload, rendered: string, tail: string) returns (before: string, rest: string)
    requires WritesObjects(x) && RenderOf(x, p) == Some(rendered)
    ensures rendered + tail == LaidOpen(before + NINTH, EmbeddedHead(|Body(p)|), Body(p), rest)
    ensures var lines, body := PageLines(x, p), Body(p);
            before == Written(x, x.prologue(body), x.objects(Blocks(x.block, lines, |lines|), body), 8)
  {
    var lines, body := PageLines(x, p), Body(p);
    var prologue, objects := x.prologue(body), x.objects(Blocks(x.block, lines, |lines|), body);
    before := Written(x, prologue, objects, 8);
    var more := OpensAfterEight(x, prologue, objects, Identifier(x.h, body), tail);
    NinthIsEmbedded(x, Blocks(x.block, lines, |lines|), body);
    NinthOpens(body, more);
    rest := "\nendobj\n" + more;
    Associate(before, NINTH, " " + (EmbeddedHead(|body|) + ("\n" + (STREAM + (body + ("\n" + (END_STREAM + rest)))))));
  }

  lemma NinthIsEmbedded(x: Renderer, content: string, body: string)
    requires WritesObjects(x)
    ensures |x.objects(content, body)| == 10
    ensures x.object'(9, x.objects(content, body)[8]) == ObjectText(9, EmbeddedFile(body))
  {
  }

  // ---- completeness -------------------------------------------------------------------------------

  lemma MarkIsPlain()
    ensures Plain(Escape, EMBEDDED)
  {
  }

  /** A clean body means clean values on the page. */
  lemma CleanValues(p: Payload)
    requires Clean(Body(p))
    ensures Clean(p.electionId) && Clean(p.configDigest)
  {
    MarkIsPlain();
    var f := FieldsOf(p);
    if Occurs(p.configDigest, EMBEDDED) {
      ValueInBody(p, f[1], EMBEDDED);
    }
    if Occurs(p.electionId, EMBEDDED) {
      ValueInBody(p, f[2], EMBEDDED);
    }
  }

  lemma CleanUpToNinth(x: Renderer, p: Payload)
    requires WritesAll(x) && Clean(Body(p)) && Genuine(p.blindedKey)
    ensures var lines, body := PageLines(x, p), Body(p);
            Clean(Written(x, x.prologue(body), x.objects(Blocks(x.block, lines, |lines|), body), 8) + NINTH)
  {
    CleanValues(p);
    CleanTop(x.h, p);
    CleanPage(x.top(p), p.blindedKey);
    CleanContent(x, PageLines(x, p));
    CleanBeforeEmbedded(x, Blocks(x.block, PageLines(x, p), |PageLines(x, p)|), Body(p));
    CleanJoinNinth(Written(x, x.prologue(Body(p)),
                           x.objects(Blocks(x.block, PageLines(x, p), |PageLines(x, p)|), Body(p)), 8));
  }

  lemma CleanJoinNinth(before: string)
    requires CleanEnd(before)
    ensures Clean(before + NINTH)
  {
    MarkLacks();
    CleanShort(NINTH);
    JoinAfter(before, NINTH, EMBEDDED);
  }

  lemma EmbeddedGivesBody(x: Renderer, p: Payload, rendered: string, tail: string)
    requires WritesAll(x) && RenderOf(x, p) == Some(rendered) && Genuine(p.blindedKey)
    requires Clean(Body(p)) && !Occurs(Body(p), END_STREAM)
    ensures FromEmbedded(rendered + tail) == Some(Body(p))
  {
    var before, rest := RenderedOpens(x, p, rendered, tail);
    CleanUpToNinth(x, p);
    OpenedComesOut(before, Body(p), p, rest);
  }

  lemma OpenedComesOut(before: string, body: string, p: Payload, rest: string)
    requires body == Body(p) && Clean(before + NINTH) && !Occurs(body, END_STREAM)
    ensures FromEmbedded(LaidOpen(before + NINTH, EmbeddedHead(|body|), body, rest)) == Some(body)
  {
    BodyShape(p);
    MarkLacks();
    HeadShape(|body|);
    EmbeddedComesOut(before + NINTH, EmbeddedHead(|body|), body, rest);
  }

  /** Both carriers of a rendered document give back its body, whatever was appended since. */
  lemma CarriersAgree(x: Renderer, p: Payload, rendered: string, tail: string)
    requires WritesAll(x) && RenderOf(x, p) == Some(rendered) && Genuine(p.blindedKey)
    requires Clean(Body(p)) && !Occurs(Body(p), END_STREAM)
    ensures FromEmbedded(rendered + tail) == Some(Body(p)) && FromMarker(rendered + tail) == Some(Body(p))
  {
    MarkerGivesBody(x, p, rendered, tail);
    EmbeddedGivesBody(x, p, rendered, tail);
  }

  lemma MarkerGivesBody(x: Renderer, p: Payload, rendered: string, tail: string)
    requires WritesPrologue(x) && RenderOf(x, p) == Some(rendered)
    ensures FromMarker(rendered + tail) == Some(Body(p))
  {
    BodyShape(p);
    var rest := BeginsWithBody(x, p, rendered);
    Extended(HEADING + MARKER, Body(p), rest, tail);
    MarkerComesOut(Body(p), rest + tail);
  }

  lemma Extended(a: string, b: string, rest: string, tail: string)
    ensures (a + (b + ("\n" + rest))) + tail == a + (b + ("\n" + (rest + tail)))
  {
  }

  /** The parser gives the body's fields back. */
  ghost predicate LoadsBack(loads: Parser, p: Payload) {
    match loads(Body(p))
    case Some(Dict(o)) => DistinctKeys(o) && AsMap(o) == AsMap(FieldsOf(p))
    case _ => false
  }

  lemma FieldLookup(p: Payload, key: string)
    ensures Lookup(FieldsOf(p), "blinded_key") == Some(Text(p.blindedKey))
    ensures Lookup(FieldsOf(p), "config_digest") == Some(Text(p.configDigest))
    ensures Lookup(FieldsOf(p), "election_id") == Some(Text(p.electionId))
    ensures Lookup(FieldsOf(p), key).Some? ==> IsField(key)
  {
    FieldsDistinctKeys(p);
    LookupAt(FieldsOf(p), 0);
    LookupAt(FieldsOf(p), 1);
    LookupAt(FieldsOf(p), 2);
    LookupHolds(FieldsOf(p), key);
  }

  lemma {:induction false} LookupHolds(o: Object, key: string)
    ensures Lookup(o, key).Some? ==> exists i :: 0 <= i < |o| && o[i].key == key
  {
    if o != [] && o[0].key != key {
      LookupHolds(o[1..], key);
      if i :| 0 <= i < |o[1..]| && o[1..][i].key == key {
        assert o[i + 1].key == key;
      }
    }
  }

  lemma LoadedIsWellFormed(o: Object, p: Payload)
    requires DistinctKeys(o) && AsMap(o) == AsMap(FieldsOf(p)) && Decode(p.blindedKey).Some?
    ensures WellFormed(Dict(o)) == Some(p)
  {
    FieldsDistinctKeys(p);
    forall key: string ensures Lookup(o, key) == Lookup(FieldsOf(p), key) {
      LookupFromMap(o, key);
      LookupFromMap(FieldsOf(p), key);
    }
    FieldLookup(p, "");
    forall i | 0 <= i < |o| ensures IsField(o[i].key) {
      LookupAt(o, i);
      FieldLookup(p, o[i].key);
    }
  }

  /** Completeness: a rendered document is accepted for its own payload, whatever the wallet appended
      to it, when the signature covers what was rendered. */
  lemma RenderedIsAccepted(x: Renderer, loads: Parser, p: Payload, rendered: string, tail: string, covered: int)
    requires WritesAll(x) && LoadsBack(loads, p) && RenderOf(x, p) == Some(rendered)
    requires Genuine(p.blindedKey) && Clean(Body(p)) && !Occurs(Body(p), END_STREAM)
    ensures Check(x, loads, rendered + tail, covered)
         == if covered < |rendered| then Refused(SignatureDoesNotCoverIt) else Accepted(p, EmbeddedCopy)
  {
    CarriersAgree(x, p, rendered, tail);
    LoadedIsWellFormed(loads(Body(p)).value.members, p);
    AgreeingCarriers(x, loads, rendered + tail, covered, Body(p), loads(Body(p)).value, p, rendered);
  }

  lemma AgreeingCarriers(x: Renderer, loads: Parser, document: string, covered: int, body: string, json: Json,
                         p: Payload, rendered: string)
    requires FromEmbedded(document) == Some(body) && FromMarker(document) == Some(body)
    requires loads(body) == Some(json) && WellFormed(json) == Some(p)
    requires RenderOf(x, p) == Some(rendered) && rendered <= document
    ensures Check(x, loads, document, covered)
         == if covered < |rendered| then Refused(SignatureDoesNotCoverIt) else Accepted(p, EmbeddedCopy)
  {
  }
}
