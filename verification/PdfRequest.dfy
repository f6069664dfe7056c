/** The token request as a document: how it is written, and the rule by which the office reads it,
    which is to write it again. Bytes are characters of the same code. */
module PdfRequests {
  import opened Base64
  import opened Canonical
  import opened Ledgers
  import opened Statements
  import opened Searches

  // ---- the payload ---------------------------------------------------------------------

  datatype Payload = Payload(blindedKey: string, configDigest: string, electionId: string)

  /** What JSON text parses to, as far as this module looks at it. */
  datatype Json = Dict(members: Object) | OtherJson

  /** `json.loads`; None where it raises. */
  type Parser = string -> Option<Json>

  function FieldsOf(p: Payload): Object {
    [Member("blinded_key", Text(p.blindedKey)), Member("config_digest", Text(p.configDigest)),
     Member("election_id", Text(p.electionId))]
  }

  function Body(p: Payload): string { CanonicalBytes(FieldsOf(p)) }

  function TextAt(o: Object, key: string): Option<string> {
    match Lookup(o, key)
    case Some(Text(t)) => Some(t)
    case _ => None
  }

  predicate IsField(key: string) {
    key == "blinded_key" || key == "config_digest" || key == "election_id"
  }

  /** `_well_formed`, with what it establishes. */
  function WellFormed(candidate: Json): Option<Payload> {
    match candidate
    case OtherJson => None
    case Dict(o) =>
      if exists i :: 0 <= i < |o| && !IsField(o[i].key) then None
      else
        match (TextAt(o, "blinded_key"), TextAt(o, "config_digest"), TextAt(o, "election_id"))
        case (Some(b), Some(c), Some(e)) => if Decode(b).Some? then Some(Payload(b, c, e)) else None
        case _ => None
  }

  // ---- literal strings -----------------------------------------------------------------

  predicate IsAscii(s: string) {
    forall c :: c in s ==> c as int < 128
  }

  function Replacing(c: char, t: string): char -> string {
    x => if x == c then t else [x]
  }

  /** `s.replace(c, t)`. */
  function Replace(s: string, c: char, t: string): string { Rewrite(Replacing(c, t), s) }

  /** `_pdf_text`, for ASCII text. */
  function PdfText(text: string): string {
    "(" + (Replace(Replace(Replace(text, '\\', "\\\\"), '(', "\\("), ')', "\\)") + ")")
  }

  function PdfEscape(c: char): string {
    if c == '\\' then "\\\\" else if c == '(' then "\\(" else if c == ')' then "\\)" else [c]
  }

  /** What a reader makes of the inside of a literal string (section 7.3.4.2 of ISO 32000-1): an
      escaped character stands for itself or for the control character it names, and an end-of-line
      marker for a line feed. Octal escapes are never written here. */
  function ReadLiteral(s: string): string {
    if s == "" then ""
    else if s[0] == '\\' && |s| > 1 then
      (match s[1]
       case 'n' => "\n"
       case 'r' => "\r"
       case 't' => "\t"
       case 'b' => [8 as char]
       case 'f' => [12 as char]
       case c => [c]) + ReadLiteral(s[2..])
    else if s[0] == '\r' then "\n" + ReadLiteral(if |s| > 1 && s[1] == '\n' then s[2..] else s[1..])
    else [s[0]] + ReadLiteral(s[1..])
  }

  lemma RewriteCons(f: char -> string, c: char, s: string)
    ensures Rewrite(f, [c] + s) == f(c) + Rewrite(f, s)
  {
    assert ([c] + s)[1..] == s;
  }

  /** Three replacements, one after the other, are one pass: none of them touches what an earlier
      one wrote. */
  lemma {:induction false} ThreeReplacesAreOnePass(text: string)
    ensures Replace(Replace(Replace(text, '\\', "\\\\"), '(', "\\("), ')', "\\)") == Rewrite(PdfEscape, text)
  {
    if text != "" {
      var f, g, k := Replacing('\\', "\\\\"), Replacing('(', "\\("), Replacing(')', "\\)");
      var c, rest := text[0], text[1..];
      ThreeReplacesAreOnePass(rest);
      var inner := Rewrite(f, rest);
      RewriteJoin(g, f(c), inner);
      RewriteJoin(k, Rewrite(g, f(c)), Rewrite(g, inner));
      OneCharacter(c);
    }
  }

  lemma OneCharacter(c: char)
    ensures Rewrite(Replacing(')', "\\)"), Rewrite(Replacing('(', "\\("), Replacing('\\', "\\\\")(c))) == PdfEscape(c)
  {
    var g, k := Replacing('(', "\\("), Replacing(')', "\\)");
    var first := Replacing('\\', "\\\\")(c);
    if c == '\\' {
      PlainStays(g, first);
      PlainStays(k, first);
    } else if c == '(' {
      RewriteCons(g, c, "");
      assert [c] + "" == first && Rewrite(g, "") == "" && g(c) + "" == "\\(";
      PlainStays(k, "\\(");
    } else {
      PlainStays(g, first);
      RewriteCons(k, c, "");
      assert [c] + "" == first && Rewrite(k, "") == "" && k(c) + "" == k(c);
    }
  }

  lemma ReadEscaped(c: char, rest: string)
    requires c != '\r'
    ensures ReadLiteral(PdfEscape(c) + rest) == [c] + ReadLiteral(rest)
  {
    var s := PdfEscape(c) + rest;
    if c == '\\' || c == '(' || c == ')' {
      assert s[2..] == rest && s[1] == c;
    } else {
      assert s[1..] == rest;
    }
  }

  lemma {:induction false} ReadsBack(text: string)
    requires '\r' !in text
    ensures ReadLiteral(Rewrite(PdfEscape, text)) == text
  {
    if text != "" {
      assert forall c :: c in text[1..] ==> c in text;
      ReadsBack(text[1..]);
      ReadEscaped(text[0], Rewrite(PdfEscape, text[1..]));
      assert text == [text[0]] + text[1..];
    }
  }

  lemma ReadReturn(text: string)
    requires text != "" && text[0] == '\r'
    ensures ReadLiteral(Rewrite(PdfEscape, text))
         == "\n" + ReadLiteral(Rewrite(PdfEscape, if |text| > 1 && text[1] == '\n' then text[2..] else text[1..]))
  {
    var rest := Rewrite(PdfEscape, text[1..]);
    assert Rewrite(PdfEscape, text) == "\r" + rest;
    assert ("\r" + rest)[1..] == rest;
    if |text| > 1 {
      assert rest == PdfEscape(text[1]) + Rewrite(PdfEscape, text[1..][1..]);
      assert text[1..][1..] == text[2..];
      if text[1] == '\n' {
        assert ("\r" + rest)[2..] == Rewrite(PdfEscape, text[2..]);
      }
    }
  }

  lemma {:induction false} ReadsNoReturn(text: string)
    ensures '\r' !in ReadLiteral(Rewrite(PdfEscape, text))
    decreases |text|
  {
    if text != "" {
      if text[0] == '\r' {
        ReadReturn(text);
        ReadsNoReturn(if |text| > 1 && text[1] == '\n' then text[2..] else text[1..]);
      } else {
        ReadsNoReturn(text[1..]);
        ReadEscaped(text[0], Rewrite(PdfEscape, text[1..]));
      }
    }
  }

  /** What is written in a literal string is read back as it was, unless it holds a carriage return,
      which a reader takes for an end-of-line marker and `_pdf_text` does not escape. */
  lemma LiteralReadsBack(text: string)
    ensures ReadLiteral(Replace(Replace(Replace(text, '\\', "\\\\"), '(', "\\("), ')', "\\)")) == text
       <==> '\r' !in text
  {
    ThreeReplacesAreOnePass(text);
    ReadsNoReturn(text);
    if '\r' !in text {
      ReadsBack(text);
    }
  }

  // ---- what the page says ----------------------------------------------------------------

  /** Positions are whole points. */
  datatype Line = Line(font: string, size: nat, x: int, y: int, text: string)

  const MARGIN := 56

  function Slice(s: string, i: nat, j: nat): string {
    var b := if j < |s| then j else |s|;
    if i < b then s[i..b] else ""
  }

  function Hex(s: Bytes): string {
    if s == "" then "" else [HexDigit(s[0] as int / 16), HexDigit(s[0] as int % 16)] + Hex(s[1..])
  }

  /** `fingerprint`: four groups of four digits. */
  function Fingerprint(h: HashFunction, key: Bytes): string {
    var short := Slice(Hex(h(key)), 0, 16);
    Slice(short, 0, 4) + ("-" + (Slice(short, 4, 8) + ("-" + (Slice(short, 8, 12) + ("-" + Slice(short, 12, 16))))))
  }

  function FingerprintText(h: HashFunction, blindedKey: string): string {
    match Decode(blindedKey)
    case Some(key) => Fingerprint(h, key)
    case None => ""
  }

  const SUBTITLE := "Anonymous Authenticated Ballot " + "System. This is not a ballot."

  const TITLE := [
    Line("F3", 16, MARGIN, 770, "TOKEN REQUEST"),
    Line("F1", 9, MARGIN, 750, SUBTITLE)]

  function FieldLines(h: HashFunction, p: Payload): seq<Line> {
    [Line("F2", 9, MARGIN, 720, "election            " + p.electionId),
     Line("F2", 9, MARGIN, 707, "configuration       " + p.configDigest),
     Line("F2", 9, MARGIN, 694, "fingerprint of c    " + FingerprintText(h, p.blindedKey))]
  }

  const REQUESTING := "By signing this document I " + "request one ballot token for " + "the election named"
  const CONCEALED := "above. The document does not " + "record, and cannot record, " + "how I will vote: the"
  const CARRIED := "value below conceals the key " + "that will carry my ballot, " + "and the office that"
  const COMPARED := "signs the token never sees " + "that key. The fingerprint " + "above is of that value,"
  const SHOWN := "and should match the one " + "shown by the application that " + "produced this file."
  const CAPTION := "c - the blinded ad-hoc public " + "key, base64url, 64 characters " + "to the line:"

  const PROSE := [
    Line("F1", 9, MARGIN, 665, REQUESTING),
    Line("F1", 9, MARGIN, 653, CONCEALED),
    Line("F1", 9, MARGIN, 641, CARRIED),
    Line("F1", 9, MARGIN, 629, COMPARED),
    Line("F1", 9, MARGIN, 617, SHOWN),
    Line("F1", 9, MARGIN, 589, CAPTION)]

  /** The lines above the key. */
  function TopLines(h: HashFunction, p: Payload): seq<Line> { TITLE + (FieldLines(h, p) + PROSE) }

  const KEY_TOP := 573

  /** The first k lines of the key. */
  function KeyLines(key: string, k: nat): (lines: seq<Line>)
    ensures |lines| == k
  {
    if k == 0 then []
    else KeyLines(key, k - 1) + [Line("F2", 8, MARGIN, KEY_TOP - 10 * (k - 1), Slice(key, 64 * (k - 1), 64 * k))]
  }

  function KeyLineCount(key: string): nat { (|key| + 63) / 64 }

  const CARRIERS := "The same three values are " + "carried in an embedded file " + "and in a marker"
  const REBUILT := "comment. The office rebuilds " + "this document from them and " + "refuses the"
  const REFUSED := "file if what it rebuilds is " + "not what it was given."

  /** The lines below it. */
  function BottomLines(y: int): seq<Line> {
    [Line("F1", 8, MARGIN, y - 18, CARRIERS),
     Line("F1", 8, MARGIN, y - 28, REBUILT),
     Line("F1", 8, MARGIN, y - 38, REFUSED)]
  }

  /** The key's lines between the others. */
  function WithKey(top: seq<Line>, key: string): seq<Line> {
    var k := KeyLineCount(key);
    top + (KeyLines(key, k) + BottomLines(KEY_TOP - 10 * k))
  }

  /** `_lines`, from the key on. */
  method AddKey(top: seq<Line>, key: string) returns (lines: seq<Line>)
    ensures lines == WithKey(top, key)
  {
    lines := top;
    var y := KEY_TOP;
    var i := 0;
    ghost var k := 0;
    while i < |key|
      invariant i == 64 * k && k <= KeyLineCount(key)
      invariant y == KEY_TOP - 10 * k
      invariant lines == top + KeyLines(key, k)
    {
      lines := lines + [Line("F2", 8, MARGIN, y, Slice(key, i, i + 64))];
      y := y - 10;
      i := i + 64;
      k := k + 1;
    }
    lines := lines + BottomLines(y);
  }

  function Texts(lines: seq<Line>): string {
    if lines == [] then "" else Texts(lines[..|lines| - 1]) + lines[|lines| - 1].text
  }

  lemma {:induction false} KeyLinesConcatenate(key: string, k: nat)
    requires k <= KeyLineCount(key)
    ensures Texts(KeyLines(key, k)) == Slice(key, 0, 64 * k)
  {
    if k > 0 {
      KeyLinesConcatenate(key, k - 1);
      assert KeyLines(key, k)[..k - 1] == KeyLines(key, k - 1);
      assert 64 * (k - 1) < |key|;
      assert Slice(key, 0, 64 * k) == Slice(key, 0, 64 * (k - 1)) + Slice(key, 64 * (k - 1), 64 * k);
    }
  }

  /** The lines of the key, put together, are the whole key; each has 64 characters but the last. */
  lemma WholeKeyOnThePage(key: string)
    ensures var lines := KeyLines(key, KeyLineCount(key));
            && Texts(lines) == key
            && forall i :: 0 <= i < |lines| ==> 0 < |lines[i].text| <= 64 && (i < |lines| - 1 ==> |lines[i].text| == 64)
  {
    KeyLinesConcatenate(key, KeyLineCount(key));
    forall i | 0 <= i < KeyLineCount(key)
      ensures KeyLines(key, KeyLineCount(key))[i].text == Slice(key, 64 * i, 64 * (i + 1))
    {
      KeyLineAt(key, KeyLineCount(key), i);
    }
  }

  lemma {:induction false} KeyLineAt(key: string, k: nat, i: nat)
    requires i < k
    ensures KeyLines(key, k)[i] == Line("F2", 8, MARGIN, KEY_TOP - 10 * i, Slice(key, 64 * i, 64 * (i + 1)))
  {
    if i < k - 1 {
      KeyLineAt(key, k - 1, i);
    }
  }

  // ---- the page's content ------------------------------------------------------------------

  /** One block for one line, its position written down. */
  function LineBlock(l: Line): string {
    "BT /" + (l.font + (" " + (Digits(l.size) + (" Tf " + (Decimal(l.x) + (" " + (Decimal(l.y)
    + (" Td " + (PdfText(l.text) + " Tj ET\n")))))))))
  }

  function Blocks(block: Line -> string, lines: seq<Line>, k: nat): string
    requires k <= |lines|
  {
    if k == 0 then "" else Blocks(block, lines, k - 1) + block(lines[k - 1])
  }

  predicate AllAscii(lines: seq<Line>) {
    forall i :: 0 <= i < |lines| ==> IsAscii(lines[i].text)
  }

  /** `_content`; None where it raises on text that is not ASCII. */
  method Content(block: Line -> string, lines: seq<Line>) returns (content: Option<string>)
    ensures content == if AllAscii(lines) then Some(Blocks(block, lines, |lines|)) else None
  {
    var out := "";
    for i := 0 to |lines|
      invariant forall j :: 0 <= j < i ==> IsAscii(lines[j].text)
      invariant out == Blocks(block, lines, i)
    {
      if !IsAscii(lines[i].text) {
        return None;
      }
      out := out + block(lines[i]);
    }
    return Some(out);
  }

  // ---- the document ------------------------------------------------------------------------

  const MARKER := "%OVPOC-REQUEST "
  const EMBEDDED := "/Type /EmbeddedFile"
  const STREAM := "stream\n"
  const END_STREAM := "endstream"

  /** The version and the binary comment. */
  const HEADING := "%PDF-1.7\n%\U{e2}\U{e3}\U{cf}\U{d3}\n"

  function Prologue(body: string): string { HEADING + (MARKER + (body + "\n")) }

  function Identifier(h: HashFunction, body: string): string { Upper(Slice(Hex(h(body)), 0, 32)) }

  function UpperChar(c: char): string { if 'a' <= c <= 'z' then [c - 'a' + 'A'] else [c] }

  function Upper(s: string): string { Rewrite(UpperChar, s) }

  /** The catalogue, around the name tree's only key. */
  const CATALOGUE_HEAD := "<< /Type /Catalog /Pages 2 0 R " + "/AF [ 8 0 R ] /Names <"
  const NAME_TREE := "< /EmbeddedFiles <"
  const CATALOGUE_TAIL := "< /Names [ (ovpoc-request.json) " + "8 0 R ] >> >> >>"
  const CATALOGUE := CATALOGUE_HEAD + (NAME_TREE + CATALOGUE_TAIL)

  const PAGES := "<< /Type /Pages /Kids " + "[ 3 0 R ] /Count 1 >>"

  const PAGE_SIZE := "<< /Type /Page /Parent 2 0 R " + "/MediaBox [ 0 0 595 842 ]"
  const PAGE_FONTS := " /Resources << /Font << " + "/F1 4 0 R /F2 5 0 R /F3 6 0 R >> >> " + "/Contents 7 0 R >>"
  const PAGE := PAGE_SIZE + PAGE_FONTS

  const FONT_HEAD := "<< /Type /Font /Subtype " + "/Type1 /BaseFont /"
  const FONT_TAIL := " /Encoding /WinAnsiEncoding >>"
  const HELVETICA := FONT_HEAD + ("Helvetica" + FONT_TAIL)
  const COURIER := FONT_HEAD + ("Courier" + FONT_TAIL)
  const HELVETICA_BOLD := FONT_HEAD + ("Helvetica-Bold" + FONT_TAIL)

  function PageStream(content: string): string {
    "<< /Length " + (Digits(|content|) + (" >>\nstream\n" + (content + "\nendstream")))
  }

  const FILE_NAMES :=
    "<< /Type /Filespec " + "/F (ovpoc-request.json) " + "/UF (ovpoc-request.json) " + "/AFRelationship /Source"
  const FILE_DESCRIPTION := " /Desc (The three values this " + "document states, as canonical " + "JSON.)"
  const FILE_CONTENTS := " /EF << /F 9 0 R >> >>"
  const FILE_SPECIFICATION := FILE_NAMES + (FILE_DESCRIPTION + FILE_CONTENTS)

  /** The head of the embedded copy, up to its stream. */
  function EmbeddedHead(length: nat): string {
    EMBEDDED
    + (" /Subtype /application#2Fjson /Length "
       + (Digits(length) + (" /Params << /Size " + (Digits(length) + " >> >>"))))
  }

  function EmbeddedFile(body: string): string {
    "<<" + (" " + (EmbeddedHead(|body|) + ("\n" + (STREAM + (body + ("\n" + END_STREAM))))))
  }

  const INFORMATION :=
    "<< /Title (Token request) /Subject (Anonymous Authenticated Ballot System)"
    + " /Producer (ovpoc) /Creator (ovpoc)"
    + " /CreationDate (D:20260101000000Z) /ModDate (D:20260101000000Z) >>"

  function Objects(content: string, body: string): (objects: seq<string>)
    ensures |objects| == 10
  {
    [CATALOGUE, PAGES, PAGE, HELVETICA, COURIER, HELVETICA_BOLD, PageStream(content), FILE_SPECIFICATION,
     EmbeddedFile(body), INFORMATION]
  }

  function ObjectText(number: nat, content: string): string {
    Digits(number) + (" 0 obj\n" + (content + "\nendobj\n"))
  }

  /** `{n:010d}`. */
  function Padded10(n: nat): string {
    if |Digits(n)| < 10 then Zeros(10 - |Digits(n)|) + Digits(n) else Digits(n)
  }

  function XrefRow(offset: nat): string { Padded10(offset) + " 00000 n \n" }

  function XrefHead(count: nat): string { "xref\n0 " + (Digits(count) + "\n0000000000 65535 f \n") }

  function Trailer(count: nat, ident: string): string {
    "trailer\n<< /Size "
    + (Digits(count) + (" /Root 1 0 R /Info 10 0 R /ID [ <" + (ident + ("> <" + (ident + "> ] >>\n")))))
  }

  function Ending(startxref: nat): string { "startxref\n" + (Digits(startxref) + "\n%%EOF\n") }

  /** How a document is written, part by part. */
  datatype Renderer = Renderer(
    h: HashFunction,
    top: Payload -> seq<Line>,
    block: Line -> string,
    prologue: string -> string,
    objects: (string, string) -> seq<string>,
    object': (nat, string) -> string,
    row: nat -> string,
    head: nat -> string,
    trailer: (nat, string) -> string,
    ending: nat -> string)

  function MakeRenderer(h: HashFunction): Renderer {
    Renderer(h, p => TopLines(h, p), LineBlock, Prologue, Objects, ObjectText, XrefRow, XrefHead, Trailer, Ending)
  }

  ghost predicate WritesPage(x: Renderer) {
    && (forall p: Payload {:trigger x.top(p)} :: x.top(p) == TopLines(x.h, p))
    && (forall l: Line {:trigger x.block(l)} :: x.block(l) == LineBlock(l))
  }

  ghost predicate WritesObjects(x: Renderer) {
    && (forall c: string, b: string {:trigger x.objects(c, b)} :: x.objects(c, b) == Objects(c, b))
    && (forall k: nat, c: string {:trigger x.object'(k, c)} :: x.object'(k, c) == ObjectText(k, c))
  }

  ghost predicate WritesPrologue(x: Renderer) {
    forall b: string {:trigger x.prologue(b)} :: x.prologue(b) == Prologue(b)
  }

  ghost predicate WritesTable(x: Renderer) {
    && (forall c: string, b: string {:trigger x.objects(c, b)} :: |x.objects(c, b)| == 10)
    && (forall k: nat, c: string {:trigger x.object'(k, c)} :: x.object'(k, c) == ObjectText(k, c))
    && (forall n: nat {:trigger x.row(n)} :: x.row(n) == XrefRow(n))
    && (forall n: nat {:trigger x.head(n)} :: x.head(n) == XrefHead(n))
    && (forall n: nat {:trigger x.ending(n)} :: x.ending(n) == Ending(n))
  }

  lemma MakerWrites(h: HashFunction)
    ensures WritesObjects(MakeRenderer(h)) && WritesPrologue(MakeRenderer(h))
  {
  }

  lemma MakerTabulates(h: HashFunction)
    ensures WritesTable(MakeRenderer(h))
  {
  }

  lemma MakerPages(h: HashFunction)
    ensures WritesPage(MakeRenderer(h))
  {
  }

  /** What the theorems ask of a renderer holds of the one the source is. */
  lemma MadeRendererIsSound(h: HashFunction)
    ensures var x := MakeRenderer(h);
            x.h == h && WritesPage(x) && WritesPrologue(x) && WritesObjects(x) && WritesTable(x)
  {
    MakerWrites(h);
    MakerTabulates(h);
    MakerPages(h);
  }

  /** The document as far as its k-th object. */
  function Written(x: Renderer, prologue: string, objects: seq<string>, k: nat): string
    requires k <= |objects|
  {
    if k == 0 then prologue else Written(x, prologue, objects, k - 1) + x.object'(k, objects[k - 1])
  }

  function XrefRows(x: Renderer, prologue: string, objects: seq<string>, k: nat): string
    requires k <= |objects|
  {
    if k == 0 then ""
    else XrefRows(x, prologue, objects, k - 1) + x.row(|Written(x, prologue, objects, k - 1)|)
  }

  /** The table and what follows it. */
  function Closing(x: Renderer, prologue: string, objects: seq<string>, ident: string): string {
    var n := |objects|;
    x.head(n + 1)
    + (XrefRows(x, prologue, objects, n) + (x.trailer(n + 1, ident) + x.ending(|Written(x, prologue, objects, n)|)))
  }

  function Assembled(x: Renderer, prologue: string, objects: seq<string>, ident: string): string {
    Written(x, prologue, objects, |objects|) + Closing(x, prologue, objects, ident)
  }

  /** The document of a payload whose page has these lines. */
  function Document(x: Renderer, lines: seq<Line>, body: string): string {
    Assembled(x, x.prologue(body), x.objects(Blocks(x.block, lines, |lines|), body), Identifier(x.h, body))
  }

  function PageLines(x: Renderer, p: Payload): seq<Line> { WithKey(x.top(p), p.blindedKey) }

  /** `render`; None where it raises: a key that does not decode, or text that is not ASCII. */
  function RenderOf(x: Renderer, p: Payload): Option<string> {
    if Decode(p.blindedKey).None? || !AllAscii(PageLines(x, p)) then None
    else Some(Document(x, PageLines(x, p), Body(p)))
  }

  /** The loops of `render`: the objects with their offsets, then the table. */
  method Assemble(x: Renderer, prologue: string, objects: seq<string>, ident: string) returns (document: string)
    ensures document == Assembled(x, prologue, objects, ident)
  {
    var out, offsets := WriteObjects(x, prologue, objects);
    var startxref := |out|;
    var rows := TableRows(x, prologue, objects, offsets);
    document := out + (x.head(|objects| + 1) + (rows + (x.trailer(|objects| + 1, ident) + x.ending(startxref))));
  }

  method WriteObjects(x: Renderer, prologue: string, objects: seq<string>) returns (out: string, offsets: seq<nat>)
    ensures out == Written(x, prologue, objects, |objects|)
    ensures |offsets| == |objects|
    ensures forall j :: 0 <= j < |objects| ==> offsets[j] == |Written(x, prologue, objects, j)|
  {
    out, offsets := prologue, [];
    for i := 0 to |objects|
      invariant out == Written(x, prologue, objects, i)
      invariant |offsets| == i
      invariant forall j {:trigger offsets[j]} :: 0 <= j < i ==> offsets[j] == |Written(x, prologue, objects, j)|
    {
      offsets := offsets + [|out|];
      out := out + x.object'(i + 1, objects[i]);
    }
  }

  method TableRows(x: Renderer, ghost prologue: string, ghost objects: seq<string>, offsets: seq<nat>)
    returns (rows: string)
    requires |offsets| == |objects|
    requires forall j :: 0 <= j < |objects| ==> offsets[j] == |Written(x, prologue, objects, j)|
    ensures rows == XrefRows(x, prologue, objects, |objects|)
  {
    rows := "";
    for i := 0 to |offsets|
      invariant rows == XrefRows(x, prologue, objects, i)
    {
      rows := rows + x.row(offsets[i]);
    }
  }

  /** `render`. */
  method Render(x: Renderer, p: Payload) returns (document: Option<string>)
    ensures document == RenderOf(x, p)
  {
    if Decode(p.blindedKey).None? {
      return None;
    }
    var lines := AddKey(x.top(p), p.blindedKey);
    document := WriteLines(x, p, lines);
  }

  method WriteLines(x: Renderer, p: Payload, lines: seq<Line>) returns (document: Option<string>)
    ensures document == if AllAscii(lines) then Some(Document(x, lines, Body(p))) else None
  {
    var content := Content(x.block, lines);
    if content.None? {
      return None;
    }
    var body := Body(p);
    var out := Assemble(x, x.prologue(body), x.objects(content.value, body), Identifier(x.h, body));
    return Some(out);
  }
}
