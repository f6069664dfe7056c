/** The rendered document's cross-reference table (section 7.5.4 of ISO 32000-1): every entry leads
    to its object, and the last line but one to the table. */
module PdfStructures {
  import opened Base64
  import opened Canonical
  import opened Searches
  import opened PdfRequests

  // ---- ten digits ------------------------------------------------------------------------

  function Pow10(k: nat): nat {
    if k == 0 then 1 else 10 * Pow10(k - 1)
  }

  lemma {:induction false} DigitsAtMost(n: nat, k: nat)
    requires k > 0 && n < Pow10(k)
    ensures |Digits(n)| <= k
  {
    if n >= 10 {
      assert k > 1 by {
        assert Pow10(1) == 10 * Pow10(0);
      }
      DigitsAtMost(n / 10, k - 1);
    }
  }

  /** Below ten billion a padded number has ten digits and reads back. */
  lemma PaddedReadsBack(n: nat)
    requires n < Pow10(10)
    ensures |Padded10(n)| == 10 && AllDigits(Padded10(n)) && ReadDigits(Padded10(n)) == n
  {
    DigitsAtMost(n, 10);
    DigitsReadBack(n);
    PadReadsBack(Digits(n));
  }

  lemma PadReadsBack(d: string)
    requires AllDigits(d) && |d| <= 10
    ensures var padded := if |d| < 10 then Zeros(10 - |d|) + d else d;
            |padded| == 10 && AllDigits(padded) && ReadDigits(padded) == ReadDigits(d)
  {
    ReadZeros(10 - |d|, d);
  }

  // ---- where things are ----------------------------------------------------------------------

  lemma AtPart(s: string, pattern: string, part: string, i: nat, k: nat)
    requires At(s, pattern, i) && k + |part| <= |pattern| && pattern[k..k + |part|] == part
    ensures At(s, part, i + k)
  {
    var whole := s[i..i + |pattern|];
    forall j | 0 <= j < |part| ensures s[i + k + j] == part[j] {
      assert whole[k..k + |part|][j] == whole[k + j] == s[i + (k + j)];
    }
    assert s[i + k..i + k + |part|] == part;
  }

  /** Object k + 1 stands where the document had got to. */
  lemma {:induction false} ObjectStands(x: Renderer, prologue: string, objects: seq<string>, k: nat, m: nat)
    requires k < m <= |objects|
    ensures At(Written(x, prologue, objects, m), x.object'(k + 1, objects[k]), |Written(x, prologue, objects, k)|)
  {
    var before := Written(x, prologue, objects, m - 1);
    if k == m - 1 {
      AtRight(before, x.object'(m, objects[m - 1]), x.object'(k + 1, objects[k]), 0);
    } else {
      ObjectStands(x, prologue, objects, k, m - 1);
      AtLeft(before, x.object'(m, objects[m - 1]), x.object'(k + 1, objects[k]), |Written(x, prologue, objects, k)|);
    }
  }

  ghost predicate RowsAreEven(x: Renderer, prologue: string, objects: seq<string>) {
    forall j {:trigger Written(x, prologue, objects, j)} :: 0 <= j < |objects| ==>
      |x.row(|Written(x, prologue, objects, j)|)| == 20
  }

  lemma {:induction false} RowStands(x: Renderer, prologue: string, objects: seq<string>, k: nat, m: nat)
    requires m <= |objects| && RowsAreEven(x, prologue, objects)
    ensures |XrefRows(x, prologue, objects, m)| == 20 * m
    ensures k < m ==> At(XrefRows(x, prologue, objects, m), x.row(|Written(x, prologue, objects, k)|), 20 * k)
  {
    if m > 0 {
      RowStands(x, prologue, objects, k, m - 1);
      var before, row := XrefRows(x, prologue, objects, m - 1), x.row(|Written(x, prologue, objects, m - 1)|);
      if k == m - 1 {
        AtRight(before, row, row, 0);
      } else if k < m {
        AtLeft(before, row, x.row(|Written(x, prologue, objects, k)|), 20 * k);
      }
    }
  }

  lemma {:induction false} WrittenGrows(x: Renderer, prologue: string, objects: seq<string>, k: nat, m: nat)
    requires k <= m <= |objects|
    ensures |Written(x, prologue, objects, k)| <= |Written(x, prologue, objects, m)|
  {
    if k < m {
      WrittenGrows(x, prologue, objects, k, m - 1);
    }
  }

  /** The parts of the closing, one after the other. */
  lemma ClosingParts(head: string, rows: string, trailer: string, ending: string, pattern: string, i: nat)
    ensures At(rows, pattern, i) ==> At(head + (rows + (trailer + ending)), pattern, |head| + i)
    ensures At(head, pattern, i) ==> At(head + (rows + (trailer + ending)), pattern, i)
    ensures At(head + (rows + (trailer + ending)), ending, |head| + |rows| + |trailer|)
  {
    if At(rows, pattern, i) {
      AtLeft(rows, trailer + ending, pattern, i);
      AtRight(head, rows + (trailer + ending), pattern, i);
    }
    if At(head, pattern, i) {
      AtLeft(head, rows + (trailer + ending), pattern, i);
    }
    AtRight(trailer, ending, ending, 0);
    AtRight(rows, trailer + ending, ending, |trailer|);
    AtRight(head, rows + (trailer + ending), ending, |rows| + |trailer|);
  }

  lemma InClosing(written: string, head: string, rows: string, trailer: string, ending: string, row: string, i: nat)
    requires At(rows, row, i)
    ensures At(written + (head + (rows + (trailer + ending))), row, |written| + |head| + i)
  {
    ClosingParts(head, rows, trailer, ending, row, i);
    AtRight(written, head + (rows + (trailer + ending)), row, |head| + i);
  }

  /** Where an object stands in an assembled document. */
  lemma ObjectLeads(x: Renderer, prologue: string, objects: seq<string>, ident: string, k: nat)
    requires k < |objects|
    ensures At(Assembled(x, prologue, objects, ident), x.object'(k + 1, objects[k]), |Written(x, prologue, objects, k)|)
  {
    ObjectStands(x, prologue, objects, k, |objects|);
    AtLeft(Written(x, prologue, objects, |objects|), Closing(x, prologue, objects, ident),
           x.object'(k + 1, objects[k]), |Written(x, prologue, objects, k)|);
  }

  /** Where an entry stands in an assembled document. */
  lemma EntryLeads(x: Renderer, prologue: string, objects: seq<string>, ident: string, k: nat)
    requires k < |objects| && RowsAreEven(x, prologue, objects)
    ensures At(Assembled(x, prologue, objects, ident), x.row(|Written(x, prologue, objects, k)|),
               |Written(x, prologue, objects, |objects|)| + |x.head(|objects| + 1)| + 20 * k)
  {
    var n := |objects|;
    var written := Written(x, prologue, objects, n);
    RowStands(x, prologue, objects, k, n);
    InClosing(written, x.head(n + 1), XrefRows(x, prologue, objects, n), x.trailer(n + 1, ident), x.ending(|written|),
              x.row(|Written(x, prologue, objects, k)|), 20 * k);
  }

  lemma TableParts(written: string, head: string, rows: string, trailer: string, ending: string)
    ensures At(written + (head + (rows + (trailer + ending))), head, |written|)
    ensures At(written + (head + (rows + (trailer + ending))), ending, |written| + |head| + |rows| + |trailer|)
  {
    ClosingParts(head, rows, trailer, ending, head, 0);
    AtRight(written, head + (rows + (trailer + ending)), head, 0);
    AtRight(written, head + (rows + (trailer + ending)), ending, |head| + |rows| + |trailer|);
  }

  /** The table starts where the text before it ends, and the document ends saying so. */
  lemma TableStands(x: Renderer, prologue: string, objects: seq<string>, ident: string)
    ensures var n := |objects|;
            var document := Assembled(x, prologue, objects, ident);
            var table := |Written(x, prologue, objects, n)|;
            && At(document, x.head(n + 1), table)
            && |document| >= |x.ending(table)|
            && At(document, x.ending(table), |document| - |x.ending(table)|)
  {
    var n := |objects|;
    var written := Written(x, prologue, objects, n);
    TableParts(written, x.head(n + 1), XrefRows(x, prologue, objects, n), x.trailer(n + 1, ident), x.ending(|written|));
  }

  // ---- the theorem ---------------------------------------------------------------------------

  lemma RowShape(offset: nat)
    requires offset < Pow10(10)
    ensures |XrefRow(offset)| == 20 && XrefRow(offset)[..10] == Padded10(offset)
  {
    PaddedReadsBack(offset);
  }

  lemma RowsComeOutEven(x: Renderer, prologue: string, objects: seq<string>, ident: string)
    requires WritesTable(x) && |Assembled(x, prologue, objects, ident)| <= Pow10(10)
    ensures RowsAreEven(x, prologue, objects)
    ensures forall j {:trigger Written(x, prologue, objects, j)} :: 0 <= j < |objects| ==>
              |Written(x, prologue, objects, j)| < Pow10(10)
  {
    ClosingIsNotEmpty(x, prologue, objects, ident);
    forall j | 0 <= j < |objects|
      ensures |Written(x, prologue, objects, j)| < Pow10(10)
      ensures |x.row(|Written(x, prologue, objects, j)|)| == 20
    {
      WrittenGrows(x, prologue, objects, j, |objects|);
      RowShape(|Written(x, prologue, objects, j)|);
    }
  }

  lemma ClosingIsNotEmpty(x: Renderer, prologue: string, objects: seq<string>, ident: string)
    requires WritesTable(x)
    ensures |Assembled(x, prologue, objects, ident)| > |Written(x, prologue, objects, |objects|)|
  {
    HeadOpens(|objects| + 1);
    assert x.head(|objects| + 1) == XrefHead(|objects| + 1);
  }

  /** What the xref entry of object number k + 1 says, given where the table starts. */
  function EntryAt(document: string, table: nat, count: nat, k: nat): string {
    Slice(document, table + |XrefHead(count)| + 20 * k, table + |XrefHead(count)| + 20 * k + 10)
  }

  /** Entry k of the table is ten digits that read as the position where object k + 1 starts. */
  ghost predicate EntryIsRight(document: string, table: nat, count: nat, k: nat) {
    var entry := EntryAt(document, table, count, k);
    |entry| == 10 && AllDigits(entry) && At(document, Digits(k + 1) + " 0 obj\n", ReadDigits(entry))
  }

  /** The table starts here, and the document ends with `startxref` and this position. */
  ghost predicate TableIsNamed(document: string, table: nat) {
    && At(document, "xref\n", table)
    && At(document, Ending(table), |document| - |Ending(table)|)
    && AllDigits(Digits(table)) && ReadDigits(Digits(table)) == table
  }

  lemma SliceIsPart(s: string, pattern: string, i: nat, k: nat)
    requires At(s, pattern, i) && k <= |pattern|
    ensures Slice(s, i, i + k) == pattern[..k]
  {
    assert s[i..i + |pattern|][..k] == s[i..i + k];
  }

  lemma ObjectOpens(k: nat, content: string)
    ensures ObjectText(k, content)[..|Digits(k) + " 0 obj\n"|] == Digits(k) + " 0 obj\n"
  {
  }

  lemma HeadOpens(count: nat)
    ensures |XrefHead(count)| >= 5 && XrefHead(count)[..5] == "xref\n"
  {
  }

  /** A row at its place, read: ten digits leading to the object written there. */
  lemma EntryReads(document: string, table: nat, count: nat, k: nat, offset: nat, content: string)
    requires offset < Pow10(10)
    requires At(document, ObjectText(k + 1, content), offset)
    requires At(document, XrefRow(offset), table + |XrefHead(count)| + 20 * k)
    ensures EntryIsRight(document, table, count, k)
  {
    RowShape(offset);
    PaddedReadsBack(offset);
    SliceIsPart(document, XrefRow(offset), table + |XrefHead(count)| + 20 * k, 10);
    ObjectOpens(k + 1, content);
    AtPart(document, ObjectText(k + 1, content), Digits(k + 1) + " 0 obj\n", offset, 0);
  }

  /** In a document of at most 10^10 bytes, every cross-reference entry is ten digits that read as the
      position where its object starts. */
  lemma EntriesAreCorrect(x: Renderer, prologue: string, objects: seq<string>, ident: string, k: nat)
    requires WritesTable(x) && k < |objects| && |Assembled(x, prologue, objects, ident)| <= Pow10(10)
    ensures EntryIsRight(Assembled(x, prologue, objects, ident), |Written(x, prologue, objects, |objects|)|,
                         |objects| + 1, k)
  {
    var document := Assembled(x, prologue, objects, ident);
    var table, offset := |Written(x, prologue, objects, |objects|)|, |Written(x, prologue, objects, k)|;
    RowsComeOutEven(x, prologue, objects, ident);
    ObjectLeads(x, prologue, objects, ident, k);
    EntryLeads(x, prologue, objects, ident, k);
    assert x.object'(k + 1, objects[k]) == ObjectText(k + 1, objects[k]) && x.row(offset) == XrefRow(offset);
    assert x.head(|objects| + 1) == XrefHead(|objects| + 1);
    EntryReads(document, table, |objects| + 1, k, offset, objects[k]);
  }

  /** The last line but one names the position of the table. */
  lemma StartXrefIsCorrect(x: Renderer, prologue: string, objects: seq<string>, ident: string)
    requires WritesTable(x)
    ensures TableIsNamed(Assembled(x, prologue, objects, ident), |Written(x, prologue, objects, |objects|)|)
  {
    var document := Assembled(x, prologue, objects, ident);
    var table := |Written(x, prologue, objects, |objects|)|;
    TableStands(x, prologue, objects, ident);
    HeadOpens(|objects| + 1);
    assert x.head(|objects| + 1) == XrefHead(|objects| + 1) && x.ending(table) == Ending(table);
    AtPart(document, XrefHead(|objects| + 1), "xref\n", table, 0);
    DigitsReadBack(table);
  }

  /** So it is of every document `render` writes. */
  lemma RenderedStructure(x: Renderer, p: Payload, document: string) returns (table: nat)
    requires WritesTable(x) && RenderOf(x, p) == Some(document) && |document| <= Pow10(10)
    ensures forall k :: 0 <= k < 10 ==> EntryIsRight(document, table, 11, k)
    ensures TableIsNamed(document, table)
  {
    var lines, body := PageLines(x, p), Body(p);
    table := AssembledStructure(x, x.prologue(body), x.objects(Blocks(x.block, lines, |lines|), body),
                                Identifier(x.h, body), 11);
  }

  lemma AssembledStructure(x: Renderer, prologue: string, objects: seq<string>, ident: string, count: nat)
    returns (table: nat)
    requires WritesTable(x) && count == |objects| + 1 && |Assembled(x, prologue, objects, ident)| <= Pow10(10)
    ensures forall k :: 0 <= k < |objects| ==> EntryIsRight(Assembled(x, prologue, objects, ident), table, count, k)
    ensures TableIsNamed(Assembled(x, prologue, objects, ident), table)
  {
    table := |Written(x, prologue, objects, |objects|)|;
    forall k | 0 <= k < |objects|
      ensures EntryIsRight(Assembled(x, prologue, objects, ident), table, count, k)
    {
      EntriesAreCorrect(x, prologue, objects, ident, k);
    }
    StartXrefIsCorrect(x, prologue, objects, ident);
  }
}
