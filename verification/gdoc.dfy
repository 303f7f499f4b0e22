/**
 * The document logic of the command-line reader gdoc.py: flattening the
 * structural elements of a Google Docs body to plain text, and looking a
 * document up by name in a listing.  save_gdoc.py carries identical copies of
 * both functions; they are modelled once, here.
 */
module Gdoc {
  import opened Wrappers
  import opened Strings

  // ---------------------------------------------------------------------------
  // The Docs API element tree.  A key that may be missing from a JSON object is
  // an Option (or, for a list whose elements contain structural elements, one of
  // the *Key datatypes below, so that Dafny can see the nesting is well founded).
  // Keys the source reads with `[...]` and no check are plain fields.
  // ---------------------------------------------------------------------------

  /** A `textRun` object: only its `content` string is read. */
  datatype TextRun = TextRun(content: string)

  /** One entry of `paragraph.elements`; the `textRun` key may be absent. */
  datatype ParagraphElement = ParagraphElement(textRun: Option<TextRun>)

  /** A `paragraph` object: its `elements` list is read unconditionally. */
  datatype Paragraph = Paragraph(elements: seq<ParagraphElement>)

  /** The `content` key of a table cell or of a table of contents: absent, or a list of structural elements. */
  datatype ContentKey = ContentMissing | Content(elements: seq<StructuralElement>)

  /** The `tableCells` key of a table row. */
  datatype CellsKey = CellsMissing | Cells(cells: seq<TableCell>)

  /** The `tableRows` key of a table. */
  datatype RowsKey = RowsMissing | Rows(rows: seq<TableRow>)

  datatype TableCell = TableCell(content: ContentKey)

  datatype TableRow = TableRow(tableCells: CellsKey)

  datatype Table = Table(tableRows: RowsKey)

  datatype TableOfContents = TableOfContents(content: ContentKey)

  /**
   * One entry of `body.content`.  All three keys are kept, because an element
   * may carry several of them and the flattener picks one by priority.
   */
  datatype StructuralElement = StructuralElement(
    paragraph: Option<Paragraph>,
    table: Option<Table>,
    tableOfContents: Option<TableOfContents>)

  // ---------------------------------------------------------------------------
  // Specification of extract_text_from_doc_content: a left fold over each list,
  // so that the text of a prefix grows by the text of the next entry.
  // ---------------------------------------------------------------------------

  /** The text of a list of structural elements, in document order. */
  function Text(elements: seq<StructuralElement>): string
    decreases elements
  {
    if elements == [] then ""
    else Text(elements[..|elements| - 1]) + ElementText(elements[|elements| - 1])
  }

  /** The text of one structural element: paragraph first, then table, then table of contents. */
  function ElementText(e: StructuralElement): string
    decreases e
  {
    if e.paragraph.Some? then ParagraphText(e.paragraph.value.elements)
    else if e.table.Some? then TableText(e.table.value)
    else if e.tableOfContents.Some? then ContentText(e.tableOfContents.value.content)
    else ""
  }

  /** The text of a `content` key: nothing when the key is absent. */
  function ContentText(c: ContentKey): string
    decreases c
  {
    match c
    case ContentMissing => ""
    case Content(elements) => Text(elements)
  }

  /** The `content` strings of the text runs of a paragraph, in order. */
  function ParagraphText(pes: seq<ParagraphElement>): string
  {
    if pes == [] then ""
    else ParagraphText(pes[..|pes| - 1]) + RunText(pes[|pes| - 1])
  }

  /** A paragraph element contributes its text run's content, or nothing. */
  function RunText(pe: ParagraphElement): string
  {
    match pe.textRun
    case None => ""
    case Some(run) => run.content
  }

  /** A table is read row by row; a missing `tableRows` key reads as no rows. */
  function TableText(t: Table): string
    decreases t
  {
    match t.tableRows
    case RowsMissing => ""
    case Rows(rows) => RowsText(rows)
  }

  function RowsText(rows: seq<TableRow>): string
    decreases rows
  {
    if rows == [] then ""
    else RowsText(rows[..|rows| - 1]) + RowText(rows[|rows| - 1])
  }

  /** A row is read cell by cell; a missing `tableCells` key reads as no cells. */
  function RowText(r: TableRow): string
    decreases r
  {
    match r.tableCells
    case CellsMissing => ""
    case Cells(cells) => CellsText(cells)
  }

  function CellsText(cells: seq<TableCell>): string
    decreases cells
  {
    if cells == [] then ""
    else CellsText(cells[..|cells| - 1]) + CellText(cells[|cells| - 1])
  }

  function CellText(c: TableCell): string
    decreases c
  {
    ContentText(c.content)
  }

  // ---------------------------------------------------------------------------
  // Properties of the specification.
  // ---------------------------------------------------------------------------

  /** Extraction distributes over concatenation of element lists. */
  lemma {:induction false} TextAppend(a: seq<StructuralElement>, b: seq<StructuralElement>)
    ensures Text(a + b) == Text(a) + Text(b)
    decreases |b|
  {
    if b == [] {
      assert a + b == a;
    } else {
      var b', last := b[..|b| - 1], b[|b| - 1];
      assert (a + b)[..|a + b| - 1] == a + b';
      assert (a + b)[|a + b| - 1] == last;
      TextAppend(a, b');
      var x, y, z := Text(a), Text(b'), ElementText(last);
      assert x + y + z == x + (y + z);
    }
  }

  /** The elements are read front to back: the first element's text comes first. */
  lemma {:induction false} TextCons(e: StructuralElement, rest: seq<StructuralElement>)
    ensures Text([e] + rest) == ElementText(e) + Text(rest)
  {
    TextAppend([e], rest);
    assert [e][..0] == [];
  }

  /** An empty list, and a list of elements that carry none of the three keys, yield "". */
  lemma {:induction false} TextOfKeylessElements(elements: seq<StructuralElement>)
    requires forall i :: 0 <= i < |elements| ==>
      elements[i].paragraph.None? && elements[i].table.None? && elements[i].tableOfContents.None?
    ensures Text(elements) == ""
    decreases |elements|
  {
    if elements != [] {
      TextOfKeylessElements(elements[..|elements| - 1]);
    }
  }

  /** Only the first present key among paragraph, table, tableOfContents is read. */
  lemma ElementPriority(e: StructuralElement, t: Option<Table>, c: Option<TableOfContents>)
    ensures e.paragraph.Some? ==>
      ElementText(e.(table := t, tableOfContents := c)) == ParagraphText(e.paragraph.value.elements)
    ensures e.paragraph.None? && e.table.Some? ==>
      ElementText(e.(tableOfContents := c)) == TableText(e.table.value)
  {
  }

  /** Paragraph elements without a text run add nothing; the others add their content in order. */
  lemma {:induction false} ParagraphAppend(a: seq<ParagraphElement>, b: seq<ParagraphElement>)
    ensures ParagraphText(a + b) == ParagraphText(a) + ParagraphText(b)
    decreases |b|
  {
    if b == [] {
      assert a + b == a;
    } else {
      var b', last := b[..|b| - 1], b[|b| - 1];
      assert (a + b)[..|a + b| - 1] == a + b';
      assert (a + b)[|a + b| - 1] == last;
      ParagraphAppend(a, b');
      var x, y, z := ParagraphText(a), ParagraphText(b'), RunText(last);
      assert x + y + z == x + (y + z);
    }
  }

  /** A paragraph none of whose elements has a text run yields "". */
  lemma {:induction false} ParagraphWithoutRuns(pes: seq<ParagraphElement>)
    requires forall i :: 0 <= i < |pes| ==> pes[i].textRun.None?
    ensures ParagraphText(pes) == ""
    decreases |pes|
  {
    if pes != [] {
      ParagraphWithoutRuns(pes[..|pes| - 1]);
    }
  }

  /** Table rows are read in order: the rows of a table distribute over concatenation. */
  lemma {:induction false} RowsAppend(a: seq<TableRow>, b: seq<TableRow>)
    ensures RowsText(a + b) == RowsText(a) + RowsText(b)
    decreases |b|
  {
    if b == [] {
      assert a + b == a;
    } else {
      var b', last := b[..|b| - 1], b[|b| - 1];
      assert (a + b)[..|a + b| - 1] == a + b';
      assert (a + b)[|a + b| - 1] == last;
      RowsAppend(a, b');
      var x, y, z := RowsText(a), RowsText(b'), RowText(last);
      assert x + y + z == x + (y + z);
    }
  }

  /** Cells of a row are read in order: the cells distribute over concatenation. */
  lemma {:induction false} CellsAppend(a: seq<TableCell>, b: seq<TableCell>)
    ensures CellsText(a + b) == CellsText(a) + CellsText(b)
    decreases |b|
  {
    if b == [] {
      assert a + b == a;
    } else {
      var b', last := b[..|b| - 1], b[|b| - 1];
      assert (a + b)[..|a + b| - 1] == a + b';
      assert (a + b)[|a + b| - 1] == last;
      CellsAppend(a, b');
      var x, y, z := CellsText(a), CellsText(b'), CellText(last);
      assert x + y + z == x + (y + z);
    }
  }

  /** A table whose rows have no `tableCells` key, or whose cells have no `content` key, yields "". */
  lemma {:induction false} RowsWithoutContent(rows: seq<TableRow>)
    requires forall i :: 0 <= i < |rows| ==>
      rows[i].tableCells.CellsMissing? ||
      forall j :: 0 <= j < |rows[i].tableCells.cells| ==> rows[i].tableCells.cells[j].content.ContentMissing?
    ensures RowsText(rows) == ""
    decreases |rows|
  {
    if rows != [] {
      RowsWithoutContent(rows[..|rows| - 1]);
      var last := rows[|rows| - 1];
      if last.tableCells.Cells? {
        CellsWithoutContent(last.tableCells.cells);
      }
    }
  }

  lemma {:induction false} CellsWithoutContent(cells: seq<TableCell>)
    requires forall j :: 0 <= j < |cells| ==> cells[j].content.ContentMissing?
    ensures CellsText(cells) == ""
    decreases |cells|
  {
    if cells != [] {
      CellsWithoutContent(cells[..|cells| - 1]);
    }
  }

  // ---------------------------------------------------------------------------
  // extract_text_from_doc_content in the source's own shape: an accumulator
  // extended inside nested loops, recursing into cells and tables of contents.
  // ---------------------------------------------------------------------------

  /**
   * extract_text_from_doc_content: the text runs of paragraphs, the cells of
   * tables row by row and the content of tables of contents, in document order.
   */
  method ExtractTextFromDocContent(elements: seq<StructuralElement>) returns (text: string)
    ensures text == Text(elements)
    decreases Content(elements)
  {
    text := "";
    for i := 0 to |elements|
      invariant text == Text(elements[..i])
    {
      var element := elements[i];
      assert elements[..i + 1][..i] == elements[..i];
      ghost var before := text;
      if element.paragraph.Some? {
        var pes := element.paragraph.value.elements;
        for k := 0 to |pes|
          invariant text == before + ParagraphText(pes[..k])
        {
          assert pes[..k + 1][..k] == pes[..k];
          if pes[k].textRun.Some? {
            text := text + pes[k].textRun.value.content;
          }
        }
        assert pes[..|pes|] == pes;
      } else if element.table.Some? {
        match element.table.value.tableRows {
          case RowsMissing =>
          case Rows(rows) =>
            var t := ExtractTableText(rows);
            text := text + t;
        }
        assert text == before + ElementText(element);
      } else if element.tableOfContents.Some? {
        match element.tableOfContents.value.content {
          case ContentMissing =>
          case Content(inner) =>
            var t := ExtractTextFromDocContent(inner);
            text := text + t;
        }
        assert text == before + ElementText(element);
      }
    }
    assert elements[..|elements|] == elements;
  }

  /** The nested row and cell loops of the table branch, recursing into each cell's content. */
  method ExtractTableText(rows: seq<TableRow>) returns (text: string)
    ensures text == RowsText(rows)
    decreases Rows(rows)
  {
    text := "";
    for r := 0 to |rows|
      invariant text == RowsText(rows[..r])
    {
      assert rows[..r + 1][..r] == rows[..r];
      ghost var beforeRow := text;
      match rows[r].tableCells {
        case CellsMissing =>
        case Cells(cells) =>
          for c := 0 to |cells|
            invariant text == beforeRow + CellsText(cells[..c])
          {
            assert cells[..c + 1][..c] == cells[..c];
            match cells[c].content {
              case ContentMissing =>
              case Content(inner) =>
                var t := ExtractTextFromDocContent(inner);
                assert CellText(cells[c]) == t;
                text := text + t;
            }
          }
          assert cells[..|cells|] == cells;
      }
      assert text == beforeRow + RowText(rows[r]);
    }
    assert rows[..|rows|] == rows;
  }

  // ---------------------------------------------------------------------------
  // find_document_by_name over a listing of documents.
  // ---------------------------------------------------------------------------

  /** A `files` entry of a listing: the `id` and `name` keys are read unconditionally. */
  datatype DocEntry = DocEntry(id: string, name: string)

  /** `doc['name'].lower() == name.lower()` */
  predicate ExactMatch(doc: DocEntry, name: string)
  {
    LowerStr(doc.name) == LowerStr(name)
  }

  /** `name.lower() in doc['name'].lower()` */
  predicate PartialMatch(doc: DocEntry, name: string)
  {
    Contains(LowerStr(doc.name), LowerStr(name))
  }

  /** `k` is the position of the first exact match in `docs`. */
  predicate FirstExact(docs: seq<DocEntry>, name: string, k: int)
  {
    0 <= k < |docs| && ExactMatch(docs[k], name) &&
    forall j :: 0 <= j < k ==> !ExactMatch(docs[j], name)
  }

  /** `k` is the position of the first partial match in `docs`. */
  predicate FirstPartial(docs: seq<DocEntry>, name: string, k: int)
  {
    0 <= k < |docs| && PartialMatch(docs[k], name) &&
    forall j :: 0 <= j < k ==> !PartialMatch(docs[j], name)
  }

  /** The comprehension `[doc for doc in docs if name.lower() in doc['name'].lower()]`. */
  function PartialMatches(docs: seq<DocEntry>, name: string): (matches: seq<DocEntry>)
    ensures |matches| <= |docs|
    ensures forall d :: d in matches ==> d in docs && PartialMatch(d, name)
  {
    if docs == [] then []
    else (if PartialMatch(docs[0], name) then [docs[0]] else []) + PartialMatches(docs[1..], name)
  }

  /** An exact match is also a partial match. */
  lemma ExactIsPartial(doc: DocEntry, name: string)
    requires ExactMatch(doc, name)
    ensures PartialMatch(doc, name)
  {
    var h := LowerStr(doc.name);
    assert h[0..|LowerStr(name)|] == h;
    assert OccursAt(h, LowerStr(name), 0);
  }

  /** The filtered list starts with the first partial match, and is empty when nothing matches. */
  lemma {:induction false} PartialMatchesHead(docs: seq<DocEntry>, name: string)
    ensures PartialMatches(docs, name) == [] <==>
      forall j :: 0 <= j < |docs| ==> !PartialMatch(docs[j], name)
    ensures forall k :: FirstPartial(docs, name, k) ==> PartialMatches(docs, name)[0] == docs[k]
    decreases |docs|
  {
    if docs != [] {
      PartialMatchesHead(docs[1..], name);
      forall k | FirstPartial(docs, name, k)
        ensures PartialMatches(docs, name)[0] == docs[k]
      {
        if k > 0 {
          assert FirstPartial(docs[1..], name, k - 1) by {
            forall j | 0 <= j < k - 1 ensures !PartialMatch(docs[1..][j], name) {
              assert docs[1..][j] == docs[j + 1];
            }
          }
        }
      }
      if forall j :: 0 <= j < |docs[1..]| ==> !PartialMatch(docs[1..][j], name) {
        forall j | 0 <= j < |docs| && j > 0 ensures !PartialMatch(docs[j], name) {
          assert docs[j] == docs[1..][j - 1];
        }
      }
    }
  }

  /**
   * find_document_by_name: the first case-insensitive exact match if there is
   * one, otherwise the first case-insensitive substring match, otherwise None.
   */
  method FindDocumentByName(docs: seq<DocEntry>, name: string) returns (r: Option<DocEntry>)
    ensures r.Some? <==> exists i :: 0 <= i < |docs| && PartialMatch(docs[i], name)
    ensures forall k :: FirstExact(docs, name, k) ==> r == Some(docs[k])
    ensures (forall j :: 0 <= j < |docs| ==> !ExactMatch(docs[j], name)) ==>
      forall k :: FirstPartial(docs, name, k) ==> r == Some(docs[k])
  {
    for i := 0 to |docs|
      invariant forall j :: 0 <= j < i ==> !ExactMatch(docs[j], name)
    {
      if LowerStr(docs[i].name) == LowerStr(name) {
        ExactIsPartial(docs[i], name);
        assert FirstExact(docs, name, i);
        return Some(docs[i]);
      }
    }
    var matches := PartialMatches(docs, name);
    PartialMatchesHead(docs, name);
    if |matches| > 0 {
      r := Some(matches[0]);
      assert exists i :: 0 <= i < |docs| && PartialMatch(docs[i], name) by {
        assert matches[0] in docs && PartialMatch(matches[0], name);
      }
    } else {
      r := None;
    }
  }
}
