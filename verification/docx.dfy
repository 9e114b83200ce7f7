/** A word-processing document as the marker replacement sees it, and
    `replace_text_preserve_formatting` (docscode.py:17-33). */
module Docx {
  import opened Wrappers
  import opened Strings

  /** The smallest piece of formatted text. `bold` is tri-state: set, cleared,
      or `None` when the run inherits it from its style. */
  datatype Run = Run(text: string, bold: Option<bool>)

  datatype Paragraph = Paragraph(runs: seq<Run>)

  /** A table cell holds paragraphs and possibly tables nested inside it. */
  datatype Cell = Cell(paragraphs: seq<Paragraph>, tables: seq<Table>)

  datatype TableRow = TableRow(cells: seq<Cell>)

  datatype Table = Table(rows: seq<TableRow>)

  /** The body: top-level paragraphs and top-level tables. */
  datatype Document = Document(paragraphs: seq<Paragraph>, tables: seq<Table>)

  // ---- sequences of sequences ----

  function Flatten<T>(xss: seq<seq<T>>): seq<T>
  {
    if xss == [] then [] else xss[0] + Flatten(xss[1..])
  }

  function MapSeq<A, B>(xs: seq<A>, g: A -> B): (ys: seq<B>)
    ensures |ys| == |xs|
    ensures forall i :: 0 <= i < |xs| ==> ys[i] == g(xs[i])
  {
    seq(|xs|, i requires 0 <= i < |xs| => g(xs[i]))
  }

  lemma MapSeqAppend<A, B>(a: seq<A>, b: seq<A>, g: A -> B)
    ensures MapSeq(a + b, g) == MapSeq(a, g) + MapSeq(b, g)
  {
  }

  /** Mapping every inner sequence and flattening is flattening and mapping. */
  lemma {:induction false} FlattenMap<A, B>(xss: seq<seq<A>>, yss: seq<seq<B>>, g: A -> B)
    requires |yss| == |xss|
    requires forall i :: 0 <= i < |xss| ==> yss[i] == MapSeq(xss[i], g)
    ensures Flatten(yss) == MapSeq(Flatten(xss), g)
  {
    if xss != [] {
      FlattenMap(xss[1..], yss[1..], g);
      MapSeqAppend(xss[0], Flatten(xss[1..]), g);
    }
  }

  lemma {:induction false} FlattenMember<T>(xss: seq<seq<T>>, i: nat, x: T)
    requires i < |xss| && x in xss[i]
    ensures x in Flatten(xss)
  {
    if i > 0 {
      FlattenMember(xss[1..], i - 1, x);
    }
  }

  // ---- the traversal of docscode.py:18-19 and 24-28 ----

  /** Apply `f` to every run of a paragraph. */
  function MapParagraph(p: Paragraph, f: Run -> Run): Paragraph
  {
    Paragraph(MapSeq(p.runs, f))
  }

  function MapParagraphs(ps: seq<Paragraph>, f: Run -> Run): seq<Paragraph>
  {
    MapSeq(ps, (p: Paragraph) => MapParagraph(p, f))
  }

  /** Only the cell's own paragraphs are visited; tables nested in the cell
      are kept as they are. */
  function MapCell(c: Cell, f: Run -> Run): Cell
  {
    Cell(MapParagraphs(c.paragraphs, f), c.tables)
  }

  function MapRow(r: TableRow, f: Run -> Run): TableRow
  {
    TableRow(MapSeq(r.cells, (c: Cell) => MapCell(c, f)))
  }

  function MapTable(t: Table, f: Run -> Run): Table
  {
    Table(MapSeq(t.rows, (r: TableRow) => MapRow(r, f)))
  }

  /** Apply `f` to every run the replacement visits: each run of each
      top-level paragraph, then each run of each paragraph of each cell of
      each row of each top-level table. */
  function MapRuns(d: Document, f: Run -> Run): Document
  {
    Document(MapParagraphs(d.paragraphs, f), MapSeq(d.tables, (t: Table) => MapTable(t, f)))
  }

  // ---- the visited runs, in visiting order ----

  function ParagraphsRuns(ps: seq<Paragraph>): seq<Run>
  {
    Flatten(MapSeq(ps, (p: Paragraph) => p.runs))
  }

  function RowRuns(r: TableRow): seq<Run>
  {
    Flatten(MapSeq(r.cells, (c: Cell) => ParagraphsRuns(c.paragraphs)))
  }

  function TableRuns(t: Table): seq<Run>
  {
    Flatten(MapSeq(t.rows, RowRuns))
  }

  /** Every run the replacement visits, in the order it visits them. */
  function Runs(d: Document): seq<Run>
  {
    ParagraphsRuns(d.paragraphs) + Flatten(MapSeq(d.tables, TableRuns))
  }

  lemma ParagraphsRunsMap(ps: seq<Paragraph>, f: Run -> Run)
    ensures ParagraphsRuns(MapParagraphs(ps, f)) == MapSeq(ParagraphsRuns(ps), f)
  {
    var qs := MapParagraphs(ps, f);
    FlattenMap(MapSeq(ps, (p: Paragraph) => p.runs), MapSeq(qs, (p: Paragraph) => p.runs), f);
  }

  lemma RowRunsMap(r: TableRow, f: Run -> Run)
    ensures RowRuns(MapRow(r, f)) == MapSeq(RowRuns(r), f)
  {
    var xss := MapSeq(r.cells, (c: Cell) => ParagraphsRuns(c.paragraphs));
    var m := MapRow(r, f);
    var yss := MapSeq(m.cells, (c: Cell) => ParagraphsRuns(c.paragraphs));
    forall i | 0 <= i < |xss|
      ensures yss[i] == MapSeq(xss[i], f)
    {
      ParagraphsRunsMap(r.cells[i].paragraphs, f);
    }
    FlattenMap(xss, yss, f);
  }

  lemma TableRunsMap(t: Table, f: Run -> Run)
    ensures TableRuns(MapTable(t, f)) == MapSeq(TableRuns(t), f)
  {
    var xss := MapSeq(t.rows, RowRuns);
    var yss := MapSeq(MapTable(t, f).rows, RowRuns);
    forall i | 0 <= i < |xss|
      ensures yss[i] == MapSeq(xss[i], f)
    {
      RowRunsMap(t.rows[i], f);
    }
    FlattenMap(xss, yss, f);
  }

  /** The runs visited after a traversal are the runs visited before it, each
      passed through `f`, in the same order. */
  lemma RunsMap(d: Document, f: Run -> Run)
    ensures Runs(MapRuns(d, f)) == MapSeq(Runs(d), f)
  {
    var m := MapRuns(d, f);
    ParagraphsRunsMap(d.paragraphs, f);
    var xss := MapSeq(d.tables, TableRuns);
    var yss := MapSeq(m.tables, TableRuns);
    forall i | 0 <= i < |xss|
      ensures yss[i] == MapSeq(xss[i], f)
    {
      TableRunsMap(d.tables[i], f);
    }
    FlattenMap(xss, yss, f);
    MapSeqAppend(ParagraphsRuns(d.paragraphs), Flatten(xss), f);
  }

  // ---- traversals that change nothing, and traversals in a row ----

  lemma MapParagraphsId(ps: seq<Paragraph>, f: Run -> Run)
    requires forall p, r :: p in ps && r in p.runs ==> f(r) == r
    ensures MapParagraphs(ps, f) == ps
  {
    forall i | 0 <= i < |ps|
      ensures MapParagraph(ps[i], f) == ps[i]
    {
      assert MapSeq(ps[i].runs, f) == ps[i].runs;
    }
  }

  lemma ParagraphsRunsMember(ps: seq<Paragraph>, i: nat, r: Run)
    requires i < |ps| && r in ps[i].runs
    ensures r in ParagraphsRuns(ps)
  {
    FlattenMember(MapSeq(ps, (p: Paragraph) => p.runs), i, r);
  }

  lemma RowRunsMember(row: TableRow, j: nat, i: nat, r: Run)
    requires j < |row.cells| && i < |row.cells[j].paragraphs| && r in row.cells[j].paragraphs[i].runs
    ensures r in RowRuns(row)
  {
    ParagraphsRunsMember(row.cells[j].paragraphs, i, r);
    FlattenMember(MapSeq(row.cells, (c: Cell) => ParagraphsRuns(c.paragraphs)), j, r);
  }

  lemma MapTableId(t: Table, f: Run -> Run)
    requires forall r :: r in TableRuns(t) ==> f(r) == r
    ensures MapTable(t, f) == t
  {
    forall k | 0 <= k < |t.rows|
      ensures MapRow(t.rows[k], f) == t.rows[k]
    {
      var row := t.rows[k];
      forall j | 0 <= j < |row.cells|
        ensures MapCell(row.cells[j], f) == row.cells[j]
      {
        var c := row.cells[j];
        forall p, r | p in c.paragraphs && r in p.runs
          ensures f(r) == r
        {
          var i :| 0 <= i < |c.paragraphs| && c.paragraphs[i] == p;
          RowRunsMember(row, j, i, r);
          FlattenMember(MapSeq(t.rows, RowRuns), k, r);
        }
        MapParagraphsId(c.paragraphs, f);
      }
    }
  }

  /** A traversal whose function fixes every visited run changes nothing. */
  lemma MapRunsId(d: Document, f: Run -> Run)
    requires forall r :: r in Runs(d) ==> f(r) == r
    ensures MapRuns(d, f) == d
  {
    forall p, r | p in d.paragraphs && r in p.runs
      ensures f(r) == r
    {
      var i :| 0 <= i < |d.paragraphs| && d.paragraphs[i] == p;
      ParagraphsRunsMember(d.paragraphs, i, r);
    }
    MapParagraphsId(d.paragraphs, f);
    forall k | 0 <= k < |d.tables|
      ensures MapTable(d.tables[k], f) == d.tables[k]
    {
      forall r | r in TableRuns(d.tables[k])
        ensures f(r) == r
      {
        FlattenMember(MapSeq(d.tables, TableRuns), k, r);
      }
      MapTableId(d.tables[k], f);
    }
  }

  lemma MapParagraphsCompose(ps: seq<Paragraph>, f: Run -> Run, g: Run -> Run, h: Run -> Run)
    requires forall r :: h(r) == g(f(r))
    ensures MapParagraphs(MapParagraphs(ps, f), g) == MapParagraphs(ps, h)
  {
    forall i | 0 <= i < |ps|
      ensures MapParagraph(MapParagraph(ps[i], f), g) == MapParagraph(ps[i], h)
    {
      assert MapSeq(MapSeq(ps[i].runs, f), g) == MapSeq(ps[i].runs, h);
    }
  }

  /** Two traversals in a row are one traversal with the composed function. */
  lemma MapRunsCompose(d: Document, f: Run -> Run, g: Run -> Run, h: Run -> Run)
    requires forall r :: h(r) == g(f(r))
    ensures MapRuns(MapRuns(d, f), g) == MapRuns(d, h)
  {
    MapParagraphsCompose(d.paragraphs, f, g, h);
    forall k | 0 <= k < |d.tables|
      ensures MapTable(MapTable(d.tables[k], f), g) == MapTable(d.tables[k], h)
    {
      var t := d.tables[k];
      forall i | 0 <= i < |t.rows|
        ensures MapRow(MapRow(t.rows[i], f), g) == MapRow(t.rows[i], h)
      {
        var row := t.rows[i];
        forall j | 0 <= j < |row.cells|
          ensures MapCell(MapCell(row.cells[j], f), g) == MapCell(row.cells[j], h)
        {
          MapParagraphsCompose(row.cells[j].paragraphs, f, g, h);
        }
      }
    }
  }

  // ---- the replacement ----

  /** One run: when the marker occurs in its text, remember its bold value,
      replace every occurrence (Python `str.replace`), and set the bold value
      back. A run without the marker is not touched. */
  function FillRun(run: Run, pat: string, sub: string): (r: Run)
    ensures r.bold == run.bold
    ensures !Contains(run.text, pat) ==> r == run
  {
    if Contains(run.text, pat) then
      var isBold := run.bold;
      var replaced := run.(text := ReplaceAll(run.text, pat, sub));
      replaced.(bold := isBold)
    else run
  }

  /** The text of a filled run is the Python replacement of its text, whether
      or not the guard fired: where the marker is absent the replacement is
      the identity. */
  lemma FillRunText(run: Run, pat: string, sub: string)
    ensures FillRun(run, pat, sub).text == ReplaceAll(run.text, pat, sub)
    ensures FillRun(run, pat, sub) == Run(ReplaceAll(run.text, pat, sub), run.bold)
  {
    if !Contains(run.text, pat) {
      ReplaceAllAbsent(run.text, pat, sub);
    }
  }

  /** `replace_text_preserve_formatting(doc, pat, sub)`. */
  function FillDocument(d: Document, pat: string, sub: string): Document
  {
    MapRuns(d, (run: Run) => FillRun(run, pat, sub))
  }

  /** The visited runs after filling are the visited runs before, one for one
      and in order: each has the replaced text and the same bold value. */
  lemma FillDocumentRuns(d: Document, pat: string, sub: string)
    ensures |Runs(FillDocument(d, pat, sub))| == |Runs(d)|
    ensures forall i :: 0 <= i < |Runs(d)| ==>
      Runs(FillDocument(d, pat, sub))[i] == Run(ReplaceAll(Runs(d)[i].text, pat, sub), Runs(d)[i].bold)
  {
    RunsMap(d, (run: Run) => FillRun(run, pat, sub));
    forall i | 0 <= i < |Runs(d)|
      ensures FillRun(Runs(d)[i], pat, sub) == Run(ReplaceAll(Runs(d)[i].text, pat, sub), Runs(d)[i].bold)
    {
      FillRunText(Runs(d)[i], pat, sub);
    }
  }

  /** A run with its text erased: what the replacement must not change. */
  function BlankRun(run: Run): Run
  {
    Run("", run.bold)
  }

  /** The document with every visited text erased: the paragraphs, tables,
      rows, cells and runs, their number and order, every bold value, and
      every nested table. */
  function Skeleton(d: Document): Document
  {
    MapRuns(d, BlankRun)
  }

  /** Filling keeps the skeleton: only visited run texts can differ. */
  lemma FillKeepsSkeleton(d: Document, pat: string, sub: string)
    ensures Skeleton(FillDocument(d, pat, sub)) == Skeleton(d)
  {
    MapRunsCompose(d, (run: Run) => FillRun(run, pat, sub), BlankRun, BlankRun);
  }

  /** A document in which no visited run holds the marker is left as it is. */
  lemma FillMarkerFree(d: Document, pat: string, sub: string)
    requires forall r :: r in Runs(d) ==> !Contains(r.text, pat)
    ensures FillDocument(d, pat, sub) == d
  {
    MapRunsId(d, (run: Run) => FillRun(run, pat, sub));
  }

  /** Filling changes a document exactly when some visited run holds the
      marker and its replacement differs from it. */
  lemma FillChangesIff(d: Document, pat: string, sub: string)
    ensures FillDocument(d, pat, sub) != d <==>
      exists r :: r in Runs(d) && ReplaceAll(r.text, pat, sub) != r.text
  {
    var fill := (run: Run) => FillRun(run, pat, sub);
    if forall r :: r in Runs(d) ==> ReplaceAll(r.text, pat, sub) == r.text {
      forall r | r in Runs(d)
        ensures fill(r) == r
      {
        FillRunText(r, pat, sub);
      }
      MapRunsId(d, fill);
    } else {
      var r :| r in Runs(d) && ReplaceAll(r.text, pat, sub) != r.text;
      var i :| 0 <= i < |Runs(d)| && Runs(d)[i] == r;
      FillDocumentRuns(d, pat, sub);
      assert Runs(FillDocument(d, pat, sub))[i] != r;
    }
  }

  /** Tables nested inside a cell are never visited. */
  lemma FillKeepsNestedTables(d: Document, pat: string, sub: string, k: nat, i: nat, j: nat)
    requires k < |d.tables| && i < |d.tables[k].rows| && j < |d.tables[k].rows[i].cells|
    ensures |FillDocument(d, pat, sub).tables| == |d.tables|
    ensures |FillDocument(d, pat, sub).tables[k].rows| == |d.tables[k].rows|
    ensures |FillDocument(d, pat, sub).tables[k].rows[i].cells| == |d.tables[k].rows[i].cells|
    ensures FillDocument(d, pat, sub).tables[k].rows[i].cells[j].tables == d.tables[k].rows[i].cells[j].tables
  {
  }

  /** A run that holds the marker comes out holding the replacement text and
      with the bold value it had (set, cleared or inherited). */
  lemma FillRunInserts(run: Run, pat: string, sub: string)
    requires pat != [] && Contains(run.text, pat)
    ensures Contains(FillRun(run, pat, sub).text, sub)
    ensures FillRun(run, pat, sub).bold == run.bold
  {
    ReplaceAllInserts(run.text, pat, sub);
  }

  /** A marker split over two runs is not replaced, although the paragraph's
      text holds it: the test is made on each run's text alone. */
  lemma SplitMarkerKept(m: string, a: string, b: string, sub: string)
    requires m == "<<option>>" && a == "<<opt" && b == "ion>>"
    ensures Contains(a + b, m)
    ensures FillDocument(Document([Paragraph([Run(a, Some(true)), Run(b, None)])], []), m, sub)
      == Document([Paragraph([Run(a, Some(true)), Run(b, None)])], [])
  {
    assert a + b == m;
    ContainsPrefix(m, []);
    assert m + [] == m;
    var d := Document([Paragraph([Run(a, Some(true)), Run(b, None)])], []);
    assert !Contains(a, m) && !Contains(b, m);
    var fill := (run: Run) => FillRun(run, m, sub);
    assert MapParagraph(d.paragraphs[0], fill) == d.paragraphs[0];
  }
}
