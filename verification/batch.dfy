/** `perform_mail_merge` (docscode.py:42-94): prepare the sheet, then for each
    row merge the template, fill the option marker and name the result. */
module Batch {
  import opened Wrappers
  import opened Strings
  import opened Decimal
  import opened Headers
  import opened Cells
  import opened Borrowers
  import opened Docx

  /** A sheet as `pd.read_excel` returns it: the column labels and the data
      rows, each cell a text or missing (`None`). Every row has one cell per
      label. The labels are not the raw header cells: pandas has already
      renamed a repeated header cell (`Name`, `Name` become `Name`, `Name.1`)
      and a blank one (`Unnamed: n`). */
  datatype Sheet = Sheet(headers: seq<string>, rows: seq<seq<Option<string>>>)

  predicate Rectangular(sheet: Sheet) {
    forall i :: 0 <= i < |sheet.rows| ==> |sheet.rows[i]| == |sheet.headers|
  }

  /** The text-column clean-up of docscode.py:53-57: a missing cell stays
      missing, and a text cell becomes its words joined by single spaces. */
  function CleanCell(v: Option<string>): (r: Option<string>)
    ensures r.None? <==> v.None?
    ensures v.Some? ==> r.value == Join(" ", Words(v.value))
  {
    match v
    case None => None
    case Some(s) =>
      CleanTextIsJoinWords(s);
      Some(CleanText(s))
  }

  /** Lines 44-57: normalise every header, clean every text cell. */
  function PrepareSheet(sheet: Sheet): (r: Sheet)
    ensures |r.headers| == |sheet.headers| && |r.rows| == |sheet.rows|
    ensures forall i :: 0 <= i < |sheet.rows| ==> |r.rows[i]| == |sheet.rows[i]|
    ensures Rectangular(sheet) ==> Rectangular(r)
  {
    Sheet(MapSeq(sheet.headers, NormalizeHeader),
          MapSeq(sheet.rows, (row: seq<Option<string>>) => MapSeq(row, CleanCell)))
  }

  /** Every prepared cell holds the words of the raw cell joined by single
      spaces, and preparing it again would not change it. */
  lemma PreparedCells(sheet: Sheet, i: nat, j: nat)
    requires i < |sheet.rows| && j < |sheet.rows[i]|
    ensures PrepareSheet(sheet).rows[i][j].None? <==> sheet.rows[i][j].None?
    ensures sheet.rows[i][j].Some? ==>
      PrepareSheet(sheet).rows[i][j].value == Join(" ", Words(sheet.rows[i][j].value))
    ensures CleanCell(PrepareSheet(sheet).rows[i][j]) == PrepareSheet(sheet).rows[i][j]
  {
    var v := sheet.rows[i][j];
    if v.Some? {
      CleanTextIsJoinWords(v.value);
      CleanTextIdempotent(v.value);
    }
  }

  /** Each prepared header is the normalised key of its raw header, and it is
      a fixed point of normalisation unless the raw header started with a line
      break and held another one. */
  lemma PreparedHeaders(sheet: Sheet, j: nat)
    requires j < |sheet.headers|
    ensures PrepareSheet(sheet).headers[j] == NormalizeHeader(sheet.headers[j])
    ensures NormalizeHeader(PrepareSheet(sheet).headers[j]) == PrepareSheet(sheet).headers[j]
      <==> !(StartsWith(sheet.headers[j], "\n") && '\n' in sheet.headers[j][1..])
  {
    NormalizeIdempotentIff(sheet.headers[j]);
  }

  /** The row as a map from key to cell. With two equal keys the later column
      wins. */
  function RowFields(headers: seq<string>, row: seq<Option<string>>): (m: map<string, Option<string>>)
    requires |row| == |headers|
    ensures m.Keys == set k | k in headers
  {
    if headers == [] then map[]
    else
      var n := |headers| - 1;
      RowFields(headers[..n], row[..n])[headers[n] := row[n]]
  }

  predicate Distinct(xs: seq<string>) {
    forall i, j :: 0 <= i < j < |xs| ==> xs[i] != xs[j]
  }

  /** With distinct keys each key reads back the cell of its own column. */
  lemma {:induction false} RowFieldsLookup(headers: seq<string>, row: seq<Option<string>>, j: nat)
    requires |row| == |headers| && Distinct(headers) && j < |headers|
    ensures RowFields(headers, row)[headers[j]] == row[j]
    decreases |headers|
  {
    var n := |headers| - 1;
    if j < n {
      assert headers[..n][j] == headers[j];
      RowFieldsLookup(headers[..n], row[..n], j);
    }
  }

  /** `str(row[field])` for a text or missing cell: missing reads `nan`. */
  function Stringify(v: Option<string>): string
  {
    match v
    case None => "nan"
    case Some(t) => t
  }

  /** Line 62: every key of the row with its cell rendered as text. */
  function MergeFields(fields: map<string, Option<string>>): map<string, string>
  {
    map k | k in fields :: Stringify(fields[k])
  }

  /** The merge fields of a row with distinct keys: one per header, each the
      text of its own column's cell, or `nan` when that cell is missing. */
  lemma MergeFieldsOfRow(headers: seq<string>, row: seq<Option<string>>, j: nat)
    requires |row| == |headers| && Distinct(headers) && j < |headers|
    ensures MergeFields(RowFields(headers, row)).Keys == set k | k in headers
    ensures row[j].Some? ==> MergeFields(RowFields(headers, row))[headers[j]] == row[j].value
    ensures row[j].None? ==> MergeFields(RowFields(headers, row))[headers[j]] == "nan"
  {
    RowFieldsLookup(headers, row, j);
  }

  const NamePrefix := "Document_"
  const NameSuffix := ".docx"

  /** Line 92: row `i`, counted from 0, is saved as `Document_{i+1}.docx`. */
  function DocumentName(i: nat): string
  {
    NamePrefix + NatToString(i + 1) + NameSuffix
  }

  predicate AllDigits(s: string) {
    forall k :: 0 <= k < |s| ==> IsDigit(s[k])
  }

  /** The row index a name of that form stands for. */
  function ParseDocumentName(name: string): Option<nat>
  {
    if |name| <= |NamePrefix| + |NameSuffix| then None
    else if name[..|NamePrefix|] != NamePrefix then None
    else if name[|name| - |NameSuffix|..] != NameSuffix then None
    else
      var digits := name[|NamePrefix|..|name| - |NameSuffix|];
      if AllDigits(digits) && ParseDecimal(digits) >= 1 then Some(ParseDecimal(digits) - 1) else None
  }

  lemma NameParts(p: string, d: string, x: string)
    requires d != []
    ensures |p + d + x| > |p| + |x|
    ensures (p + d + x)[..|p|] == p
    ensures (p + d + x)[|p + d + x| - |x|..] == x
    ensures (p + d + x)[|p|..|p + d + x| - |x|] == d
  {
  }

  /** Reading a generated name back gives the row it was made for. */
  lemma ParseDocumentNameRoundTrip(i: nat)
    ensures ParseDocumentName(DocumentName(i)) == Some(i)
  {
    var digits := NatToString(i + 1);
    NameParts(NamePrefix, digits, NameSuffix);
    ParseNatToString(i + 1);
  }

  /** Different rows get different names. */
  lemma DocumentNamesDistinct(i: nat, j: nat)
    requires i != j
    ensures DocumentName(i) != DocumentName(j)
  {
    ParseDocumentNameRoundTrip(i);
    ParseDocumentNameRoundTrip(j);
  }

  /** The names of the first `n` rows. */
  function NameSet(n: nat): set<string>
  {
    set i | 0 <= i < n :: DocumentName(i)
  }

  /** The archive of `n` documents has `n` entries: no name is used twice. */
  lemma {:induction false} NameSetSize(n: nat)
    ensures |NameSet(n)| == n
  {
    if n > 0 {
      NameSetSize(n - 1);
      assert NameSet(n) == NameSet(n - 1) + {DocumentName(n - 1)};
      if DocumentName(n - 1) in NameSet(n - 1) {
        var i :| 0 <= i < n - 1 && DocumentName(i) == DocumentName(n - 1);
        DocumentNamesDistinct(i, n - 1);
      }
    }
  }

  /** The bulk field merge of the template (docscode.py:77-81) belongs to a
      library this model does not include; it is passed in as `merge`. */
  type Merge = (Document, map<string, string>) -> Document

  /** One output document: the merge of the template with the row's fields,
      then the option marker filled with the row's option value. */
  function RenderRow(template: Document, merge: Merge, fields: map<string, Option<string>>): Document
  {
    FillDocument(merge(template, MergeFields(fields)), OptionMarker, DeriveOption(fields))
  }

  /** `perform_mail_merge`: one named document per row, in row order. When two
      columns share a prepared key, line 54's `data[col]` is a table rather than
      a column, it has no single `dtype`, and the whole batch fails (`None`). */
  function PerformMailMerge(template: Document, merge: Merge, sheet: Sheet): (out: Option<seq<(string, Document)>>)
    requires Rectangular(sheet)
    ensures out.Some? <==> Distinct(PrepareSheet(sheet).headers)
    ensures out.Some? ==> |out.value| == |sheet.rows|
    ensures out.Some? ==> forall i :: 0 <= i < |out.value| ==> out.value[i].0 == DocumentName(i)
    ensures out.Some? ==> forall i :: 0 <= i < |out.value| ==> ParseDocumentName(out.value[i].0) == Some(i)
  {
    var prepared := PrepareSheet(sheet);
    if !Distinct(prepared.headers) then None
    else
      var out := seq(|prepared.rows|, i requires 0 <= i < |prepared.rows| =>
        (DocumentName(i), RenderRow(template, merge, RowFields(prepared.headers, prepared.rows[i]))));
      forall i | 0 <= i < |out|
        ensures ParseDocumentName(out[i].0) == Some(i)
      {
        ParseDocumentNameRoundTrip(i);
      }
      Some(out)
  }

  /** A completed batch names its outputs `Document_1.docx` to
      `Document_N.docx`, in order and pairwise distinct. */
  lemma MailMergeNames(template: Document, merge: Merge, sheet: Sheet)
    requires Rectangular(sheet)
    ensures var out := PerformMailMerge(template, merge, sheet);
            out.Some? ==>
              (forall i :: 0 <= i < |sheet.rows| ==> out.value[i].0 == DocumentName(i)) &&
              (forall i, j :: 0 <= i < j < |sheet.rows| ==> out.value[i].0 != out.value[j].0)
  {
    var out := PerformMailMerge(template, merge, sheet);
    if out.Some? {
      forall i, j | 0 <= i < j < |sheet.rows|
        ensures out.value[i].0 != out.value[j].0
      {
        DocumentNamesDistinct(i, j);
      }
    }
  }

  /** Each output document depends on its own row only: two sheets with the
      same headers either both fail or give the same document `i` whenever
      their rows `i` agree. */
  lemma MailMergeRowIsolation(template: Document, merge: Merge, a: Sheet, b: Sheet, i: nat)
    requires Rectangular(a) && Rectangular(b)
    requires a.headers == b.headers
    requires i < |a.rows| && i < |b.rows| && a.rows[i] == b.rows[i]
    ensures PerformMailMerge(template, merge, a).Some? <==> PerformMailMerge(template, merge, b).Some?
    ensures PerformMailMerge(template, merge, a).Some? ==>
      PerformMailMerge(template, merge, a).value[i] == PerformMailMerge(template, merge, b).value[i]
  {
    assert PrepareSheet(a).headers == PrepareSheet(b).headers;
    assert PrepareSheet(a).rows[i] == PrepareSheet(b).rows[i];
  }

  /** Each output document is its merged template with only the marker
      replaced: the same skeleton (paragraphs, tables, rows, cells, runs, bold
      values, nested tables), and every visited run's text is the Python
      replacement of the marker by the row's option value. */
  lemma MailMergeDocument(template: Document, merge: Merge, sheet: Sheet, i: nat)
    requires Rectangular(sheet) && i < |sheet.rows|
    ensures var prepared := PrepareSheet(sheet);
            var fields := RowFields(prepared.headers, prepared.rows[i]);
            var merged := merge(template, MergeFields(fields));
            var out := PerformMailMerge(template, merge, sheet);
            out.Some? ==>
              Skeleton(out.value[i].1) == Skeleton(merged) &&
              |Runs(out.value[i].1)| == |Runs(merged)| &&
              (forall k :: 0 <= k < |Runs(merged)| ==>
                 Runs(out.value[i].1)[k].text == ReplaceAll(Runs(merged)[k].text, OptionMarker, DeriveOption(fields)))
  {
    var prepared := PrepareSheet(sheet);
    var fields := RowFields(prepared.headers, prepared.rows[i]);
    var merged := merge(template, MergeFields(fields));
    FillKeepsSkeleton(merged, OptionMarker, DeriveOption(fields));
    FillDocumentRuns(merged, OptionMarker, DeriveOption(fields));
  }
}
