# Letter mail-merge engine, modelled in Dafny

`docscode.py` drafts one letter per spreadsheet row. It reads a workbook and
normalises its headers into merge-field keys. It cleans the text cells and
works out a derived `option` suffix ("AND ORS", "AND ANR" or nothing) from the
three borrower names. It merges a Word template with each row, then replaces
the literal marker `<<option>>` run by run, keeping each run's bold setting.
The output for row `i` is named `Document_{i+1}.docx`.

This project models that engine over plain strings and immutable datatypes
and proves properties about it:

- `wrappers.dfy`: `Option`.
- `strings.dfy`: the Python `str` operations the code relies on, each over `seq<char>`:
  - `isspace`;
  - `strip`, `lstrip` and `rstrip`;
  - `in`;
  - `replace`, for all occurrences, for the first only, and with an empty pattern;
  - `split` with a separator, and `join`.
- `decimal.dfy`: `str(n)` for natural numbers, and its inverse.
- `headers.dfy`: the space replacement of line 44 and `transform_column_names`.
  - They are proved equal to a one-character-at-a-time reference.
  - Idempotence is characterised exactly.
- `cells.dfy`: the text-cell clean-up of lines 55-57 and `clean_value`.
  - The clean-up is proved equal to `" ".join(s.split())`.
- `borrowers.dfy`: the option decision of lines 65-75.
- `docx.dfy`: the document datatype (paragraphs; tables of rows of cells; runs with a tri-state bold value) and `replace_text_preserve_formatting`.
- `batch.dfy`: `perform_mail_merge`, which covers:
  - sheet preparation;
  - the failure when two columns share a key;
  - the row-to-field map;
  - the per-row pipeline;
  - output naming.

Two facts about the code that the proofs make precise:

- `transform_column_names` is not idempotent. A header that starts with a
  line break and holds a second one keeps the second break on the first pass
  and loses it on the second.
  - `Headers.NormalizeIdempotentIff` states exactly when normalising twice
    equals normalising once.
  - `Headers.NormalizeTwoBreaksExample` exhibits a header where it does not.
- Parentheses are deleted with their contents kept, so `Loan (13)/Date.`
  becomes `Loan_13Date` (`Headers.NormalizeMixedExample`).

## Model

| member | source | states |
|---|---|---|
| Strings.Strip | docscode.py:39 | `str.strip()`: the result neither starts nor ends with whitespace, and it is the part of the input left after cutting off only whitespace on both sides |
| Strings.ReplaceAllIsJoinSplit | docscode.py:22 | `s.replace(pat, sub)` equals `sub.join(s.split(pat))`: every non-overlapping occurrence, found left to right, is replaced |
| Strings.JoinSplit | docscode.py:22 | joining the pieces of `s.split(sep)` with `sep` gives back `s` |
| Strings.SplitLeftmost | docscode.py:22 | `s.split(sep)` has more than one piece exactly when `sep` occurs in `s`, and the first piece ends at the leftmost occurrence, so the scan goes left to right |
| Strings.SplitPiecesFree | docscode.py:22 | no piece of `s.split(sep)` contains `sep`, so a replacement leaves no occurrence that the scan found |
| Strings.ReplaceAllAbsent | docscode.py:20-22 | a text that does not contain the pattern is unchanged by `replace` |
| Strings.ReplaceAllInserts | docscode.py:22 | when the pattern occurs, the replacement text occurs in the result |
| Strings.ReplaceCharIsSubst | docscode.py:13 | replacing a one-character string is substituting that character everywhere |
| Decimal.NatToString | docscode.py:92 | `str(n)` is non-empty, all digits, and starts with `0` only for `0` itself |
| Decimal.ParseNatToString | docscode.py:92 | reading the decimal rendering of `n` back gives `n` |
| Decimal.NatToStringInjective | docscode.py:92 | different numbers render differently |
| Headers.SpacesKeepLeadingBreak | docscode.py:44 | the space step is a character substitution, and it neither creates nor removes a leading line break |
| Headers.NormalizeNoLeadingBreak | docscode.py:10 | a header that does not start with a break normalises to the reference in which every break is `_` |
| Headers.NormalizeLeadingBreak | docscode.py:11 | a header that starts with a break normalises to `M__` followed by the reference of the rest, in which later breaks stay |
| Headers.NormalizeHeaderReference | docscode.py:9-14 | spaces then `transform_column_names` equal the one-character-at-a-time reference (space to `_`; `(`, `)`, `/`, `.` dropped; every other character kept in order), in both line-break cases |
| Headers.NormalizedHeaderShape | docscode.py:12-13 | a key has no space, `(`, `)`, `/` or `.`; without a leading break it has no break; with one it starts with `M__` and has a break exactly when the rest of the header had one |
| Headers.NormalizeIdempotentIff | docscode.py:10-11 | normalising twice equals normalising once exactly when the header does not both start with a break and hold another one |
| Headers.NormalizeParenthesisExample | docscode.py:12 | `13(2)` becomes `132` |
| Headers.NormalizeMixedExample | docscode.py:44-45 | `Loan (13)/Date.` becomes `Loan_13Date` |
| Headers.NormalizeTwoBreaksExample | docscode.py:10-11 | `"\nA\nB"` becomes `"M__A\nB"`, and normalising that gives `"M__A_B"` |
| Cells.CollapseEnds | docscode.py:56 | collapsing whitespace runs gives the empty string only for the empty string, and keeps the kind of character (whitespace or not) at each end |
| Cells.CollapseSpacing | docscode.py:56 | after the collapse, the only whitespace is single plain spaces, never two in a row |
| Cells.CleanText | docscode.py:55-57 | a cleaned cell has no leading or trailing whitespace, no `\n` or `\r`, no two adjacent whitespace characters, and no whitespace other than `' '` |
| Cells.BreakStepRedundant | docscode.py:57 | the line-break replacement changes nothing after the strip and the collapse |
| Cells.CleanTextIsJoinWords | docscode.py:55-57 | cleaning a cell is `" ".join(s.split())`: its words in order, separated by single spaces |
| Cells.WordsJoin | docscode.py:55-57 | splitting a space-joined list of words gives the list back, which makes the clean-up a fixed point |
| Cells.CleanTextIdempotent | docscode.py:55-57 | cleaning twice is cleaning once |
| Cells.CleanTextExample | docscode.py:55-57 | `"  New\n Delhi  "` becomes `"New Delhi"` |
| Cells.CleanValue | docscode.py:35-39 | a missing value gives `""`; a present one gives its text with only the surrounding whitespace removed, and no whitespace at either end |
| Cells.CleanValuePresent | docscode.py:35-39 | the cleaned value is non-empty exactly when the value is present and holds a non-whitespace character |
| Cells.CleanValueOfCleanText | docscode.py:39 | reading a cleaned cell through `clean_value` gives the cleaned text unchanged |
| Borrowers.CleanLookupNamed | docscode.py:65-67 | `clean_value(row.get(key, ""))` is non-empty exactly when the row has the column, the cell is present, and it holds something other than whitespace |
| Borrowers.OptionValue | docscode.py:68-75 | the result is `AND ORS` exactly when all three names are non-empty, `""` exactly when only the first is, and `AND ANR` otherwise |
| Borrowers.DeriveOption | docscode.py:65-75 | a row's option value is one of `AND ORS`, `AND ANR` or `""` |
| Borrowers.DeriveOptionNamed | docscode.py:65-75 | in terms of the raw row: `""` exactly when only borrower 1 is named (column present, cell not missing, not all whitespace); `AND ORS` exactly when all three are; `AND ANR` in every other case |
| Borrowers.BlankNameIsAbsent | docscode.py:65-68 | a name cell holding only whitespace counts as no name |
| Borrowers.OptionExamples | docscode.py:68-75 | Alice, Bob and Carol give `AND ORS`; Alice and Bob give `AND ANR`; Alice alone gives `""`; Bob alone gives `AND ANR` |
| Docx.FillRun | docscode.py:20-23 | a run keeps its bold value (set, cleared or unset), and a run without the marker is untouched |
| Docx.FillRunText | docscode.py:20-22 | a filled run's text is `text.replace(marker, value)` whether or not the guard fired |
| Docx.FillRunInserts | docscode.py:29-32 | a run holding the marker comes out holding the replacement value, with its original bold value |
| Docx.RunsMap | docscode.py:18-28 | the traversal visits top-level paragraphs, then table rows, cells and cell paragraphs; afterwards the visited runs are the old ones, each transformed, in the same order |
| Docx.FillDocumentRuns | docscode.py:17-33 | after filling, the visited runs correspond one for one and in order to the runs before; each has the replaced text and the same bold value |
| Docx.FillKeepsSkeleton | docscode.py:17-33 | filling changes nothing but visited run texts: the number and order of paragraphs, tables, rows, cells and runs, every bold value, and every nested table are kept |
| Docx.FillMarkerFree | docscode.py:20 | a document in which no visited run holds the marker is returned unchanged |
| Docx.FillChangesIff | docscode.py:17-33 | filling changes the document exactly when some visited run's text is changed by the replacement |
| Docx.FillKeepsNestedTables | docscode.py:26-27 | tables nested inside a cell are never visited and come out as they were |
| Docx.SplitMarkerKept | docscode.py:19-20 | a marker split across two runs (`<<opt`, `ion>>`) is not replaced, although the paragraph's text contains it |
| Batch.CleanCell | docscode.py:53-57 | a missing cell stays missing, and a text cell becomes its words joined by single spaces |
| Batch.PrepareSheet | docscode.py:44-57 | preparation keeps the number of headers, rows and cells per row |
| Batch.PreparedCells | docscode.py:53-57 | each prepared cell is the raw cell's words joined by single spaces, and cleaning it again changes nothing |
| Batch.PreparedHeaders | docscode.py:44-45 | each prepared header is its normalised raw header, and is a fixed point unless the raw header started with a break and held another one |
| Batch.RowFields | docscode.py:62 | the field map of a row has exactly the sheet's keys |
| Batch.RowFieldsLookup | docscode.py:62 | with distinct keys, each key maps to the cell of its own column |
| Batch.MergeFieldsOfRow | docscode.py:62 | with distinct keys, the merge fields have exactly the sheet's keys; each key maps to the text of its own column's cell, or to `nan` when that cell is missing |
| Batch.ParseDocumentNameRoundTrip | docscode.py:92 | reading the name `Document_{i+1}.docx` back gives the row index `i` |
| Batch.DocumentNamesDistinct | docscode.py:92 | different rows get different names |
| Batch.NameSetSize | docscode.py:92 | the names of N rows form a set of N names |
| Batch.PerformMailMerge | docscode.py:53-94 | the batch fails exactly when two columns share a prepared key; otherwise there is one output per row, in row order, output `i` is named `Document_{i+1}.docx`, and its name reads back as `i` |
| Batch.MailMergeNames | docscode.py:61-92 | a completed batch names its outputs `Document_1.docx` to `Document_N.docx`, pairwise distinct |
| Batch.MailMergeRowIsolation | docscode.py:53-92 | two sheets with the same headers both fail or both complete, and output `i` depends on the headers and row `i` only |
| Batch.MailMergeDocument | docscode.py:77-85 | when the batch completes, output `i` has the skeleton of the merged template for row `i`; each of its visited run texts is the merged one with the marker replaced by the row's option value |

## Left out

- The Streamlit page (docscode.py:97-143): styling, uploads, the button, the spinner, the download and the catch-all error message. This is user-interface plumbing.
- The bulk field merge of the `mailmerge` library (docscode.py:77-81). Its code is not part of this model, so it is the function parameter `merge` of `Batch.PerformMailMerge`.
- Loading and saving the Word file, and the `BytesIO` streams (docscode.py:84, 88-90). This is serialisation by a library outside the model; the model works on the `Document` datatype.
- `pd.read_excel` and dtype inference (docscode.py:43, 54). A sheet is already text-or-missing cells.
  - Its headers are the column labels pandas returns, not the raw header cells. pandas renames a repeated header cell (`Name`, `Name` become `Name`, `Name.1`, which line 13 turns into `Name1`) and a blank one (`Unnamed: n`). Two identical header cells therefore do not by themselves reach the duplicate-key failure; two labels that normalise alike (`A B` and `A_B`) do.
  - Numbers and booleans in cells are not modelled.
  - Neither is the pandas rule that `.str` methods turn non-text values in a text column into NaN.
- The datetime column formatting (docscode.py:48-50). Telling which columns are datetimes is pandas behaviour.
- `Batch.MergeFieldsOfRow`: `str(value)` is modelled only for text (itself) and missing cells (`nan`). Rendering of numbers is pandas and Python float formatting.
- Duplicate prepared headers make the source fail. At line 54, `data[col]` is then a table rather than a column, and reading its `dtype` raises an error, so no document is produced.
  - `Batch.PerformMailMerge` returns `None` in that case.
  - `Batch.RowFields` is still defined for such rows and keeps the later column, but no completed batch uses it that way.
  - `Batch.RowFieldsLookup` and `Batch.MergeFieldsOfRow` require distinct keys. This excludes nothing the source completes on.
- Headers that are not text, such as a numeric header, make the source fail. Line 44 turns them into NaN, or raises if no header is text, and `'\n' in col` at line 10 then raises. Headers here are strings, so the model cannot express these inputs.
- Zip packaging (docscode.py:129-133). The archive is the library's I/O. `Batch.NameSetSize` states that its entry names do not collide.
- Side effects of assigning `run.text` inside python-docx, such as turning `\t` and `\n` into tab and break elements. Run text is a plain string here.
- Headers, footers, text boxes and hyperlinks. The source's traversal does not reach them, so the document datatype does not hold them.
- Merged table cells. python-docx lists a merged cell once per grid position, so the source visits it more than once. The model gives each row its own cells.
