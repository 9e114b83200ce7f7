/** The derived `option` field: a suffix chosen from which of the three
    borrower names a row carries, and the marker it replaces in the letter. */
module Borrowers {
  import opened Wrappers
  import opened Strings
  import opened Cells

  /** The literal token in the template that receives the option value. */
  const OptionMarker := "<<option>>"

  /** Suffix for a letter addressed to three or more borrowers. */
  const AllThree := "AND ORS"

  /** Suffix for a letter addressed to two borrowers, and the fallback. */
  const AndAnother := "AND ANR"

  const FirstKey := "Borrowers_Name"
  const SecondKey := "Borrower_2_Name"
  const ThirdKey := "Borrower_3_Name"

  /** One spreadsheet row after header normalisation: each key holds a cell,
      `None` standing for a missing (NaN) cell. */
  type Row = map<string, Option<string>>

  /** `row.get(key, "")`: a column the sheet lacks reads as the empty string. */
  function Lookup(row: Row, key: string): Option<string>
  {
    if key in row then row[key] else Some("")
  }

  /** The four-way decision over the three cleaned names, taken in the order
      written: all three present, the first two only, the first only, anything
      else. */
  function OptionValue(b1: string, b2: string, b3: string): (r: string)
    ensures r == AllThree <==> b1 != "" && b2 != "" && b3 != ""
    ensures r == "" <==> b1 != "" && b2 == "" && b3 == ""
    ensures r == AllThree || r == AndAnother || r == ""
  {
    if b1 != "" && b2 != "" && b3 != "" then AllThree
    else if b1 != "" && b2 != "" && b3 == "" then AndAnother
    else if b1 != "" && b2 == "" && b3 == "" then ""
    else AndAnother
  }

  /** The option value of a row: the three borrower cells read through
      `clean_value`, then the decision. */
  function DeriveOption(row: Row): (r: string)
    ensures r == AllThree || r == AndAnother || r == ""
  {
    OptionValue(CleanValue(Lookup(row, FirstKey)),
                CleanValue(Lookup(row, SecondKey)),
                CleanValue(Lookup(row, ThirdKey)))
  }

  /** A borrower counts as named when the row has the column, the cell is
      not missing, and it holds something other than whitespace. */
  predicate Named(row: Row, key: string) {
    key in row && row[key].Some? && !AllSpace(row[key].value)
  }

  /** A name reads as non-empty exactly when the row has the column, the cell
      is present, and it holds something other than whitespace. */
  lemma CleanLookupNamed(row: Row, key: string)
    ensures CleanValue(Lookup(row, key)) != "" <==> Named(row, key)
  {
    CleanValuePresent(Lookup(row, key));
    if key !in row {
      assert AllSpace(Lookup(row, key).value);
    }
  }

  /** The row-level decision in terms of which borrowers are named: the suffix
      is empty exactly when only the first borrower is named, it is `AND ORS`
      exactly when all three are, and `AND ANR` otherwise. */
  lemma DeriveOptionNamed(row: Row)
    ensures DeriveOption(row) == "" <==>
      Named(row, FirstKey) && !Named(row, SecondKey) && !Named(row, ThirdKey)
    ensures DeriveOption(row) == AllThree <==>
      Named(row, FirstKey) && Named(row, SecondKey) && Named(row, ThirdKey)
    ensures DeriveOption(row) == AndAnother <==>
      !(Named(row, FirstKey) && !Named(row, SecondKey) && !Named(row, ThirdKey)) &&
      !(Named(row, FirstKey) && Named(row, SecondKey) && Named(row, ThirdKey))
  {
    CleanLookupNamed(row, FirstKey);
    CleanLookupNamed(row, SecondKey);
    CleanLookupNamed(row, ThirdKey);
  }

  /** A name made only of whitespace counts as absent. */
  lemma BlankNameIsAbsent(row: Row, key: string)
    requires key in row && row[key].Some? && AllSpace(row[key].value)
    ensures CleanValue(Lookup(row, key)) == ""
  {
    CleanLookupNamed(row, key);
  }

  /** Alice, Bob and Carol give `AND ORS`; dropping Carol gives `AND ANR`;
      Alice alone gives the empty suffix; Bob without Alice gives `AND ANR`. */
  lemma OptionExamples(alice: string, bob: string, carol: string)
    requires alice == "Alice" && bob == "Bob" && carol == "Carol"
    ensures OptionValue(alice, bob, carol) == "AND ORS"
    ensures OptionValue(alice, bob, "") == "AND ANR"
    ensures OptionValue(alice, "", "") == ""
    ensures OptionValue("", bob, "") == "AND ANR"
  {
  }
}
