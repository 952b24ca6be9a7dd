/**
 * Reading summaries from a Google spreadsheet: the user's category picks the
 * sheet, and the sheet's rows (after the header) become records. The fetch
 * and the user lookup are outside the model.
 */
module GoogleSheets {
  import opened Maybe
  import opened JsBuiltins

  /** One record; a cell beyond the end of a short row reads as `undefined` (None). */
  datatype SheetData = SheetData(id: Option<string>, text: Option<string>, summary: Option<string>)

  /** The categories with a sheet of their own, and that sheet's name. */
  const CategorySheets: seq<(string, string)> := [
    ("expert", "ExpertSummaries"),
    ("researcher", "ResearcherSummaries"),
    ("pre-med", "PreMedSummaries"),
    ("layman", "LaymanSummaries")
  ]

  const DefaultSheet: string := "GeneralSummaries"

  /** `getCategorySheetName`: the sheet listed for the category, and the general sheet for any other category. */
  function CategorySheetName(category: string): (sheet: string)
    ensures forall i :: 0 <= i < |CategorySheets| ==>
      (category == CategorySheets[i].0 <==> sheet == CategorySheets[i].1)
    ensures sheet == DefaultSheet <==> forall i :: 0 <= i < |CategorySheets| ==> category != CategorySheets[i].0
  {
    assert CategorySheets[0].0 == "expert" && CategorySheets[1].0 == "researcher";
    assert CategorySheets[2].0 == "pre-med" && CategorySheets[3].0 == "layman";
    match category
    case "expert" => "ExpertSummaries"
    case "researcher" => "ResearcherSummaries"
    case "pre-med" => "PreMedSummaries"
    case "layman" => "LaymanSummaries"
    case _ => "GeneralSummaries"
  }

  /** `row[k]`. */
  function Cell(row: seq<string>, k: nat): Option<string> {
    if k < |row| then Some(row[k]) else None
  }

  /** The `map` callback: columns ID, original text and summary. */
  function RowData(row: seq<string>): SheetData {
    SheetData(Cell(row, 0), Cell(row, 1), Cell(row, 2))
  }

  function MapRows(rows: seq<seq<string>>): (r: seq<SheetData>)
    ensures |r| == |rows|
    ensures forall i :: 0 <= i < |rows| ==> r[i] == RowData(rows[i])
  {
    if rows == [] then [] else [RowData(rows[0])] + MapRows(rows[1..])
  }

  /** `values.slice(1).map(...)`: the header row is dropped and every other row becomes one record, in order. */
  function ParseSheetData(values: seq<seq<string>>): (r: seq<SheetData>)
    ensures |r| == if |values| == 0 then 0 else |values| - 1
    ensures forall i :: 0 <= i < |r| ==>
      r[i] == SheetData(Cell(values[i + 1], 0), Cell(values[i + 1], 1), Cell(values[i + 1], 2))
  {
    assert values != [] ==> Slice(values, 1, |values|) == values[1..];
    MapRows(Slice(values, 1, |values|))
  }

  /** A row with all three columns gives its id, text and summary as they are. */
  lemma FullRowsReadAsIs(values: seq<seq<string>>, i: nat)
    requires i + 1 < |values| && |values[i + 1]| >= 3
    ensures ParseSheetData(values)[i] == SheetData(Some(values[i + 1][0]), Some(values[i + 1][1]), Some(values[i + 1][2]))
  {
  }
}
