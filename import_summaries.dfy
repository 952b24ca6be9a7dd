/**
 * The import script's core: every CSV record (an abstract with up to four
 * lay-level summaries) expands into one summary row per filled-in level. The
 * file reading, CSV parsing, uuids and the database write are outside the
 * model; the timestamp `new Date()` taken once per record is an input.
 */
module ImportSummaries {
  import opened Maybe

  /** A parsed CSV record with the columns the script reads. */
  datatype CsvRecord = CsvRecord(
    id: string,
    inputText: string,
    layPeople: string,
    preMedStudents: string,
    researchers: string,
    expertsInField: string)

  datatype Level = LAYMAN | PREMED | RESEARCHER | EXPERT

  /** One `TextSummary` row to create (its uuid is not modelled); only the LAYMAN row has a `pmid` key. */
  datatype SummaryRow = SummaryRow(pmid: Option<string>, text: string, summary: string, createdAt: nat, level: Level)

  /** The position of a level in the order the script pushes them. */
  function LevelRank(level: Level): nat {
    match level
    case LAYMAN => 0
    case PREMED => 1
    case RESEARCHER => 2
    case EXPERT => 3
  }

  /** The column a level's summary is read from. */
  function Column(record: CsvRecord, level: Level): string {
    match level
    case LAYMAN => record.layPeople
    case PREMED => record.preMedStudents
    case RESEARCHER => record.researchers
    case EXPERT => record.expertsInField
  }

  function RowFor(record: CsvRecord, createdAt: nat, level: Level): SummaryRow {
    SummaryRow(if level == LAYMAN then Some(record.id) else None, record.inputText, Column(record, level), createdAt, level)
  }

  /** The row a level contributes: one when its column is non-empty, none otherwise. */
  function RowIfFilled(record: CsvRecord, createdAt: nat, level: Level): seq<SummaryRow> {
    if Column(record, level) != "" then [RowFor(record, createdAt, level)] else []
  }

  /** The rows of one record, as the levels with a non-empty (truthy) column, in level order. */
  function RowsOf(record: CsvRecord, createdAt: nat, levels: seq<Level>): seq<SummaryRow> {
    if levels == [] then []
    else
      RowIfFilled(record, createdAt, levels[0]) + RowsOf(record, createdAt, levels[1..])
  }

  const Levels: seq<Level> := [LAYMAN, PREMED, RESEARCHER, EXPERT]

  function RecordRows(record: CsvRecord, createdAt: nat): seq<SummaryRow> {
    RowsOf(record, createdAt, Levels)
  }

  lemma RecordRowsByLevel(record: CsvRecord, createdAt: nat)
    ensures RecordRows(record, createdAt)
      == RowIfFilled(record, createdAt, LAYMAN) + (RowIfFilled(record, createdAt, PREMED)
         + (RowIfFilled(record, createdAt, RESEARCHER) + RowIfFilled(record, createdAt, EXPERT)))
  {
    assert Levels[1..] == [PREMED, RESEARCHER, EXPERT];
    assert [PREMED, RESEARCHER, EXPERT][1..] == [RESEARCHER, EXPERT];
    assert [RESEARCHER, EXPERT][1..] == [EXPERT];
    assert [EXPERT][1..] == [];
    var e := RowIfFilled(record, createdAt, EXPERT);
    assert RowsOf(record, createdAt, [EXPERT]) == e + [] == e;
    assert RowsOf(record, createdAt, [RESEARCHER, EXPERT]) == RowIfFilled(record, createdAt, RESEARCHER) + e;
    assert RowsOf(record, createdAt, [PREMED, RESEARCHER, EXPERT])
      == RowIfFilled(record, createdAt, PREMED) + RowsOf(record, createdAt, [RESEARCHER, EXPERT]);
  }

  lemma AppendFour<T>(a: seq<T>, b: seq<T>, c: seq<T>, d: seq<T>)
    ensures a + b + c + d == a + (b + (c + d))
  {
  }

  /** The body of the `flatMap` callback: one conditional push per level column. */
  method SummariesForRecord(record: CsvRecord, createdAt: nat) returns (summariesForRecord: seq<SummaryRow>)
    ensures summariesForRecord == RecordRows(record, createdAt)
  {
    summariesForRecord := [];
    if record.layPeople != "" {
      summariesForRecord := summariesForRecord + [SummaryRow(Some(record.id), record.inputText, record.layPeople, createdAt, LAYMAN)];
    }
    assert summariesForRecord == RowIfFilled(record, createdAt, LAYMAN);
    ghost var soFar := summariesForRecord;
    if record.preMedStudents != "" {
      summariesForRecord := summariesForRecord + [SummaryRow(None, record.inputText, record.preMedStudents, createdAt, PREMED)];
    }
    assert summariesForRecord == soFar + RowIfFilled(record, createdAt, PREMED);
    soFar := summariesForRecord;
    if record.researchers != "" {
      summariesForRecord := summariesForRecord + [SummaryRow(None, record.inputText, record.researchers, createdAt, RESEARCHER)];
    }
    assert summariesForRecord == soFar + RowIfFilled(record, createdAt, RESEARCHER);
    soFar := summariesForRecord;
    if record.expertsInField != "" {
      summariesForRecord := summariesForRecord + [SummaryRow(None, record.inputText, record.expertsInField, createdAt, EXPERT)];
    }
    assert summariesForRecord == soFar + RowIfFilled(record, createdAt, EXPERT);
    RecordRowsByLevel(record, createdAt);
    AppendFour(RowIfFilled(record, createdAt, LAYMAN), RowIfFilled(record, createdAt, PREMED),
      RowIfFilled(record, createdAt, RESEARCHER), RowIfFilled(record, createdAt, EXPERT));
  }

  /** `records.flatMap(...)`, with the timestamp each record's callback reads: at most four rows a record. */
  function AllRows(records: seq<CsvRecord>, stamps: seq<nat>): (rows: seq<SummaryRow>)
    requires |stamps| == |records|
    ensures |rows| <= 4 * |records|
  {
    if records == [] then []
    else
      RowsOfShape(records[0], stamps[0], Levels);
      RecordRows(records[0], stamps[0]) + AllRows(records[1..], stamps[1..])
  }

  // ---------------------------------------------------------------------------
  // What one record yields

  /** Rows of a list of levels, one per level with a filled-in column, each row carrying its level's data. */
  lemma {:induction false} RowsOfShape(record: CsvRecord, createdAt: nat, levels: seq<Level>)
    ensures |RowsOf(record, createdAt, levels)| <= |levels|
    ensures forall level :: level in levels && Column(record, level) != "" ==>
      RowFor(record, createdAt, level) in RowsOf(record, createdAt, levels)
    ensures forall row :: row in RowsOf(record, createdAt, levels) ==>
      row.level in levels && Column(record, row.level) != "" && row == RowFor(record, createdAt, row.level)
  {
    if levels != [] {
      RowsOfShape(record, createdAt, levels[1..]);
    }
  }

  /** Rows of a list of levels follow the list's order. */
  lemma {:induction false} RowsOfOrdered(record: CsvRecord, createdAt: nat, levels: seq<Level>)
    requires forall i, j :: 0 <= i < j < |levels| ==> LevelRank(levels[i]) < LevelRank(levels[j])
    ensures var rows := RowsOf(record, createdAt, levels);
      forall i, j :: 0 <= i < j < |rows| ==> LevelRank(rows[i].level) < LevelRank(rows[j].level)
  {
    if levels != [] {
      var rest := RowsOf(record, createdAt, levels[1..]);
      RowsOfOrdered(record, createdAt, levels[1..]);
      RowsOfShape(record, createdAt, levels[1..]);
      forall row | row in rest ensures LevelRank(levels[0]) < LevelRank(row.level) {
        var k :| 0 <= k < |levels[1..]| && levels[1..][k] == row.level;
        assert levels[k + 1] == row.level;
      }
    }
  }

  /**
   * A record yields 0 to 4 rows, one per non-empty level column, in the order
   * LAYMAN, PREMED, RESEARCHER, EXPERT; every row carries the record's text and
   * timestamp, the summary from its level's column, and a `pmid` exactly when
   * it is the LAYMAN row.
   */
  lemma RecordRowsShape(record: CsvRecord, createdAt: nat)
    ensures var rows := RecordRows(record, createdAt);
      && |rows| <= 4
      && (forall level :: (exists k :: 0 <= k < |rows| && rows[k].level == level) <==> Column(record, level) != "")
      && (forall i, j :: 0 <= i < j < |rows| ==> LevelRank(rows[i].level) < LevelRank(rows[j].level))
      && (forall row :: row in rows ==>
            && row.text == record.inputText && row.createdAt == createdAt
            && row.summary == Column(record, row.level) && row.summary != ""
            && (row.pmid.Some? <==> row.level == LAYMAN)
            && (row.pmid.Some? ==> row.pmid.value == record.id))
  {
    var rows := RecordRows(record, createdAt);
    RowsOfShape(record, createdAt, Levels);
    RowsOfOrdered(record, createdAt, Levels);
    forall level ensures level in Levels {
      match level
      case LAYMAN =>
      case PREMED => assert Levels[1] == level;
      case RESEARCHER => assert Levels[2] == level;
      case EXPERT => assert Levels[3] == level;
    }
    forall level | Column(record, level) != "" ensures exists k :: 0 <= k < |rows| && rows[k].level == level {
      var k :| 0 <= k < |rows| && rows[k] == RowFor(record, createdAt, level);
    }
  }

  // ---------------------------------------------------------------------------
  // The whole import

  /** The output is the per-record lists, concatenated in record order. */
  lemma {:induction false} AllRowsAppend(a: seq<CsvRecord>, sa: seq<nat>, b: seq<CsvRecord>, sb: seq<nat>)
    requires |sa| == |a| && |sb| == |b|
    ensures AllRows(a + b, sa + sb) == AllRows(a, sa) + AllRows(b, sb)
  {
    if a == [] {
      assert a + b == b && sa + sb == sb;
    } else {
      assert (a + b)[1..] == a[1..] + b && (sa + sb)[1..] == sa[1..] + sb;
      AllRowsAppend(a[1..], sa[1..], b, sb);
    }
  }

  /** A record yields no row exactly when all four level columns are empty. */
  lemma RecordRowsEmptyIff(record: CsvRecord, createdAt: nat)
    ensures RecordRows(record, createdAt) == [] <==> forall level :: Column(record, level) == ""
  {
    var rows := RecordRows(record, createdAt);
    RecordRowsShape(record, createdAt);
    if rows != [] {
      assert Column(record, rows[0].level) != "";
    }
  }

  /** Nothing is imported exactly when no record has any filled-in level column. */
  lemma {:induction false} NoRowsIffAllEmpty(records: seq<CsvRecord>, stamps: seq<nat>)
    requires |stamps| == |records|
    ensures AllRows(records, stamps) == [] <==>
      forall i, level :: 0 <= i < |records| ==> Column(records[i], level) == ""
  {
    if records != [] {
      var rest := records[1..];
      NoRowsIffAllEmpty(rest, stamps[1..]);
      RecordRowsEmptyIff(records[0], stamps[0]);
      assert AllRows(records, stamps) == RecordRows(records[0], stamps[0]) + AllRows(rest, stamps[1..]);
      if forall i, level :: 0 <= i < |records| ==> Column(records[i], level) == "" {
        forall i, level | 0 <= i < |rest| ensures Column(rest[i], level) == "" {
          assert rest[i] == records[i + 1];
        }
      } else {
        var i, level :| 0 <= i < |records| && Column(records[i], level) != "";
        if i > 0 {
          assert rest[i - 1] == records[i];
        }
      }
    }
  }

  /** The rows `importSummaries` hands to `createMany`, or None when there is nothing to import. */
  function ImportPlan(records: seq<CsvRecord>, stamps: seq<nat>): (plan: Option<seq<SummaryRow>>)
    requires |stamps| == |records|
    ensures plan.None? <==> forall i, level :: 0 <= i < |records| ==> Column(records[i], level) == ""
    ensures plan.Some? ==> plan.value == AllRows(records, stamps) && plan.value != []
  {
    NoRowsIffAllEmpty(records, stamps);
    var summaries := AllRows(records, stamps);
    if |summaries| == 0 then None else Some(summaries)
  }
}
