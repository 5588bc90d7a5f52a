/**
  The report content the report generator derives from the patient record,
  the latest reading and the historical readings: the export file names,
  the current-vitals cells, the temperature-trend rows, the posture table,
  the health summary lines, the CSV text and the preview figures.

  Number text (`${x}` on a number) and locale time text
  (`new Date(t).toLocaleString()`) are parameters `num` and `time`; the
  PDF layout around the content is not modelled.
 */
module ReportGeneration {

  import opened Wrappers
  import opened JsValues
  import opened Text
  import opened Tally
  import VitalsOverview

  datatype PatientInfo = PatientInfo(
    patientId: string,
    name: string,
    age: int,
    bloodGroup: string,
    phone: string,
    email: string)

  // ---------------------------------------------------------------- file names

  /**
    `health_report_` followed by the patient's name with each run of white
    space replaced by one `_`, or `health_report` without a patient.
   */
  function ReportBaseName(patient: Option<PatientInfo>): (r: string)
    ensures NoSpace(r)
    ensures patient.None? <==> r == "health_report"
    ensures patient.Some? ==> |r| >= 14 && r[..14] == "health_report_" && r[14..] == CollapseSpaces(patient.value.name)
  {
    if patient.Some? then "health_report_" + CollapseSpaces(patient.value.name) else "health_report"
  }

  /** The export writes `<base>.pdf` and `<base>.csv`. */
  function ExportFileNames(patient: Option<PatientInfo>): (names: (string, string))
    ensures names.0 == ReportBaseName(patient) + ".pdf"
    ensures names.1 == ReportBaseName(patient) + ".csv"
  {
    var base := ReportBaseName(patient);
    (base + ".pdf", base + ".csv")
  }

  /** The name `sendToDoctor` saves the PDF under locally, before it posts the PDF to the e-mail route. */
  function SentFileName(patient: Option<PatientInfo>): string {
    if patient.Some? then "health_report_" + CollapseSpaces(patient.value.name) + ".pdf" else "health_report.pdf"
  }

  /** The PDF that `sendToDoctor` saves locally gets the export name; the mailed attachment is named by the route. */
  lemma SameFileNameBothWays(patient: Option<PatientInfo>)
    ensures SentFileName(patient) == ExportFileNames(patient).0
  {
  }

  /** Names that differ only in how much white space separates the words give the same file name. */
  lemma FileNameIgnoresSpaceRuns(p: PatientInfo, q: PatientInfo, first: string, last: string, w1: string, w2: string)
    requires NoSpace(first) && last != [] && !IsSpace(last[0])
    requires w1 != [] && AllSpace(w1) && w2 != [] && AllSpace(w2)
    requires p.name == first + w1 + last && q.name == first + w2 + last
    ensures ReportBaseName(Some(p)) == ReportBaseName(Some(q)) == "health_report_" + first + "_" + CollapseSpaces(last)
  {
    CollapseRun(first, w1, last);
    CollapseRun(first, w2, last);
  }

  // ---------------------------------------------------------------- current vitals cells

  /** `x ? `${x}<unit>` : '--'`: the value and its unit, or "--" when the value is missing or 0. */
  function UnitCell(x: Nullable<real>, unit: string, num: real -> string): (cell: string)
    requires unit != "" && unit[|unit| - 1] != '-'
    ensures cell == "--" <==> !TruthyNum(x)
    ensures TruthyNum(x) ==> cell == num(x.v) + unit
  {
    if TruthyNum(x) then
      var cell := num(x.v) + unit;
      assert cell[|cell| - 1] == unit[|unit| - 1];
      cell
    else "--"
  }

  /** `vitals?.position || '--'`. */
  function PostureCell(vitals: Option<Reading>): (cell: string)
    ensures vitals.Some? && TruthyStr(vitals.value.position) ==> cell == vitals.value.position.v
    ensures !(vitals.Some? && TruthyStr(vitals.value.position)) ==> cell == "--"
  {
    if vitals.Some? && TruthyStr(vitals.value.position) then vitals.value.position.v else "--"
  }

  /** The one body row of the current-vitals table: temperature, heart rate, SpO2, posture. */
  function VitalsCells(vitals: Option<Reading>, num: real -> string): (cells: seq<string>)
    ensures |cells| == 4
    ensures cells[0] == "--" <==> vitals.None? || !TruthyNum(vitals.value.temperature)
    ensures cells[1] == "--" <==> vitals.None? || !TruthyNum(vitals.value.heartRate)
    ensures cells[2] == "--" <==> vitals.None? || !TruthyNum(vitals.value.spo2)
    ensures vitals.Some? && TruthyNum(vitals.value.temperature) ==> cells[0] == num(vitals.value.temperature.v) + "°C"
    ensures vitals.Some? && TruthyNum(vitals.value.heartRate) ==> cells[1] == num(vitals.value.heartRate.v) + " bpm"
    ensures vitals.Some? && TruthyNum(vitals.value.spo2) ==> cells[2] == num(vitals.value.spo2.v) + "%"
    ensures cells[3] == PostureCell(vitals)
  {
    if vitals.None? then ["--", "--", "--", "--"]
    else
      var v := vitals.value;
      [UnitCell(v.temperature, "°C", num), UnitCell(v.heartRate, " bpm", num),
       UnitCell(v.spo2, "%", num), PostureCell(vitals)]
  }

  /** A reading of exactly 0 is shown as missing. */
  lemma ZeroShownAsMissing(v: Reading, num: real -> string)
    requires v.temperature == Val(0.0) && v.spo2 == Val(0.0)
    ensures VitalsCells(Some(v), num)[0] == "--" && VitalsCells(Some(v), num)[2] == "--"
  {
  }

  // ---------------------------------------------------------------- temperature trend rows

  /** `d.recorded_at ? new Date(d.recorded_at).toLocaleString() : '--'`. */
  function TimeCell(d: Reading, time: string -> string): string {
    if TruthyStr(d.recordedAt) then time(d.recordedAt.v) else "--"
  }

  /** `d.temperature ?? '--'`: 0 is kept, only null and undefined become "--". */
  function NullishTemperatureCell(d: Reading, num: real -> string): (cell: string)
    ensures d.temperature.Val? ==> cell == num(d.temperature.v)
    ensures IsNullish(d.temperature) ==> cell == "--"
  {
    if d.temperature.Val? then num(d.temperature.v) else "--"
  }

  /** The trend table with a patient: `d.temperature ? `${t}°C` : '--'`. */
  function TrendRows(historical: seq<Reading>, time: string -> string, num: real -> string): (rows: seq<seq<string>>)
    ensures |rows| == |historical|
    ensures forall i :: 0 <= i < |rows| ==>
      rows[i] == [TimeCell(historical[i], time), UnitCell(historical[i].temperature, "°C", num)]
  {
    seq(|historical|, i requires 0 <= i < |historical| =>
      [TimeCell(historical[i], time), UnitCell(historical[i].temperature, "°C", num)])
  }

  /** The trend table without a patient: `d.temperature ?? '--'`. */
  function FallbackTrendRows(historical: seq<Reading>, time: string -> string, num: real -> string): (rows: seq<seq<string>>)
    ensures |rows| == |historical|
    ensures forall i :: 0 <= i < |rows| ==>
      rows[i] == [TimeCell(historical[i], time), NullishTemperatureCell(historical[i], num)]
  {
    seq(|historical|, i requires 0 <= i < |historical| =>
      [TimeCell(historical[i], time), NullishTemperatureCell(historical[i], num)])
  }

  /**
    The two trend tables disagree about missing data exactly at a
    temperature of 0: the first shows "--", the fallback shows the number.
   */
  lemma TrendBranchesDisagreeOnlyAtZero(historical: seq<Reading>, time: string -> string, num: real -> string, i: nat)
    requires i < |historical|
    requires forall x :: num(x) != "--"
    ensures (TrendRows(historical, time, num)[i][1] == "--") != (FallbackTrendRows(historical, time, num)[i][1] == "--")
        <==> historical[i].temperature == Val(0.0)
  {
  }

  // ---------------------------------------------------------------- posture table

  /**
    The `forEach` that tallies the truthy positions of `historical || []`
    (the same counts feed the posture table and the summary line).
   */
  method PostureTally(historical: Option<seq<Reading>>) returns (keys: seq<string>, counts: map<string, nat>)
    ensures IsTallyOf(TruthyPositions(if historical.Some? then historical.value else []), keys, counts)
  {
    var rows := if historical.Some? then historical.value else [];
    keys, counts := CountKeys(TruthyPositions(rows));
  }

  /**
    `Object.entries(counts).map(...)`: posture, count and rounded percentage,
    in the order the postures were first counted; "0%" when the total is 0.
   */
  function PostureTable(keys: seq<string>, counts: map<string, nat>): seq<seq<string>>
    requires forall k :: k in keys ==> k in counts
  {
    var total := SumCounts(keys, counts);
    seq(|keys|, i requires 0 <= i < |keys| =>
      [keys[i], Decimal(counts[keys[i]]), if total > 0 then Decimal(Percent(counts[keys[i]], total)) + "%" else "0%"])
  }

  /**
    table is the posture table of the tallied positions ps: one row per
    distinct position, in order of first appearance, with its count and its
    rounded share of all tallied positions.
   */
  ghost predicate PostureTableOf(ps: seq<string>, table: seq<seq<string>>) {
    && (forall i :: 0 <= i < |table| ==>
          && |table[i]| == 3
          && table[i][0] in ps
          && table[i][1] == Decimal(multiset(ps)[table[i][0]])
          && table[i][2] == Decimal(Percent(multiset(ps)[table[i][0]], |ps|)) + "%")
    && (forall p :: p in ps ==> exists i :: 0 <= i < |table| && table[i][0] == p)
    && (forall i, j :: 0 <= i < j < |table| ==> FirstIndex(ps, table[i][0]) < FirstIndex(ps, table[j][0]))
  }

  lemma PostureTableIsTableOf(ps: seq<string>, keys: seq<string>, counts: map<string, nat>)
    requires IsTallyOf(ps, keys, counts)
    ensures PostureTableOf(ps, PostureTable(keys, counts))
  {
    var table := PostureTable(keys, counts);
    forall i | 0 <= i < |table|
      ensures |table[i]| == 3 && table[i][0] in ps
      ensures table[i][1] == Decimal(multiset(ps)[table[i][0]])
      ensures table[i][2] == Decimal(Percent(multiset(ps)[table[i][0]], |ps|)) + "%"
    {
      PostureTableRow(ps, keys, counts, i);
    }
    forall p | p in ps ensures exists i :: 0 <= i < |table| && table[i][0] == p {
      assert p in keys;
      var i :| 0 <= i < |keys| && keys[i] == p;
      assert table[i][0] == p;
    }
  }

  lemma PostureTableRow(ps: seq<string>, keys: seq<string>, counts: map<string, nat>, i: nat)
    requires IsTallyOf(ps, keys, counts)
    requires i < |keys|
    ensures var row := PostureTable(keys, counts)[i];
      && |row| == 3 && row[0] == keys[i] && keys[i] in ps
      && row[1] == Decimal(multiset(ps)[keys[i]])
      && row[2] == Decimal(Percent(multiset(ps)[keys[i]], |ps|)) + "%"
  {
    TallyTotal(ps, keys, counts);
  }

  /** The sum of the count column, read back as numbers. */
  function SumCountCells(table: seq<seq<string>>): nat
    requires forall i :: 0 <= i < |table| ==> |table[i]| >= 2 && AllDigits(table[i][1])
  {
    if table == [] then 0 else DecimalValue(table[0][1]) + SumCountCells(table[1..])
  }

  function FirstColumn(table: seq<seq<string>>): (keys: seq<string>)
    requires forall i :: 0 <= i < |table| ==> |table[i]| >= 1
    ensures |keys| == |table| && forall i :: 0 <= i < |table| ==> keys[i] == table[i][0]
  {
    seq(|table|, i requires 0 <= i < |table| => table[i][0])
  }

  lemma {:induction false} SumCountCellsIsMultiplicities(table: seq<seq<string>>, m: multiset<string>)
    requires forall i :: 0 <= i < |table| ==> |table[i]| >= 2 && AllDigits(table[i][1]) && table[i][1] == Decimal(m[table[i][0]])
    ensures SumCountCells(table) == SumMultiplicities(FirstColumn(table), m)
  {
    if table != [] {
      SumCountCellsIsMultiplicities(table[1..], m);
      DecimalRoundTrip(m[table[0][0]]);
      assert FirstColumn(table)[1..] == FirstColumn(table[1..]);
    }
  }

  /** The counts in the posture table add up to the number of positions tallied. */
  lemma PostureTableCountsAddUp(ps: seq<string>, table: seq<seq<string>>)
    requires PostureTableOf(ps, table)
    ensures SumCountCells(table) == |ps|
  {
    var keys := FirstColumn(table);
    forall i, j | 0 <= i < j < |keys| ensures keys[i] != keys[j] {
      assert FirstIndex(ps, keys[i]) < FirstIndex(ps, keys[j]);
    }
    forall x | x in ps ensures x in keys {
      var i :| 0 <= i < |table| && table[i][0] == x;
      assert keys[i] == x;
    }
    SumCountCellsIsMultiplicities(table, multiset(ps));
    SumMultiplicitiesCover(ps, keys);
  }

  // ---------------------------------------------------------------- health summary

  /** `vitals?.temperature && vitals.temperature > 37.5`. */
  function TemperatureStatus(vitals: Option<Reading>): (s: string)
    ensures s == "Elevated Temperature" <==> vitals.Some? && vitals.value.temperature.Val? && vitals.value.temperature.v > 37.5
    ensures s != "Elevated Temperature" ==> s == "Normal Temperature"
  {
    if vitals.Some? && TruthyNum(vitals.value.temperature) && Gt(vitals.value.temperature, 37.5)
    then "Elevated Temperature" else "Normal Temperature"
  }

  /** The heart-rate band: above 100, below 60, or between; "Not Available" when missing or 0. */
  function HeartRateBand(vitals: Option<Reading>): (s: string)
    ensures s == "Not Available" <==> vitals.None? || !TruthyNum(vitals.value.heartRate)
    ensures s == "Elevated" <==> vitals.Some? && TruthyNum(vitals.value.heartRate) && vitals.value.heartRate.v > 100.0
    ensures s == "Low" <==> vitals.Some? && TruthyNum(vitals.value.heartRate) && vitals.value.heartRate.v < 60.0
    ensures s == "Normal" <==> vitals.Some? && TruthyNum(vitals.value.heartRate) && 60.0 <= vitals.value.heartRate.v <= 100.0
  {
    if vitals.Some? && TruthyNum(vitals.value.heartRate) then
      var h := vitals.value.heartRate;
      if Gt(h, 100.0) then "Elevated" else if Lt(h, 60.0) then "Low" else "Normal"
    else "Not Available"
  }

  /** The oxygen-saturation band: below 95 or not; "Not Available" when missing or 0. */
  function SpO2Band(vitals: Option<Reading>): (s: string)
    ensures s == "Not Available" <==> vitals.None? || !TruthyNum(vitals.value.spo2)
    ensures s == "Below Normal" <==> vitals.Some? && TruthyNum(vitals.value.spo2) && vitals.value.spo2.v < 95.0
    ensures s == "Normal" <==> vitals.Some? && TruthyNum(vitals.value.spo2) && vitals.value.spo2.v >= 95.0
  {
    if vitals.Some? && TruthyNum(vitals.value.spo2) then
      if Lt(vitals.value.spo2, 95.0) then "Below Normal" else "Normal"
    else "Not Available"
  }

  /** `Object.keys(counts).length > 0 ? <first entry after sorting by count> : 'Not Available'`. */
  function MostCommonPosition(keys: seq<string>, counts: map<string, nat>): string
    requires forall k :: k in keys ==> k in counts
  {
    if |keys| > 0 then Leader(keys, counts).value else "Not Available"
  }

  /** The report names the most common truthy position, or says there is none. */
  lemma MostCommonPositionIsMode(ps: seq<string>, keys: seq<string>, counts: map<string, nat>)
    requires IsTallyOf(ps, keys, counts)
    ensures ps == [] ==> MostCommonPosition(keys, counts) == "Not Available"
    ensures ps != [] ==> IsModeOf(ps, MostCommonPosition(keys, counts))
  {
    LeaderIsMode(ps, keys, counts);
  }

  /** The five lines of the health summary, each starting with a bullet. */
  function SummaryLines(patient: PatientInfo, vitals: Option<Reading>, keys: seq<string>, counts: map<string, nat>): (lines: seq<string>)
    requires forall k :: k in keys ==> k in counts
    ensures |lines| == 5
    ensures forall i :: 0 <= i < 5 ==> |lines[i]| >= 2 && lines[i][..2] == "• "
  {
    ["• Patient: " + patient.name + " (" + patient.patientId + ")",
     "• Current Status: " + TemperatureStatus(vitals),
     "• Heart Rate: " + HeartRateBand(vitals),
     "• Oxygen Saturation: " + SpO2Band(vitals),
     "• Most Common Sleep Position: " + MostCommonPosition(keys, counts)]
  }

  /**
    The report and the trends card name the same most common posture
    whenever there is one: both pick the mode of the truthy positions.
   */
  lemma ReportAgreesWithTrendsCard(historical: seq<Reading>, keys: seq<string>, counts: map<string, nat>, card: VitalsOverview.TrendSummary)
    requires IsTallyOf(TruthyPositions(historical), keys, counts)
    requires TruthyPositions(historical) != [] && IsModeOf(TruthyPositions(historical), card.mostCommonPosture)
    ensures MostCommonPosition(keys, counts) == card.mostCommonPosture
  {
    MostCommonPositionIsMode(TruthyPositions(historical), keys, counts);
    ModeUnique(TruthyPositions(historical), MostCommonPosition(keys, counts), card.mostCommonPosture);
  }

  // ---------------------------------------------------------------- CSV

  /** One CSV record: time, `temperature ?? '--'`, `position ?? '--'`. */
  function CsvRecord(d: Reading, time: string -> string, num: real -> string): seq<string> {
    [TimeCell(d, time), NullishTemperatureCell(d, num), if d.position.Val? then d.position.v else "--"]
  }

  const CsvHeader: seq<string> := ["Time", "Temperature", "Position"]

  /** The header and one record per reading, each joined with "," and the lines joined with "\n". */
  function CsvLines(historical: seq<Reading>, time: string -> string, num: real -> string): (lines: seq<string>)
    ensures |lines| == |historical| + 1
    ensures lines[0] == Join(CsvHeader, ',') == "Time,Temperature,Position"
    ensures forall i :: 0 <= i < |historical| ==> lines[i + 1] == Join(CsvRecord(historical[i], time, num), ',')
  {
    [Join(CsvHeader, ',')] + seq(|historical|, i requires 0 <= i < |historical| => Join(CsvRecord(historical[i], time, num), ','))
  }

  function CsvText(historical: seq<Reading>, time: string -> string, num: real -> string): string {
    Join(CsvLines(historical, time, num), '\n')
  }

  /** No cell text of a reading holds the given character. */
  predicate CellsAvoid(historical: seq<Reading>, time: string -> string, num: real -> string, c: char) {
    forall i :: 0 <= i < |historical| ==> forall k :: 0 <= k < 3 ==> c !in CsvRecord(historical[i], time, num)[k]
  }

  /**
    When no cell holds a line break, the CSV text has exactly one line per
    reading after the header, and each line is its record.
   */
  lemma CsvLineCount(historical: seq<Reading>, time: string -> string, num: real -> string)
    requires CellsAvoid(historical, time, num, '\n')
    ensures Split(CsvText(historical, time, num), '\n') == CsvLines(historical, time, num)
    ensures |Split(CsvText(historical, time, num), '\n')| == |historical| + 1
  {
    var lines := CsvLines(historical, time, num);
    forall i | 0 <= i < |lines| ensures '\n' !in lines[i] {
      if i > 0 {
        JoinWithoutSeparator(CsvRecord(historical[i - 1], time, num), ',', '\n');
      }
    }
    SplitJoin(lines, '\n');
  }

  /** A record whose cells hold no comma reads back as its three cells. */
  lemma CsvRecordFields(d: Reading, time: string -> string, num: real -> string)
    requires forall k :: 0 <= k < 3 ==> ',' !in CsvRecord(d, time, num)[k]
    ensures Split(Join(CsvRecord(d, time, num), ','), ',') == CsvRecord(d, time, num)
  {
    SplitJoin(CsvRecord(d, time, num), ',');
  }

  /**
    Cells are not quoted: a time text with a comma in it (as a locale time
    such as "1/2/2025, 10:00:00 PM" has) splits its record into more than
    three fields.
   */
  lemma CommaInTimeShiftsColumns(d: Reading, time: string -> string, num: real -> string, before: string, after: string)
    requires TruthyStr(d.recordedAt) && time(d.recordedAt.v) == before + "," + after
    ensures |Split(Join(CsvRecord(d, time, num), ','), ',')| > 3
  {
    var r := CsvRecord(d, time, num);
    assert r[1..][1..] == [r[2]];
    assert Join(r[1..], ',') == r[1] + [','] + r[2];
    assert Join(r, ',') == r[0] + [','] + (r[1] + [','] + r[2]);
    assert r[0] == before + [','] + after;
    SplitCount(Join(r, ','), ',');
  }

  // ---------------------------------------------------------------- preview

  /** The preview average: the mean of `temperature || 0`, or nothing ("--") without rows. */
  function PreviewAverage(historical: Option<seq<Reading>>): (avg: Option<real>)
    ensures avg.Some? <==> historical.Some? && historical.value != []
    ensures avg.Some? ==> avg.value * (|historical.value| as real) == TemperatureSum(historical.value)
  {
    if historical.Some? && |historical.value| > 0 then Some(MeanTemperature(historical.value)) else None
  }

  /** The preview flag: some row above 37.5. SpO2 is not looked at. */
  function PreviewFlag(historical: Option<seq<Reading>>): (flag: bool)
    ensures flag <==> historical.Some? && exists i :: 0 <= i < |historical.value| && Gt(historical.value[i].temperature, 37.5)
  {
    historical.Some? && HighTemperatureFrom(historical.value)
  }

  function HighTemperatureFrom(rows: seq<Reading>): (r: bool)
    ensures r <==> exists i :: 0 <= i < |rows| && Gt(rows[i].temperature, 37.5)
  {
    if rows == [] then false
    else
      var rest := HighTemperatureFrom(rows[1..]);
      assert rest <==> exists i :: 1 <= i < |rows| && Gt(rows[i].temperature, 37.5) by {
        if rest {
          var i :| 0 <= i < |rows[1..]| && Gt(rows[1..][i].temperature, 37.5);
          assert rows[i + 1] == rows[1..][i];
        }
        if exists i :: 1 <= i < |rows| && Gt(rows[i].temperature, 37.5) {
          var i :| 1 <= i < |rows| && Gt(rows[i].temperature, 37.5);
          assert rows[1..][i - 1] == rows[i];
        }
      }
      Gt(rows[0].temperature, 37.5) || rest
  }

  /**
    The preview flag implies the trends card's flag, but not the other way:
    a single row with SpO2 94 flags the card and not the preview.
   */
  lemma PreviewFlagWeakerThanTrendsFlag(historical: seq<Reading>)
    ensures PreviewFlag(Some(historical)) ==> VitalsOverview.AnyFlagged(historical)
    ensures var d := Reading(Val("t"), Val(36.6), Undefined, Val(94.0), Val("Left"));
      VitalsOverview.AnyFlagged([d]) && !PreviewFlag(Some([d]))
  {
    if PreviewFlag(Some(historical)) {
      var i :| 0 <= i < |historical| && Gt(historical[i].temperature, 37.5);
      assert VitalsOverview.RowFlagged(historical[i]);
    }
    var d := Reading(Val("t"), Val(36.6), Undefined, Val(94.0), Val("Left"));
    assert VitalsOverview.RowFlagged([d][0]);
  }
}
