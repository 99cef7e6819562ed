/**
 The patient-details callback of the dashboard (app.py, lines 118-150): given the
 Search button's click count and the text of the Patient ID box, it produces a
 prompt, a "not found" message, or one block of lines per matching row, with
 every lab value outside its healthy range flagged (shown in red).

 Each HTML paragraph is abstracted as a `Line`: the field it shows and whether
 it is flagged.
 */
module PatientDetails {
  import opened RangeTable
  import opened PatientTable
  import opened Sequences

  /** A value that may be absent (Python's None). */
  datatype Option<T> = None | Some(value: T)

  /** What one paragraph of the details panel shows. */
  datatype Field =
    | PatientIdField(id: string)
    | AgeField(age: real)
    | GenderField(gender: string)
    | ParamField(parameter: Param, value: real)

  /** One paragraph of the details panel; `flagged` is the red highlight. */
  datatype Line = Line(field: Field, flagged: bool)

  /** The content of the details panel. */
  datatype Details =
    | Prompt           // asks for an ID and a click on Search
    | InvalidIdPrompt  // asks for a usable ID
    | NotFound         // no row carries the ID
    | Lines(lines: seq<Line>)

  /** Python truthiness of the click count: None and 0 are the only falsy values. */
  function Clicked(nClicks: Option<int>): (c: bool)
    ensures c <==> nClicks != None && nClicks != Some(0)
  {
    nClicks.Some? && nClicks.value != 0
  }

  /** Python truthiness of the ID text: None and "" are the only falsy values. */
  function ValidId(patientId: Option<string>): (v: bool)
    ensures v <==> patientId != None && patientId != Some("")
  {
    patientId.Some? && patientId.value != ""
  }

  /** Lines shown per matching row: ID, Age, Gender, then one per lab parameter. */
  const LinesPerRow: nat := 3 + |NumericColumns|

  /** The line for parameter `p` of a row. It shows the parameter and its value
      whether or not it is flagged, and it is flagged exactly when the value lies
      below the minimum or above the maximum of the parameter's healthy range. */
  function ParamLine(row: Row, p: Param): (line: Line)
    ensures line.field == ParamField(p, Value(row, p))
    ensures line.flagged
            <==> Value(row, p) < HealthyRanges()[Label(p)].min || Value(row, p) > HealthyRanges()[Label(p)].max
  {
    Line(ParamField(p, Value(row, p)), !IsWithinHealthyRange(Value(row, p), Label(p)))
  }

  /** The parameter lines of a row for the columns `cols`, in order. */
  function ParamLines(row: Row, cols: seq<Param>): (ls: seq<Line>)
    ensures |ls| == |cols|
    ensures forall j :: 0 <= j < |cols| ==> ls[j] == ParamLine(row, cols[j])
  {
    if |cols| == 0 then [] else [ParamLine(row, cols[0])] + ParamLines(row, cols[1..])
  }

  /** The block of lines for one row: ID, Age and Gender, then each displayed
      parameter in column order. */
  function RowLines(row: Row): (ls: seq<Line>)
    ensures |ls| == LinesPerRow
  {
    [Line(PatientIdField(row.patientId), false),
     Line(AgeField(row.age), false),
     Line(GenderField(row.gender), false)]
    + ParamLines(row, NumericColumns)
  }

  /** A row's block opens with its ID, Age and Gender lines, none of them flagged. */
  lemma RowLinesHeader(row: Row)
    ensures RowLines(row)[0] == Line(PatientIdField(row.patientId), false)
    ensures RowLines(row)[1] == Line(AgeField(row.age), false)
    ensures RowLines(row)[2] == Line(GenderField(row.gender), false)
  {
  }

  /** Parameter j of the display order gets the line at offset 3 + j of a row's block. */
  lemma RowLinesParam(row: Row, j: nat)
    requires j < |NumericColumns|
    ensures RowLines(row)[3 + j] == ParamLine(row, NumericColumns[j])
  {
    var header := [Line(PatientIdField(row.patientId), false),
                   Line(AgeField(row.age), false),
                   Line(GenderField(row.gender), false)];
    var params := ParamLines(row, NumericColumns);
    assert RowLines(row) == header + params;
    assert (header + params)[3 + j] == params[j];
  }

  /** The blocks of all rows, concatenated in row order. */
  function RenderRows(rows: seq<Row>): (ls: seq<Line>)
    ensures |ls| == LinesPerRow * |rows|
  {
    FlatMapLength(rows, RowLines, LinesPerRow);
    FlatMap(rows, RowLines)
  }

  /** Rendering distributes over concatenation of row sequences: the blocks of
      earlier rows come first. */
  lemma RenderRowsAppend(a: seq<Row>, b: seq<Row>)
    ensures RenderRows(a + b) == RenderRows(a) + RenderRows(b)
  {
    FlatMapAppend(a, b, RowLines);
  }

  /** Line `j` of the block of row `k` sits at position LinesPerRow * k + j. */
  lemma RenderedLineAt(rows: seq<Row>, k: nat, j: nat)
    requires k < |rows| && j < LinesPerRow
    ensures LinesPerRow * k + j < |RenderRows(rows)|
    ensures RenderRows(rows)[LinesPerRow * k + j] == RowLines(rows[k])[j]
  {
    FlatMapAt(rows, RowLines, LinesPerRow, k, j);
  }

  /** The block of row `k` within the rendering of `rows` opens with its ID, Age
      and Gender lines, none of them flagged. */
  lemma RenderedHeaderAt(rows: seq<Row>, k: nat)
    requires k < |rows|
    ensures LinesPerRow * k + 2 < |RenderRows(rows)|
    ensures RenderRows(rows)[LinesPerRow * k] == Line(PatientIdField(rows[k].patientId), false)
    ensures RenderRows(rows)[LinesPerRow * k + 1] == Line(AgeField(rows[k].age), false)
    ensures RenderRows(rows)[LinesPerRow * k + 2] == Line(GenderField(rows[k].gender), false)
  {
    RowLinesHeader(rows[k]);
    RenderedLineAt(rows, k, 0);
    RenderedLineAt(rows, k, 1);
    RenderedLineAt(rows, k, 2);
  }

  /** Parameter j of the display order gets the line at offset 3 + j of the block
      of row `k`. */
  lemma RenderedParamAt(rows: seq<Row>, k: nat, j: nat)
    requires k < |rows| && j < |NumericColumns|
    ensures LinesPerRow * k + 3 + j < |RenderRows(rows)|
    ensures RenderRows(rows)[LinesPerRow * k + 3 + j] == ParamLine(rows[k], NumericColumns[j])
  {
    RowLinesParam(rows[k], j);
    RenderedLineAt(rows, k, 3 + j);
  }

  /** The details-panel callback. */
  function DisplayPatientDetails(nClicks: Option<int>, patientId: Option<string>, table: seq<Row>): (d: Details)
    ensures !Clicked(nClicks) ==> d == Prompt
    ensures Clicked(nClicks) && !ValidId(patientId) ==> d == InvalidIdPrompt
    ensures Clicked(nClicks) && ValidId(patientId) ==>
      (d == NotFound <==> forall i :: 0 <= i < |table| ==> table[i].patientId != patientId.value)
    ensures Clicked(nClicks) && ValidId(patientId) && d != NotFound
            ==> d == Lines(RenderRows(Matches(table, patientId.value)))
    ensures d.Lines? ==> Clicked(nClicks) && ValidId(patientId)
    ensures d.Lines? ==>
      && d.lines == RenderRows(Matches(table, patientId.value))
      && |d.lines| == LinesPerRow * |Matches(table, patientId.value)| > 0
  {
    if !Clicked(nClicks) then Prompt
    else if !ValidId(patientId) then InvalidIdPrompt
    else
      var rows := Matches(table, patientId.value);
      MatchesEmptyIffAbsent(table, patientId.value);
      if rows == [] then NotFound else Lines(RenderRows(rows))
  }

  /** What the panel shows for the k-th matching row: a block that opens with the
      searched ID and flags parameter j exactly when its value is outside the
      healthy range. */
  lemma DisplayedLineAt(nClicks: Option<int>, patientId: Option<string>, table: seq<Row>, k: nat, j: nat)
    requires DisplayPatientDetails(nClicks, patientId, table).Lines?
    requires k < |Matches(table, patientId.value)| && j < |NumericColumns|
    ensures Matches(table, patientId.value)[k].patientId == patientId.value
    ensures LinesPerRow * k + 3 + j < |DisplayPatientDetails(nClicks, patientId, table).lines|
    ensures DisplayPatientDetails(nClicks, patientId, table).lines[LinesPerRow * k]
            == Line(PatientIdField(patientId.value), false)
    ensures var row, p := Matches(table, patientId.value)[k], NumericColumns[j];
            var line := DisplayPatientDetails(nClicks, patientId, table).lines[LinesPerRow * k + 3 + j];
            && line.field == ParamField(p, Value(row, p))
            && (line.flagged <==> Value(row, p) < HealthyRanges()[Label(p)].min
                                  || Value(row, p) > HealthyRanges()[Label(p)].max)
  {
    var rows := Matches(table, patientId.value);
    RenderedHeaderAt(rows, k);
    RenderedParamAt(rows, k, j);
  }

  /** Before any click the panel shows the Search prompt, whatever the ID box holds. */
  lemma PromptIgnoresId(nClicks: Option<int>, a: Option<string>, b: Option<string>, table: seq<Row>)
    requires !Clicked(nClicks)
    ensures DisplayPatientDetails(nClicks, a, table) == DisplayPatientDetails(nClicks, b, table) == Prompt
  {
  }
}
