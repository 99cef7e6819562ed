/**
 The lab parameters shown by the dashboard, their fixed table of healthy
 ranges, and the classifier that tests a lab value against it (app.py, lines
 13-30).

 Lab values are only ever compared, never computed with, so they are modelled
 as `real`s.
 */
module RangeTable {

  /** The four numeric lab parameters of the patient table. */
  datatype Param = Hemoglobin | WhiteBloodCells | Platelets | Cholesterol {
    /** The position of the parameter in the display order. */
    function Ordinal(): (i: nat)
      ensures i < 4
    {
      match this
      case Hemoglobin => 0
      case WhiteBloodCells => 1
      case Platelets => 2
      case Cholesterol => 3
    }
  }

  /** The column name of a parameter, which is also its key in the range table. */
  function Label(p: Param): string {
    match p
    case Hemoglobin => "Hemoglobin (g/dL)"
    case WhiteBloodCells => "White Blood Cell Count (10^3/μL)"
    case Platelets => "Platelet Count (10^3/μL)"
    case Cholesterol => "Cholesterol (mg/dL)"
  }

  /** The lab parameters shown for a patient, in display order. */
  const NumericColumns: seq<Param> := [Hemoglobin, WhiteBloodCells, Platelets, Cholesterol]

  /** An inclusive interval [min, max] of healthy values for one lab parameter. */
  datatype Range = Range(min: real, max: real)

  /** The healthy-range table, keyed by column name: exactly one well-formed
      interval per displayed parameter, and nothing else. */
  function HealthyRanges(): (m: map<string, Range>)
    ensures forall p: Param :: Label(p) in m
    ensures forall name :: name in m ==> exists p: Param :: Label(p) == name
    ensures forall name :: name in m ==> m[name].min <= m[name].max
  {
    map[
      Label(Hemoglobin) := Range(12.0, 16.5),
      Label(WhiteBloodCells) := Range(4.5, 11.0),
      Label(Platelets) := Range(150.0, 450.0),
      Label(Cholesterol) := Range(0.0, 200.0)
    ]
  }

  /** Every parameter is displayed exactly once, and no two parameters share a column name. */
  lemma NumericColumnsWellFormed()
    ensures forall p: Param :: p in NumericColumns
    ensures forall i, j :: 0 <= i < j < |NumericColumns| ==> NumericColumns[i] != NumericColumns[j]
    ensures forall p: Param, q: Param :: Label(p) == Label(q) ==> p == q
  {
    forall p: Param
      ensures p in NumericColumns
    {
      assert NumericColumns[p.Ordinal()] == p;
    }
    forall p: Param, q: Param | Label(p) == Label(q)
      ensures p == q
    {
      assert Label(p)[0] == Label(q)[0];
    }
  }

  /** True iff `value` lies in the healthy range of `parameter`, both ends included.
      A parameter without a range is a lookup failure in the source, hence the precondition. */
  function IsWithinHealthyRange(value: real, parameter: string): (ok: bool)
    requires parameter in HealthyRanges()
    ensures ok <==> HealthyRanges()[parameter].min <= value && value <= HealthyRanges()[parameter].max
  {
    var Range(lo, hi) := HealthyRanges()[parameter];
    lo <= value <= hi
  }

  /** Both ends of every range are healthy; anything strictly outside is not. */
  lemma BoundariesInclusive(parameter: string, value: real)
    requires parameter in HealthyRanges()
    ensures IsWithinHealthyRange(HealthyRanges()[parameter].min, parameter)
    ensures IsWithinHealthyRange(HealthyRanges()[parameter].max, parameter)
    ensures value < HealthyRanges()[parameter].min ==> !IsWithinHealthyRange(value, parameter)
    ensures value > HealthyRanges()[parameter].max ==> !IsWithinHealthyRange(value, parameter)
  {
  }

  /** The healthy values of a parameter form an interval: anything between two
      healthy values is healthy too. */
  lemma HealthyValuesConvex(parameter: string, lo: real, mid: real, hi: real)
    requires parameter in HealthyRanges()
    requires lo <= mid <= hi
    requires IsWithinHealthyRange(lo, parameter) && IsWithinHealthyRange(hi, parameter)
    ensures IsWithinHealthyRange(mid, parameter)
  {
  }

  /** The classifier, spelled out per parameter with the configured constants. */
  lemma ClassifierConstants(value: real)
    ensures IsWithinHealthyRange(value, Label(Hemoglobin)) <==> 12.0 <= value <= 16.5
    ensures IsWithinHealthyRange(value, Label(WhiteBloodCells)) <==> 4.5 <= value <= 11.0
    ensures IsWithinHealthyRange(value, Label(Platelets)) <==> 150.0 <= value <= 450.0
    ensures IsWithinHealthyRange(value, Label(Cholesterol)) <==> 0.0 <= value <= 200.0
  {
  }

  /** Hemoglobin just below, at, and just above both ends of its range. */
  lemma HemoglobinExamples()
    ensures !IsWithinHealthyRange(11.9, Label(Hemoglobin))
    ensures IsWithinHealthyRange(12.0, Label(Hemoglobin))
    ensures IsWithinHealthyRange(16.5, Label(Hemoglobin))
    ensures !IsWithinHealthyRange(16.6, Label(Hemoglobin))
  {
  }
}
