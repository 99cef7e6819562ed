/**
 The in-memory patient table and the lookup of a patient's rows by ID
 (app.py, lines 11 and 131).

 The table is an ordered sequence of rows; a patient ID is not unique, so a
 lookup returns every row carrying that ID, in table order. The four lab
 columns are fields of the row: the spreadsheet is taken to have them all.
 */
module PatientTable {
  import opened RangeTable

  /** One spreadsheet row: the patient's ID, age, gender and the four lab values. */
  datatype Row = Row(
    patientId: string,
    age: real,
    gender: string,
    hemoglobin: real,
    whiteBloodCells: real,
    platelets: real,
    cholesterol: real)

  /** The value in a row's column for lab parameter `p`. */
  function Value(row: Row, p: Param): real {
    match p
    case Hemoglobin => row.hemoglobin
    case WhiteBloodCells => row.whiteBloodCells
    case Platelets => row.platelets
    case Cholesterol => row.cholesterol
  }

  /** The rows whose ID equals `id` exactly, in table order. */
  function Matches(table: seq<Row>, id: string): (rows: seq<Row>)
    ensures |rows| <= |table|
    ensures forall k :: 0 <= k < |rows| ==> rows[k].patientId == id
  {
    if |table| == 0 then []
    else (if table[0].patientId == id then [table[0]] else []) + Matches(table[1..], id)
  }

  /** Filtering distributes over concatenation: the matches of a joined table are
      the matches of the first part followed by those of the second. */
  lemma {:induction false} MatchesAppend(a: seq<Row>, b: seq<Row>, id: string)
    ensures Matches(a + b, id) == Matches(a, id) + Matches(b, id)
  {
    if |a| == 0 {
      assert a + b == b;
    } else {
      assert (a + b)[1..] == a[1..] + b;
      MatchesAppend(a[1..], b, id);
    }
  }

  /** A row is among the matches exactly when it is in the table and carries the ID. */
  lemma {:induction false} MatchesMembership(table: seq<Row>, id: string, r: Row)
    ensures r in Matches(table, id) <==> r in table && r.patientId == id
  {
    if |table| > 0 {
      MatchesMembership(table[1..], id, r);
      assert table == [table[0]] + table[1..];
    }
  }

  /** No match exactly when no row carries the ID. */
  lemma MatchesEmptyIffAbsent(table: seq<Row>, id: string)
    ensures Matches(table, id) == [] <==> forall i :: 0 <= i < |table| ==> table[i].patientId != id
  {
    if Matches(table, id) == [] {
      forall i | 0 <= i < |table|
        ensures table[i].patientId != id
      {
        MatchesMembership(table, id, table[i]);
      }
    } else {
      var r := Matches(table, id)[0];
      MatchesMembership(table, id, r);
    }
  }

  /** `rows` and `index` are the result of filtering the first `n` rows of `table`
      on `id`: the matching rows in order, with their strictly increasing positions,
      which are exactly the positions below `n` of the rows carrying `id`. */
  predicate Selected(table: seq<Row>, n: nat, id: string, rows: seq<Row>, index: seq<nat>)
    requires n <= |table|
  {
    && rows == Matches(table[..n], id)
    && |index| == |rows|
    && (forall k :: 0 <= k < |index| ==> index[k] < n && rows[k] == table[index[k]])
    && (forall k, l :: 0 <= k < l < |index| ==> index[k] < index[l])
    && (forall i :: 0 <= i < n ==> (i in index <==> table[i].patientId == id))
  }

  /** Filtering one more row appends it exactly when it carries the ID. */
  lemma MatchesSnoc(table: seq<Row>, n: nat, id: string)
    requires n < |table|
    ensures Matches(table[..n + 1], id)
            == Matches(table[..n], id) + (if table[n].patientId == id then [table[n]] else [])
  {
    assert table[..n + 1] == table[..n] + [table[n]];
    MatchesAppend(table[..n], [table[n]], id);
    assert [table[n]][1..] == [];
  }

  /** A row without the ID leaves the selection as it is. */
  lemma SelectedSkip(table: seq<Row>, n: nat, id: string, rows: seq<Row>, index: seq<nat>)
    requires n < |table| && table[n].patientId != id
    requires Selected(table, n, id, rows, index)
    ensures Selected(table, n + 1, id, rows, index)
  {
    MatchesSnoc(table, n, id);
  }

  /** A row with the ID is appended, together with its position. */
  lemma SelectedTake(table: seq<Row>, n: nat, id: string, rows: seq<Row>, index: seq<nat>)
    requires n < |table| && table[n].patientId == id
    requires Selected(table, n, id, rows, index)
    ensures Selected(table, n + 1, id, rows + [table[n]], index + [n])
  {
    MatchesSnoc(table, n, id);
    var index' := index + [n];
    assert forall i :: i in index' <==> i in index || i == n;
  }

  /** The table filtered on exact equality of its Patient ID column with `id`: the
      selected rows together with their index labels (positions in the table), which
      are strictly increasing and are exactly the positions of the rows carrying `id`. */
  method FindPatient(table: seq<Row>, id: string) returns (rows: seq<Row>, index: seq<nat>)
    ensures rows == Matches(table, id)
    ensures |index| == |rows|
    ensures forall k :: 0 <= k < |index| ==> index[k] < |table| && rows[k] == table[index[k]]
    ensures forall k, l :: 0 <= k < l < |index| ==> index[k] < index[l]
    ensures forall i :: 0 <= i < |table| ==> (i in index <==> table[i].patientId == id)
  {
    rows, index := [], [];
    var n := 0;
    while n < |table|
      invariant n <= |table|
      invariant Selected(table, n, id, rows, index)
    {
      if table[n].patientId == id {
        SelectedTake(table, n, id, rows, index);
        rows, index := rows + [table[n]], index + [n];
      } else {
        SelectedSkip(table, n, id, rows, index);
      }
      n := n + 1;
    }
    assert table[..n] == table;
  }

  /** Two rows for "P1" are both found, first one first; an absent ID finds nothing. */
  lemma FindExamples(a: Row, b: Row, c: Row)
    requires a.patientId == "P1" && b.patientId == "P2" && c.patientId == "P1"
    ensures Matches([a, b, c], "P1") == [a, c]
    ensures Matches([a, b, c], "X") == []
  {
    assert [a, b, c][1..] == [b, c] && [b, c][1..] == [c] && [c][1..] == [];
    assert |"P1"| != |"X"| && "P2"[0] != "X"[0];
    assert Matches([c], "P1") == [c];
    assert Matches([b, c], "P1") == [c];
    assert Matches([c], "X") == [];
    assert Matches([b, c], "X") == [];
  }
}
