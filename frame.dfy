/** The single-row data frames of the inference path, and the frame operations
    it applies to them: column selection by name, building a frame from an
    encoded row and its column names, concatenation, and reindexing against
    the model's expected feature names.

    A frame here always holds exactly one row, so it is a sequence of named
    cells, in column order. */
module Frame {
  import opened Errors

  /** One cell of the row: a categorical string or a number. */
  datatype Cell = Text(text: string) | Number(number: int)

  /** A named column of a one-row frame. */
  datatype Column = Column(name: string, cell: Cell)

  function Numbers(values: seq<int>): seq<Cell> {
    seq(|values|, i requires 0 <= i < |values| => Number(values[i]))
  }

  predicate Distinct(names: seq<string>) {
    forall i, j :: 0 <= i < j < |names| ==> names[i] != names[j]
  }

  predicate HasColumn(cols: seq<Column>, name: string) {
    exists i :: 0 <= i < |cols| && cols[i].name == name
  }

  /** No two columns of the frame share a name. */
  predicate DistinctNames(cols: seq<Column>) {
    forall i, j :: 0 <= i < j < |cols| ==> cols[i].name != cols[j].name
  }

  /** Pairs each name with the cell at the same position. */
  function Label(names: seq<string>, cells: seq<Cell>): seq<Column>
    requires |names| == |cells|
  {
    seq(|names|, i requires 0 <= i < |names| => Column(names[i], cells[i]))
  }

  /** The cell of a column called `name`, if there is one. */
  function Lookup(cols: seq<Column>, name: string): (c: Option<Cell>)
    ensures c.None? <==> !HasColumn(cols, name)
    ensures c.Some? ==> exists k :: 0 <= k < |cols| && cols[k] == Column(name, c.value)
  {
    if cols == [] then None
    else if cols[0].name == name then Some(cols[0].cell)
    else
      assert forall i :: 1 <= i < |cols| ==> cols[i] == cols[1..][i - 1];
      Lookup(cols[1..], name)
  }

  /** In a frame without repeated names a column is found under its own name. */
  lemma LookupDistinct(cols: seq<Column>, k: nat)
    requires k < |cols|
    requires DistinctNames(cols)
    ensures Lookup(cols, cols[k].name) == Some(cols[k].cell)
  {
  }

  /** The position of the first of `names` that the frame lacks, or `|names|`
      when it has them all. */
  function FirstMissing(frame: seq<Column>, names: seq<string>): (k: nat)
    ensures k <= |names|
    ensures forall i :: 0 <= i < k ==> HasColumn(frame, names[i])
    ensures k < |names| ==> !HasColumn(frame, names[k])
  {
    if names == [] then 0
    else if !HasColumn(frame, names[0]) then 0
    else
      var k := FirstMissing(frame, names[1..]);
      assert forall i :: 1 <= i < |names| ==> names[i] == names[1..][i - 1];
      k + 1
  }

  /** Column selection by a list of names (`frame[names]`): the selected
      columns in the order of `names`, or the first name the frame lacks. */
  function Select(frame: seq<Column>, names: seq<string>): (r: Result<seq<Column>>)
    ensures r.Ok? <==> forall i :: 0 <= i < |names| ==> HasColumn(frame, names[i])
    ensures r.Ok? ==> |r.value| == |names|
    ensures r.Ok? ==> forall i :: 0 <= i < |names| ==> r.value[i].name == names[i] && Lookup(frame, names[i]) == Some(r.value[i].cell)
    ensures r.Err? ==> r.error.MissingColumn? && r.error.name in names && !HasColumn(frame, r.error.name)
  {
    var k := FirstMissing(frame, names);
    if k < |names| then Err(MissingColumn(names[k]))
    else Ok(seq(|names|, i requires 0 <= i < |names| => Column(names[i], Lookup(frame, names[i]).value)))
  }

  /** A frame built from one encoded row and the names of its columns; the
      two must have the same length. */
  function FromArray(values: seq<Cell>, names: seq<string>): (r: Result<seq<Column>>)
    ensures r.Ok? <==> |values| == |names|
    ensures r.Err? ==> r.error == ShapeMismatch(|values|, |names|)
    ensures r.Ok? ==> |r.value| == |names| && forall i :: 0 <= i < |names| ==> r.value[i] == Column(names[i], values[i])
  {
    if |values| == |names| then Ok(Label(names, values))
    else Err(ShapeMismatch(|values|, |names|))
  }

  /** The frame as a name-to-cell mapping; well defined because the names are distinct. */
  function AsRow(cols: seq<Column>): (row: map<string, Cell>)
    requires DistinctNames(cols)
    ensures forall n :: n in row <==> HasColumn(cols, n)
    ensures forall i :: 0 <= i < |cols| ==> cols[i].name in row && row[cols[i].name] == cols[i].cell
  {
    if cols == [] then map[]
    else
      var rest := AsRow(cols[1..]);
      assert forall i :: 1 <= i < |cols| ==> cols[i] == cols[1..][i - 1];
      rest[cols[0].name := cols[0].cell]
  }

  /** For each expected name, in order, the row's value when the row has that
      name and `fill` when it does not. */
  function Align<V>(row: map<string, V>, expected: seq<string>, fill: V): (v: seq<V>)
    ensures |v| == |expected|
    ensures forall i :: 0 <= i < |expected| && expected[i] in row ==> v[i] == row[expected[i]]
    ensures forall i :: 0 <= i < |expected| && expected[i] !in row ==> v[i] == fill
  {
    if expected == [] then []
    else
      var head := if expected[0] in row then row[expected[0]] else fill;
      var tail := Align(row, expected[1..], fill);
      assert forall i :: 1 <= i < |expected| ==> expected[i] == expected[1..][i - 1];
      [head] + tail
  }

  /** Reindexing the frame's columns against `expected` with fill value 0:
      the result has exactly the expected columns, in the expected order;
      a column the frame has keeps its cell, one it lacks is 0, and frame
      columns not expected are dropped. A frame with a repeated column name
      cannot be reindexed. */
  function Reindex(cols: seq<Column>, expected: seq<string>): (r: Result<seq<Column>>)
    ensures r.Ok? <==> DistinctNames(cols)
    ensures r.Err? ==> r.error == DuplicateLabels
    ensures r.Ok? ==> |r.value| == |expected| && forall i :: 0 <= i < |expected| ==> r.value[i].name == expected[i]
    ensures r.Ok? ==> forall i, j :: 0 <= i < |expected| && 0 <= j < |cols| && cols[j].name == expected[i] ==> r.value[i].cell == cols[j].cell
    ensures r.Ok? ==> forall i :: 0 <= i < |expected| && !HasColumn(cols, expected[i]) ==> r.value[i].cell == Number(0)
  {
    if DistinctNames(cols) then Ok(Label(expected, Align(AsRow(cols), expected, Number(0))))
    else Err(DuplicateLabels)
  }

  /** Labelled columns followed by a duplicate-free frame repeat no name
      exactly when the labels are distinct and none is a name of that frame. */
  lemma LabelThenDistinct(names: seq<string>, cells: seq<Cell>, tail: seq<Column>)
    requires |names| == |cells|
    requires DistinctNames(tail)
    ensures DistinctNames(Label(names, cells) + tail) <==> Distinct(names) && forall n :: n in names ==> !HasColumn(tail, n)
  {
    var cols, m := Label(names, cells) + tail, |names|;
    assert forall i :: 0 <= i < m ==> cols[i].name == names[i];
    assert forall j :: 0 <= j < |tail| ==> cols[m + j] == tail[j];
    if Distinct(names) && forall n :: n in names ==> !HasColumn(tail, n) {
      forall i, j | 0 <= i < j < |cols| ensures cols[i].name != cols[j].name {
        if m <= i {
          assert cols[i] == tail[i - m] && cols[j] == tail[j - m];
        } else if m <= j {
          assert names[i] in names && cols[j] == tail[j - m];
        }
      }
    } else if !Distinct(names) {
      var i, j :| 0 <= i < j < m && names[i] == names[j];
      assert cols[i].name == cols[j].name;
    } else {
      var n :| n in names && HasColumn(tail, n);
      var i :| 0 <= i < m && names[i] == n;
      var j :| 0 <= j < |tail| && tail[j].name == n;
      assert cols[i].name == cols[m + j].name;
    }
  }

  /** A row entry whose name is not expected has no influence on the alignment,
      whether it is added or removed. */
  lemma AlignIgnoresUnexpected<V>(row: map<string, V>, expected: seq<string>, fill: V, name: string, value: V)
    requires name !in expected
    ensures Align(row[name := value], expected, fill) == Align(row, expected, fill)
    ensures Align(row - {name}, expected, fill) == Align(row, expected, fill)
  {
  }

  /** Aligning a vector that is already aligned, read back as a row under the
      expected names, gives that vector back. */
  lemma AlignIdempotent<V>(row: map<string, V>, expected: seq<string>, fill: V)
    ensures var v := Align(row, expected, fill);
            var back := map i | 0 <= i < |expected| :: expected[i] := v[i];
            Align(back, expected, fill) == v
  {
  }

  /** Reindexing is idempotent: reindexing a reindexed frame against the same
      (duplicate-free) expected names changes nothing. */
  lemma ReindexIdempotent(cols: seq<Column>, expected: seq<string>)
    requires Distinct(expected)
    requires Reindex(cols, expected).Ok?
    ensures Reindex(Reindex(cols, expected).value, expected) == Reindex(cols, expected)
  {
    var once := Reindex(cols, expected).value;
    assert DistinctNames(once);
    var twice := Reindex(once, expected).value;
    forall i | 0 <= i < |expected| ensures twice[i] == once[i] {
      assert once[i].name == expected[i];
    }
    assert twice == once;
  }

  /** A column whose name is not expected has no influence on the reindexed
      frame; the frame with and without it are reindexed alike. */
  lemma ReindexIgnoresUnexpected(cols: seq<Column>, extra: Column, expected: seq<string>)
    requires extra.name !in expected
    requires !HasColumn(cols, extra.name)
    ensures Reindex(cols + [extra], expected) == Reindex(cols, expected)
  {
    var wider := cols + [extra];
    if DistinctNames(cols) {
      assert DistinctNames(wider) by {
        forall i, j | 0 <= i < j < |wider| ensures wider[i].name != wider[j].name {
          if j == |cols| {
            assert cols[i] == wider[i];
          }
        }
      }
      var r1, r2 := Reindex(wider, expected).value, Reindex(cols, expected).value;
      forall i | 0 <= i < |expected| ensures r1[i] == r2[i] {
        if HasColumn(cols, expected[i]) {
          var j :| 0 <= j < |cols| && cols[j].name == expected[i];
          assert wider[j] == cols[j];
        } else {
          assert !HasColumn(wider, expected[i]) by {
            forall j | 0 <= j < |wider| ensures wider[j].name != expected[i] {
              if j < |cols| { assert wider[j] == cols[j]; }
            }
          }
        }
      }
      assert r1 == r2;
    } else {
      assert !DistinctNames(wider) by {
        var i, j :| 0 <= i < j < |cols| && cols[i].name == cols[j].name;
        assert wider[i] == cols[i] && wider[j] == cols[j];
      }
    }
  }
}
