/**
 * The table engine of dbmodule.go: a table loaded from its file, and the three
 * interactive mutations applied to it before it is written back — insert the
 * values typed for each column, delete a row by its listed number, and
 * overwrite one cell by row and column number.
 *
 * Console input is a sequence of tokens, one per prompt. Once the tokens are
 * used up a prompt reads the empty text, as fmt.Scanln does at end of input.
 */
module DbModule {

  import opened Wrappers
  import opened Coercion

  // ---------------------------------------------------------------------------
  // Collecting the values of a new row

  /** What the k-th prompt reads. */
  function Attempt(input: seq<string>, k: nat): string
  {
    if k < |input| then input[k] else ""
  }

  /** Where the prompt after attempt k reads. */
  function After(input: seq<string>, k: nat): nat
  {
    if k < |input| then k + 1 else |input|
  }

  /**
   * The re-prompt loop of one column, reading from position pos: the value of
   * the first attempt whose conversion succeeds, with that attempt's index.
   * None when no attempt ever succeeds, so that the loop never ends: every
   * remaining token is rejected and so is the empty text read after them.
   */
  function AcceptFrom(dataType: string, input: seq<string>, pos: nat, parseFloat: FloatParser): (r: Option<(Cell, nat)>)
    requires pos <= |input|
    ensures r.Some? ==>
              && pos <= r.value.1 <= |input|
              && Coerce(Attempt(input, r.value.1), dataType, parseFloat) == Parsed(r.value.0, true)
              && forall j :: pos <= j < r.value.1 ==> !Coerce(input[j], dataType, parseFloat).ok
    ensures r.None? <==>
              && !Coerce("", dataType, parseFloat).ok
              && forall j :: pos <= j < |input| ==> !Coerce(input[j], dataType, parseFloat).ok
    decreases |input| - pos
  {
    if pos == |input| then
      var c := Coerce("", dataType, parseFloat);
      if c.ok then Some((c.value, pos)) else None
    else
      var c := Coerce(input[pos], dataType, parseFloat);
      if c.ok then Some((c.value, pos)) else AcceptFrom(dataType, input, pos + 1, parseFloat)
  }

  /**
   * The values the prompt loops settle on, one per column in column order, with
   * the input position after the last of them; None when some column's loop
   * never ends. Each value has the type its column declares.
   */
  function Gather(columns: seq<Column>, input: seq<string>, parseFloat: FloatParser): (r: Option<(seq<Cell>, nat)>)
    ensures r.Some? ==> |r.value.0| == |columns| && r.value.1 <= |input|
    ensures r.Some? ==> forall i :: 0 <= i < |columns| ==> Fits(columns[i].dataType, r.value.0[i])
    decreases |columns|
  {
    if columns == [] then Some(([], 0))
    else
      match Gather(columns[..|columns| - 1], input, parseFloat)
      case None => None
      case Some(prefix) =>
        Extend(prefix.0, input, AcceptFrom(columns[|columns| - 1].dataType, input, prefix.1, parseFloat))
  }

  /** The collected values and input position after one more prompt loop, if it ends. */
  function Extend(values: seq<Cell>, input: seq<string>, accepted: Option<(Cell, nat)>): Option<(seq<Cell>, nat)>
  {
    match accepted
    case None => None
    case Some(a) => Some((values + [a.0], After(input, a.1)))
  }

  lemma {:induction false} GatherStaysStuck(columns: seq<Column>, input: seq<string>, parseFloat: FloatParser, k: nat)
    requires k <= |columns| && Gather(columns[..k], input, parseFloat).None?
    ensures Gather(columns, input, parseFloat).None?
    decreases |columns| - k
  {
    if k == |columns| {
      assert columns[..k] == columns;
    } else {
      assert columns[..k + 1][..k] == columns[..k];
      GatherStaysStuck(columns, input, parseFloat, k + 1);
    }
  }

  /** The values of the columns whose primary flag equals `primary`, in column order. */
  function Select(columns: seq<Column>, values: seq<Cell>, primary: bool): seq<Cell>
    requires |columns| == |values|
    decreases |columns|
  {
    if columns == [] then []
    else
      var n := |columns| - 1;
      Select(columns[..n], values[..n], primary) + (if columns[n].isPrimary == primary then [values[n]] else [])
  }

  /** The row AddRowFromUser builds: the primary-key values, then the others. */
  function AssembleRow(columns: seq<Column>, values: seq<Cell>): Row
    requires |columns| == |values|
  {
    Select(columns, values, true) + Select(columns, values, false)
  }

  /** No primary column comes after a non-primary one. */
  predicate PrimaryFirst(columns: seq<Column>)
  {
    forall i, j :: 0 <= i < j < |columns| && columns[j].isPrimary ==> columns[i].isPrimary
  }

  predicate Distinct(values: seq<Cell>)
  {
    forall i, j :: 0 <= i < j < |values| ==> values[i] != values[j]
  }

  /**
   * The cell can stand in a column of this type in a table the program has
   * loaded: it has the type the conversion produces, or, in an int column, it
   * is the integral float64 that a saved int reads back as.
   */
  predicate Admits(dataType: string, c: Cell)
  {
    Fits(dataType, c) || (dataType == "int" && c.Float? && c.f.Floor as real == c.f)
  }

  /** Every row has one cell per column, each admitted by its column's type. */
  predicate Conforms(columns: seq<Column>, rows: seq<Row>)
  {
    forall k :: 0 <= k < |rows| ==>
      |rows[k]| == |columns| && forall l :: 0 <= l < |columns| ==> Admits(columns[l].dataType, rows[k][l])
  }

  /**
   * Every operation loads the table from its file and saves it back; the
   * reload turns int cells into float64 cells, and a conforming table stays
   * conforming through it.
   */
  lemma ReloadKeepsConformance(columns: seq<Column>, rows: seq<Row>)
    requires Conforms(columns, rows)
    ensures Conforms(columns, NormalizeRows(rows))
  {
    var r := NormalizeRows(rows);
    forall k, l | 0 <= k < |r| && 0 <= l < |columns|
      ensures |r[k]| == |columns| && Admits(columns[l].dataType, r[k][l])
    {
      var c := rows[k][l];
      assert r[k][l] == NormalizeCell(c);
      if c.Int? {
        assert (c.i as real).Floor == c.i;
      }
    }
  }

  lemma SelectStep(columns: seq<Column>, values: seq<Cell>, column: Column, v: Cell, primary: bool)
    requires |columns| == |values|
    ensures Select(columns + [column], values + [v], primary)
            == Select(columns, values, primary) + (if column.isPrimary == primary then [v] else [])
  {
    assert (columns + [column])[..|columns|] == columns;
    assert (values + [v])[..|values|] == values;
  }

  /** The loop of one column stops at attempt k when that attempt converts or the input is used up. */
  lemma AcceptHere(dataType: string, input: seq<string>, k: nat, parseFloat: FloatParser)
    requires k <= |input|
    requires k == |input| || Coerce(input[k], dataType, parseFloat).ok
    ensures var c := Coerce(Attempt(input, k), dataType, parseFloat);
            AcceptFrom(dataType, input, k, parseFloat) == if c.ok then Some((c.value, k)) else None
  {
  }

  /** An attempt that does not convert hands over to the next one. */
  lemma AcceptSkip(dataType: string, input: seq<string>, k: nat, parseFloat: FloatParser)
    requires k < |input| && !Coerce(input[k], dataType, parseFloat).ok
    ensures AcceptFrom(dataType, input, k, parseFloat) == AcceptFrom(dataType, input, k + 1, parseFloat)
  {
  }

  lemma GatherStep(columns: seq<Column>, i: nat, input: seq<string>, parseFloat: FloatParser, values: seq<Cell>, pos: nat)
    requires i < |columns| && Gather(columns[..i], input, parseFloat) == Some((values, pos))
    ensures pos <= |input|
    ensures Gather(columns[..i + 1], input, parseFloat)
            == Extend(values, input, AcceptFrom(columns[i].dataType, input, pos, parseFloat))
  {
    assert columns[..i + 1][..i] == columns[..i];
  }

  /** What the last column adds to a selection, counted as a multiset. */
  lemma SelectLastCount(columns: seq<Column>, values: seq<Cell>, primary: bool)
    requires |columns| == |values| > 0
    ensures var n := |columns| - 1;
            && |Select(columns, values, primary)|
               == |Select(columns[..n], values[..n], primary)| + (if columns[n].isPrimary == primary then 1 else 0)
            && multiset(Select(columns, values, primary))
               == multiset(Select(columns[..n], values[..n], primary))
                  + (if columns[n].isPrimary == primary then multiset{values[n]} else multiset{})
  {
    var n := |columns| - 1;
    var p := Select(columns[..n], values[..n], primary);
    if columns[n].isPrimary == primary {
      assert multiset(p + [values[n]]) == multiset(p) + multiset{values[n]};
    } else {
      assert Select(columns, values, primary) == p;
    }
  }

  lemma MultisetOfLast(values: seq<Cell>)
    requires |values| > 0
    ensures multiset(values) == multiset(values[..|values| - 1]) + multiset{values[|values| - 1]}
  {
    assert values == values[..|values| - 1] + [values[|values| - 1]];
  }

  /** The two selections split the values between them. */
  lemma {:induction false} SelectPartitions(columns: seq<Column>, values: seq<Cell>)
    requires |columns| == |values|
    ensures |Select(columns, values, true)| + |Select(columns, values, false)| == |columns|
    ensures multiset(Select(columns, values, true)) + multiset(Select(columns, values, false)) == multiset(values)
  {
    if columns != [] {
      var n := |columns| - 1;
      SelectPartitions(columns[..n], values[..n]);
      SelectLastCount(columns, values, true);
      SelectLastCount(columns, values, false);
      MultisetOfLast(values);
    }
  }

  /** A value is selected exactly when some column with that primary flag holds it. */
  lemma {:induction false} SelectMembers(columns: seq<Column>, values: seq<Cell>, primary: bool, x: Cell)
    requires |columns| == |values|
    ensures x in Select(columns, values, primary) <==>
              exists j :: 0 <= j < |columns| && columns[j].isPrimary == primary && values[j] == x
  {
    if columns != [] {
      var n := |columns| - 1;
      SelectMembers(columns[..n], values[..n], primary, x);
      if x in Select(columns[..n], values[..n], primary) {
        var j :| 0 <= j < n && columns[..n][j].isPrimary == primary && values[..n][j] == x;
        assert columns[j].isPrimary == primary && values[j] == x;
      }
      if exists j :: 0 <= j < |columns| && columns[j].isPrimary == primary && values[j] == x {
        var j :| 0 <= j < |columns| && columns[j].isPrimary == primary && values[j] == x;
        if j < n {
          assert columns[..n][j].isPrimary == primary && values[..n][j] == x;
        }
      }
    }
  }

  /** Primary columns in [0, k) and non-primary columns in [k, n): the selections are the two slices. */
  lemma {:induction false} SelectSplit(columns: seq<Column>, values: seq<Cell>, k: nat)
    requires |columns| == |values| && k <= |columns|
    requires forall i :: 0 <= i < k ==> columns[i].isPrimary
    requires forall i :: k <= i < |columns| ==> !columns[i].isPrimary
    ensures Select(columns, values, true) == values[..k]
    ensures Select(columns, values, false) == values[k..]
  {
    if columns != [] {
      var n := |columns| - 1;
      if n < k {
        SelectSplit(columns[..n], values[..n], n);
        assert values[..n] + [values[n]] == values;
      } else {
        SelectSplit(columns[..n], values[..n], k);
        assert values[..n][..k] == values[..k];
        assert values[..n][k..] + [values[n]] == values[k..];
      }
    }
  }

  /** The assembled row holds exactly the collected values, one per column. */
  lemma AssembledRowPermutesValues(columns: seq<Column>, values: seq<Cell>)
    requires |columns| == |values|
    ensures |AssembleRow(columns, values)| == |columns|
    ensures multiset(AssembleRow(columns, values)) == multiset(values)
  {
    SelectPartitions(columns, values);
  }

  /** The number of leading primary columns. */
  function PrimaryPrefix(columns: seq<Column>): (k: nat)
    ensures k <= |columns|
    ensures forall i :: 0 <= i < k ==> columns[i].isPrimary
    ensures k < |columns| ==> !columns[k].isPrimary
  {
    if columns == [] || !columns[0].isPrimary then 0 else 1 + PrimaryPrefix(columns[1..])
  }

  /** When the primary columns come first, the assembled row is in schema order. */
  lemma PrimaryFirstKeepsSchemaOrder(columns: seq<Column>, values: seq<Cell>)
    requires |columns| == |values| && PrimaryFirst(columns)
    ensures AssembleRow(columns, values) == values
  {
    var k := PrimaryPrefix(columns);
    SelectSplit(columns, values, k);
  }

  /**
   * For distinct values, the assembled row is in schema order exactly when the
   * primary columns come first: otherwise some cell lands in another column's place.
   */
  lemma SchemaOrderIffPrimaryFirst(columns: seq<Column>, values: seq<Cell>)
    requires |columns| == |values| && Distinct(values)
    ensures AssembleRow(columns, values) == values <==> PrimaryFirst(columns)
  {
    if PrimaryFirst(columns) {
      PrimaryFirstKeepsSchemaOrder(columns, values);
    }
    if AssembleRow(columns, values) == values {
      SelectPartitions(columns, values);
      var m := |Select(columns, values, true)|;
      assert Select(columns, values, true) == values[..m];
      assert Select(columns, values, false) == values[m..];
      forall j | 0 <= j < |columns|
        ensures columns[j].isPrimary <==> j < m
      {
        if columns[j].isPrimary {
          SelectMembers(columns, values, true, values[j]);
          var t :| 0 <= t < m && values[..m][t] == values[j];
          assert values[t] == values[j];
        } else {
          SelectMembers(columns, values, false, values[j]);
          var t :| 0 <= t < |values| - m && values[m..][t] == values[j];
          assert values[m + t] == values[j];
        }
      }
    }
  }

  /**
   * The inner loop of AddRowFromUser: prompt for one column, starting at input
   * position pos, until a conversion succeeds or the input is used up. The
   * accepted value and its attempt index are what AcceptFrom describes.
   */
  method PromptColumn(column: Column, input: seq<string>, pos: nat, parseFloat: FloatParser)
    returns (c: Parsed<Cell>, k: nat)
    requires pos <= |input|
    ensures pos <= k <= |input|
    ensures AcceptFrom(column.dataType, input, pos, parseFloat) == if c.ok then Some((c.value, k)) else None
  {
    k := pos;
    c := Coerce(Attempt(input, k), column.dataType, parseFloat);
    while !c.ok && k < |input|
      invariant pos <= k <= |input|
      invariant c == Coerce(Attempt(input, k), column.dataType, parseFloat)
      invariant AcceptFrom(column.dataType, input, k, parseFloat) == AcceptFrom(column.dataType, input, pos, parseFloat)
    {
      AcceptSkip(column.dataType, input, k, parseFloat);
      k := k + 1;
      c := Coerce(Attempt(input, k), column.dataType, parseFloat);
    }
    AcceptHere(column.dataType, input, k, parseFloat);
  }

  /**
   * The loops of AddRowFromUser that prompt for each column in turn and
   * append every accepted value to the primary-key list or to the other list.
   * `complete` is false when some prompt loop would never end.
   */
  method ReadRowValues(columns: seq<Column>, input: seq<string>, parseFloat: FloatParser)
    returns (primaryKeys: seq<Cell>, otherValues: seq<Cell>, complete: bool)
    ensures complete <==> Gather(columns, input, parseFloat).Some?
    ensures complete ==>
              && primaryKeys == Select(columns, Gather(columns, input, parseFloat).value.0, true)
              && otherValues == Select(columns, Gather(columns, input, parseFloat).value.0, false)
  {
    primaryKeys, otherValues := [], [];
    var pos := 0;
    ghost var values: seq<Cell> := [];
    for i := 0 to |columns|
      invariant pos <= |input|
      invariant Gather(columns[..i], input, parseFloat) == Some((values, pos))
      invariant primaryKeys == Select(columns[..i], values, true)
      invariant otherValues == Select(columns[..i], values, false)
    {
      var column := columns[i];
      var c, k := PromptColumn(column, input, pos, parseFloat);
      GatherStep(columns, i, input, parseFloat, values, pos);
      if !c.ok {
        GatherStaysStuck(columns, input, parseFloat, i + 1);
        return [], [], false;
      }
      if column.isPrimary {
        primaryKeys := primaryKeys + [c.value];
      } else {
        otherValues := otherValues + [c.value];
      }
      assert columns[..i + 1] == columns[..i] + [column];
      SelectStep(columns[..i], values, column, c.value, true);
      SelectStep(columns[..i], values, column, c.value, false);
      values := values + [c.value];
      pos := After(input, k);
    }
    assert columns[..|columns|] == columns;
    complete := true;
  }

  /** A schema that lists its primary columns first gets conforming rows from inserts. */
  lemma InsertKeepsConformance(columns: seq<Column>, rows: seq<Row>, input: seq<string>, parseFloat: FloatParser)
    requires PrimaryFirst(columns) && Conforms(columns, rows)
    requires Gather(columns, input, parseFloat).Some?
    ensures Conforms(columns, rows + [AssembleRow(columns, Gather(columns, input, parseFloat).value.0)])
  {
    PrimaryFirstKeepsSchemaOrder(columns, Gather(columns, input, parseFloat).value.0);
  }

  // ---------------------------------------------------------------------------
  // Positional delete and update

  /** The answer to a "which number?" prompt names one of 1..count. */
  predicate IsOrdinal(p: Parsed<int>, count: int)
  {
    p.ok && 1 <= p.value <= count
  }

  /** The rows without the k-th one (1-based); the others keep their order. */
  function WithoutRow(rows: seq<Row>, k: int): (r: seq<Row>)
    requires 1 <= k <= |rows|
    ensures |r| == |rows| - 1
    ensures forall i :: 0 <= i < k - 1 ==> r[i] == rows[i]
    ensures forall i :: k - 1 <= i < |r| ==> r[i] == rows[i + 1]
  {
    rows[..k - 1] + rows[k..]
  }

  /** Deleting row k removes that one row and keeps every other one. */
  lemma WithoutRowRemovesOne(rows: seq<Row>, k: int)
    requires 1 <= k <= |rows|
    ensures multiset(rows) == multiset(WithoutRow(rows, k)) + multiset{rows[k - 1]}
  {
    assert rows == rows[..k - 1] + [rows[k - 1]] + rows[k..];
  }

  /** Typing back the number the listing prints for row i selects row i. */
  lemma ListedNumberSelectsRow(rows: seq<Row>, i: nat)
    requires i < |rows| <= MaxInt64
    ensures IsOrdinal(Atoi(FormatInt(i + 1)), |rows|)
    ensures WithoutRow(rows, Atoi(FormatInt(i + 1)).value) == rows[..i] + rows[i + 1..]
  {
    AtoiFormatRoundTrip(i + 1);
  }

  /** Deleting a row keeps a conforming table conforming. */
  lemma DeleteKeepsConformance(columns: seq<Column>, rows: seq<Row>, k: int)
    requires Conforms(columns, rows) && 1 <= k <= |rows|
    ensures Conforms(columns, WithoutRow(rows, k))
  {
    var r := WithoutRow(rows, k);
    forall i | 0 <= i < |r|
      ensures |r[i]| == |columns| && forall l :: 0 <= l < |columns| ==> Admits(columns[l].dataType, r[i][l])
    {
      if i < k - 1 {
        assert r[i] == rows[i];
      } else {
        assert r[i] == rows[i + 1];
      }
    }
  }

  /** The rows with cell (i, j), 0-based, replaced by v. Every other cell and every row length stay. */
  function WithCell(rows: seq<Row>, i: nat, j: nat, v: Cell): (r: seq<Row>)
    requires i < |rows| && j < |rows[i]|
    ensures |r| == |rows|
    ensures forall k :: 0 <= k < |rows| ==> |r[k]| == |rows[k]|
    ensures r[i][j] == v
    ensures forall k, l :: 0 <= k < |rows| && 0 <= l < |rows[k]| && (k != i || l != j) ==> r[k][l] == rows[k][l]
  {
    rows[i := rows[i][j := v]]
  }

  /** Overwriting a cell with the coercion of any text keeps a conforming table conforming. */
  lemma UpdateKeepsConformance(columns: seq<Column>, rows: seq<Row>, i: nat, j: nat, raw: string, parseFloat: FloatParser)
    requires Conforms(columns, rows) && i < |rows| && j < |columns|
    ensures j < |rows[i]|
    ensures Conforms(columns, WithCell(rows, i, j, Coerce(raw, columns[j].dataType, parseFloat).value))
  {
    var r := WithCell(rows, i, j, Coerce(raw, columns[j].dataType, parseFloat).value);
    forall k, l | 0 <= k < |r| && 0 <= l < |columns|
      ensures Admits(columns[l].dataType, r[k][l])
    {
      if k != i || l != j {
        assert r[k][l] == rows[k][l];
      }
    }
  }

  /** How UpdateRowFromUser ends. IndexPanic: the column number is valid for the schema but the row is shorter, and Go panics. */
  datatype UpdateOutcome = NoRows | InvalidRow | InvalidColumn | Updated | IndexPanic

  // ---------------------------------------------------------------------------
  // The table

  /** The table as dbmodule.go holds it in memory between loading and saving its file. */
  class Table {
    var tableName: string
    var columns: seq<Column>
    var rows: seq<Row>

    /** The table CreateTable writes: its name and schema, and no rows. */
    constructor (tableName: string, columns: seq<Column>)
      ensures this.tableName == tableName && this.columns == columns && rows == []
    {
      this.tableName := tableName;
      this.columns := columns;
      rows := [];
    }

    /**
     * AddRowFromUser: prompt for every column until its value converts, then
     * append the row of primary-key values followed by the other values.
     * When some prompt would repeat forever nothing is appended.
     */
    method AddRowFromUser(input: seq<string>, parseFloat: FloatParser) returns (added: bool)
      modifies this`rows
      ensures added <==> Gather(columns, input, parseFloat).Some?
      ensures added ==> rows == old(rows) + [AssembleRow(columns, Gather(columns, input, parseFloat).value.0)]
      ensures !added ==> rows == old(rows)
    {
      var primaryKeys, otherValues, complete := ReadRowValues(columns, input, parseFloat);
      if !complete {
        return false;
      }
      var newRow := primaryKeys + otherValues;
      rows := rows + [newRow];
      added := true;
    }

    /**
     * DeleteRowFromUser: with no rows nothing is asked; otherwise the typed
     * number must parse and lie in 1..|rows|, and that row is spliced out.
     */
    method DeleteRowFromUser(input: string) returns (deleted: bool)
      modifies this`rows
      ensures deleted <==> |old(rows)| > 0 && IsOrdinal(Atoi(input), |old(rows)|)
      ensures deleted ==> rows == WithoutRow(old(rows), Atoi(input).value)
      ensures !deleted ==> rows == old(rows)
    {
      if |rows| == 0 {
        return false;
      }
      var rowToDelete := Atoi(input);
      if !rowToDelete.ok || rowToDelete.value < 1 || rowToDelete.value > |rows| {
        return false;
      }
      rows := rows[..rowToDelete.value - 1] + rows[rowToDelete.value..];
      deleted := true;
    }

    /**
     * UpdateRowFromUser: check the row number against the rows and the column
     * number against the schema, then store the coercion of the new text,
     * ignoring whether it succeeded.
     */
    method UpdateRowFromUser(rowInput: string, columnInput: string, newValue: string, parseFloat: FloatParser)
      returns (outcome: UpdateOutcome)
      modifies this`rows
      ensures |old(rows)| == 0 ==> outcome == NoRows
      ensures |old(rows)| > 0 && !IsOrdinal(Atoi(rowInput), |old(rows)|) ==> outcome == InvalidRow
      ensures IsOrdinal(Atoi(rowInput), |old(rows)|) && !IsOrdinal(Atoi(columnInput), |columns|) ==> outcome == InvalidColumn
      ensures IsOrdinal(Atoi(rowInput), |old(rows)|) && IsOrdinal(Atoi(columnInput), |columns|) ==>
                outcome == (if Atoi(columnInput).value <= |old(rows)[Atoi(rowInput).value - 1]| then Updated else IndexPanic)
      ensures outcome == Updated ==>
                var r, c := Atoi(rowInput).value, Atoi(columnInput).value;
                rows == WithCell(old(rows), r - 1, c - 1, Coerce(newValue, columns[c - 1].dataType, parseFloat).value)
      ensures outcome != Updated ==> rows == old(rows)
    {
      if |rows| == 0 {
        return NoRows;
      }
      var rowToUpdate := Atoi(rowInput);
      if !rowToUpdate.ok || rowToUpdate.value < 1 || rowToUpdate.value > |rows| {
        return InvalidRow;
      }
      var columnToUpdate := Atoi(columnInput);
      if !columnToUpdate.ok || columnToUpdate.value < 1 || columnToUpdate.value > |columns| {
        return InvalidColumn;
      }
      var updatedValue := Coerce(newValue, columns[columnToUpdate.value - 1].dataType, parseFloat).value;
      var r, c := rowToUpdate.value - 1, columnToUpdate.value - 1;
      if c >= |rows[r]| {
        return IndexPanic;
      }
      rows := rows[r := rows[r][c := updatedValue]];
      outcome := Updated;
    }
  }
}
