/**
 * The programmatic store of JSON-Database/jsondb/database.go: a process-wide
 * key counter, an insert that prepends a generated key to the given values
 * and appends the row, and a delete that drops the rows whose first cell is
 * the given key.
 *
 * Each operation decodes the whole table from its file, changes it, and
 * encodes it back. The file is modelled by the table value it holds. Encoding
 * and decoding are the identity except that numbers come back as float64:
 * Go decodes every JSON number inside an interface{} as a float64, so a key
 * cell Int(k) saved by one call is Float(k) for the next.
 */
module JsonDb {

  import opened Wrappers
  import opened Coercion

  /** The Table struct of database.go, a value that each operation decodes and re-encodes. */
  datatype TableDoc = TableDoc(tableName: string, columns: seq<Column>, rows: seq<Row>)

  /** What decoding the file finds: nothing (io.EOF), one table, or anything that fails to decode. */
  datatype FileContent = EmptyFile | Stored(doc: TableDoc) | Undecodable

  // ---------------------------------------------------------------------------
  // The JSON round trip

  /** The table a later decode of a saved table yields. */
  function Reload(t: TableDoc): TableDoc
  {
    t.(rows := NormalizeRows(t.rows))
  }

  lemma NormalizeRowsAppend(a: seq<Row>, b: seq<Row>)
    ensures NormalizeRows(a + b) == NormalizeRows(a) + NormalizeRows(b)
  {
  }

  /** Saving and reloading twice is the same as once. */
  lemma ReloadIdempotent(t: TableDoc)
    ensures Reload(Reload(t)) == Reload(t)
  {
    var once, twice := NormalizeRows(t.rows), NormalizeRows(NormalizeRows(t.rows));
    forall i | 0 <= i < |once|
      ensures twice[i] == once[i]
    {
      forall j | 0 <= j < |once[i]|
        ensures twice[i][j] == once[i][j]
      {
        assert once[i][j] == NormalizeCell(t.rows[i][j]);
      }
    }
  }

  /** The zero Table struct that an empty file leaves the decoder target at. */
  const EmptyTable := TableDoc("", [], [])

  /** Decoding in addRowToJsonFile: an empty file reads as the zero table. */
  function DecodeForAppend(file: FileContent): (r: Option<TableDoc>)
    ensures file.Undecodable? <==> r.None?
    ensures file.EmptyFile? ==> r == Some(EmptyTable)
  {
    match file
    case EmptyFile => Some(EmptyTable)
    case Stored(doc) => Some(Reload(doc))
    case Undecodable => None
  }

  /** Decoding in deleteRowFromJsonFile and readTableFromJsonFile: an empty file is an error. */
  function DecodeStrict(file: FileContent): (r: Option<TableDoc>)
    ensures file.Stored? <==> r.Some?
  {
    match file
    case Stored(doc) => Some(Reload(doc))
    case _ => None
  }

  // ---------------------------------------------------------------------------
  // The key counter

  const TwoTo64: int := 0x1_0000_0000_0000_0000

  /** Go's int arithmetic: the exact result reduced modulo 2^64 into the int range. */
  function Wrap64(x: int): (r: int)
    ensures InInt64(r)
    ensures InInt64(x) ==> r == x
    ensures x == MaxInt64 + 1 ==> r == MinInt64
    ensures x == MinInt64 - 1 ==> r == MaxInt64
  {
    (x - MinInt64) % TwoTo64 + MinInt64
  }

  /** pkCounter after pkCounter++: one more, wrapping from the largest int to the smallest. */
  function NextCounter(c: int): (r: int)
    requires InInt64(c)
    ensures InInt64(r)
    ensures c < MaxInt64 ==> r == c + 1
    ensures c == MaxInt64 ==> r == MinInt64
  {
    Wrap64(c + 1)
  }

  /** The process-wide pkCounter of database.go and generatePrimaryKey. */
  class KeyAllocator {
    var pkCounter: int

    ghost predicate Valid()
      reads this
    {
      InInt64(pkCounter)
    }

    constructor ()
      ensures Valid() && pkCounter == 1
    {
      pkCounter := 1;
    }

    /** generatePrimaryKey: increment the counter and return its value before the increment. */
    method GeneratePrimaryKey() returns (key: int)
      requires Valid()
      modifies this
      ensures Valid()
      ensures key == old(pkCounter)
      ensures pkCounter == NextCounter(old(pkCounter))
    {
      pkCounter := Wrap64(pkCounter + 1);
      key := Wrap64(pkCounter - 1);
    }
  }

  /** The keys that n successive calls of generatePrimaryKey return when the counter starts at c. */
  function KeysIssued(c: int, n: nat): seq<int>
    requires InInt64(c)
    decreases n
  {
    if n == 0 then [] else [c] + KeysIssued(NextCounter(c), n - 1)
  }

  /** Without wrap-around, successive keys count up by one from the counter: c, c + 1, c + 2, ... */
  lemma {:induction false} KeysCountUp(c: int, n: nat)
    requires InInt64(c) && c + n <= MaxInt64 + 1
    ensures |KeysIssued(c, n)| == n
    ensures forall i :: 0 <= i < n ==> KeysIssued(c, n)[i] == c + i
    decreases n
  {
    if n > 0 {
      KeysCountUp(NextCounter(c), n - 1);
    }
  }

  /** From the initial counter the keys are 1, 2, ..., n, strictly increasing, so no key repeats. */
  lemma FreshProcessKeys(n: nat)
    requires n <= MaxInt64
    ensures KeysIssued(1, n) == seq(n, i => i + 1)
    ensures forall i, j :: 0 <= i < j < n ==> KeysIssued(1, n)[i] < KeysIssued(1, n)[j]
  {
    KeysCountUp(1, n);
  }

  // ---------------------------------------------------------------------------
  // Insert with a generated key

  /** The table after addRowToJsonFile appends the key followed by the values. */
  function AppendKeyed(t: TableDoc, pk: int, values: Row): (r: TableDoc)
    ensures r.tableName == t.tableName && r.columns == t.columns
    ensures |r.rows| == |t.rows| + 1 && r.rows[..|t.rows|] == t.rows
    ensures |r.rows[|t.rows|]| == |values| + 1
    ensures r.rows[|t.rows|][0] == Int(pk) && r.rows[|t.rows|][1..] == values
  {
    t.(rows := t.rows + [[Int(pk)] + values])
  }

  /**
   * addRowToJsonFile: decode the file (an empty file gives the zero table),
   * take a key from the counter, append the keyed row and return the table to
   * be written. When decoding fails nothing is written and no key is taken.
   */
  method AddRowToJsonFile(alloc: KeyAllocator, file: FileContent, newRow: Row) returns (written: Option<TableDoc>)
    requires alloc.Valid()
    modifies alloc
    ensures alloc.Valid()
    ensures file.Undecodable? ==> written.None? && alloc.pkCounter == old(alloc.pkCounter)
    ensures !file.Undecodable? ==>
              && alloc.pkCounter == NextCounter(old(alloc.pkCounter))
              && written == Some(AppendKeyed(DecodeForAppend(file).value, old(alloc.pkCounter), newRow))
  {
    var table: TableDoc;
    match file {
      case Undecodable => return None;
      case EmptyFile => table := EmptyTable;
      case Stored(doc) => table := Reload(doc);
    }
    var pkValue := alloc.GeneratePrimaryKey();
    var row := [Int(pkValue)] + newRow;
    table := table.(rows := table.rows + [row]);
    written := Some(table);
  }

  // ---------------------------------------------------------------------------
  // Delete by key

  /**
   * Go's int(f) for a float64: truncation toward zero. Outside the int range
   * Go leaves the result to the platform; on amd64 it is the smallest int.
   */
  function GoInt(f: real): (n: int)
    ensures InInt64(n)
    ensures 0.0 <= f < (MaxInt64 + 1) as real ==> n as real <= f < (n + 1) as real
    ensures (MinInt64 - 1) as real < f < 0.0 ==> (n - 1) as real < f <= n as real
    ensures f >= (MaxInt64 + 1) as real || f <= (MinInt64 - 1) as real ==> n == MinInt64
  {
    var t := if f >= 0.0 then f.Floor else -((-f).Floor);
    if InInt64(t) then t else MinInt64
  }

  /** The skip test of deleteRowFromJsonFile's loop. */
  predicate MatchesKey(row: Row, id: int)
  {
    |row| > 0 && row[0].Float? && GoInt(row[0].f) == id
  }

  /** The rows deleteRowFromJsonFile keeps: every row that does not match, in order. */
  function RowsWithout(rows: seq<Row>, id: int): (r: seq<Row>)
    ensures |r| <= |rows|
    ensures forall i :: 0 <= i < |r| ==> !MatchesKey(r[i], id)
    decreases |rows|
  {
    if rows == [] then []
    else
      var n := |rows| - 1;
      RowsWithout(rows[..n], id) + (if MatchesKey(rows[n], id) then [] else [rows[n]])
  }

  /** Filtering a concatenation filters each part: kept rows stay in their original order. */
  lemma {:induction false} RowsWithoutAppend(a: seq<Row>, b: seq<Row>, id: int)
    ensures RowsWithout(a + b, id) == RowsWithout(a, id) + RowsWithout(b, id)
    decreases |b|
  {
    if b == [] {
      assert a + b == a;
    } else {
      var n := |b| - 1;
      assert (a + b)[..|a + b| - 1] == a + b[..n];
      RowsWithoutAppend(a, b[..n], id);
    }
  }

  /** Every occurrence of a row is kept exactly when the row does not match; matching rows all go. */
  lemma {:induction false} RowsWithoutCounts(rows: seq<Row>, id: int, x: Row)
    ensures multiset(RowsWithout(rows, id))[x] == if MatchesKey(x, id) then 0 else multiset(rows)[x]
    decreases |rows|
  {
    if rows != [] {
      var n := |rows| - 1;
      RowsWithoutCounts(rows[..n], id, x);
      assert rows == rows[..n] + [rows[n]];
    }
  }

  /** A key that no row carries deletes nothing. */
  lemma {:induction false} AbsentKeyIsNoOp(rows: seq<Row>, id: int)
    requires forall i :: 0 <= i < |rows| ==> !MatchesKey(rows[i], id)
    ensures RowsWithout(rows, id) == rows
    decreases |rows|
  {
    if rows != [] {
      var n := |rows| - 1;
      AbsentKeyIsNoOp(rows[..n], id);
      assert rows[..n] + [rows[n]] == rows;
    }
  }

  /** Deleting the same key twice is the same as deleting it once. */
  lemma DeleteKeyIdempotent(rows: seq<Row>, id: int)
    ensures RowsWithout(RowsWithout(rows, id), id) == RowsWithout(rows, id)
  {
    AbsentKeyIsNoOp(RowsWithout(rows, id), id);
  }

  /** The key test truncates: 2.7 and 2.0 match 2, -2.7 matches -2, and an Int key never matches. */
  lemma KeyTestTruncates(rest: Row)
    ensures MatchesKey([Float(2.7)] + rest, 2) && MatchesKey([Float(2.0)] + rest, 2)
    ensures !MatchesKey([Float(2.7)] + rest, 3)
    ensures MatchesKey([Float(-2.7)] + rest, -2)
    ensures !MatchesKey([Int(2)] + rest, 2)
  {
    assert (2.7).Floor == 2;
    assert (2.0).Floor == 2;
  }

  /** A key written as Int(pk) is not matched before a reload and is matched after one. */
  lemma ReloadedKeyMatches(pk: int, rest: Row)
    requires InInt64(pk)
    ensures !MatchesKey([Int(pk)] + rest, pk)
    ensures MatchesKey(NormalizeRow([Int(pk)] + rest), pk)
  {
    var f := pk as real;
    assert f.Floor == pk;
    assert (-f).Floor == -pk;
  }

  /** The table deleteRowFromJsonFile writes: same name and columns, the filtered rows. */
  function DeleteKeyed(t: TableDoc, id: int): (r: TableDoc)
    ensures r.tableName == t.tableName && r.columns == t.columns
    ensures forall i :: 0 <= i < |r.rows| ==> !MatchesKey(r.rows[i], id)
  {
    t.(rows := RowsWithout(t.rows, id))
  }

  /** The filter loop of deleteRowFromJsonFile, building newRows by appending. */
  method FilterRows(rows: seq<Row>, idToDelete: int) returns (newRows: seq<Row>)
    ensures newRows == RowsWithout(rows, idToDelete)
  {
    newRows := [];
    for i := 0 to |rows|
      invariant newRows == RowsWithout(rows[..i], idToDelete)
    {
      var row := rows[i];
      assert rows[..i + 1][..i] == rows[..i];
      if |row| > 0 && row[0].Float? && GoInt(row[0].f) == idToDelete {
        continue;
      }
      newRows := newRows + [row];
    }
    assert rows[..|rows|] == rows;
  }

  /**
   * deleteRowFromJsonFile: decode the file (an empty file is an error here),
   * drop the matching rows and return the table to be written.
   */
  method DeleteRowFromJsonFile(file: FileContent, idToDelete: int) returns (written: Option<TableDoc>)
    ensures file.Stored? <==> written.Some?
    ensures file.Stored? ==> written == Some(DeleteKeyed(DecodeStrict(file).value, idToDelete))
  {
    var decoded := DecodeStrict(file);
    if decoded.None? {
      return None;
    }
    var table := decoded.value;
    var newRows := FilterRows(table.rows, idToDelete);
    table := table.(rows := newRows);
    written := Some(table);
  }

  /**
   * Insert under a key no reloaded row carries, save, reload and delete that
   * key: the result is the reloaded table from before the insert.
   */
  lemma DeleteUndoesFreshInsert(t: TableDoc, pk: int, values: Row)
    requires InInt64(pk)
    requires forall i :: 0 <= i < |t.rows| ==> !MatchesKey(NormalizeRows(t.rows)[i], pk)
    ensures DeleteKeyed(Reload(AppendKeyed(t, pk, values)), pk) == Reload(t)
  {
    var row := [Int(pk)] + values;
    NormalizeRowsAppend(t.rows, [row]);
    assert NormalizeRows([row]) == [NormalizeRow(row)];
    ReloadedKeyMatches(pk, values);
    RowsWithoutAppend(NormalizeRows(t.rows), [NormalizeRow(row)], pk);
    assert RowsWithout([NormalizeRow(row)], pk) == [];
    AbsentKeyIsNoOp(NormalizeRows(t.rows), pk);
  }

  // ---------------------------------------------------------------------------
  // The demo run of main

  /** The table createDatabaseJsonFile writes. */
  const Users := TableDoc("users",
    [Column("id", "int", true), Column("username", "string", false),
     Column("email", "string", false), Column("is_active", "bool", false)],
    [])

  const User1: Row := [Str("user1"), Str("user1@example.com"), Bool(true)]
  const User2: Row := [Str("user2"), Str("user2@example.com"), Bool(false)]
  const User3: Row := [Str("user3"), Str("user3@example.com"), Bool(true)]

  /** A keyed row whose other cells are not numbers reloads with only its key changed. */
  lemma ReloadKeyedRow(pk: int, values: Row)
    requires forall j :: 0 <= j < |values| ==> !values[j].Int?
    ensures NormalizeRow([Int(pk)] + values) == [Float(pk as real)] + values
    ensures NormalizeRow([Float(pk as real)] + values) == [Float(pk as real)] + values
  {
    var r := [Int(pk)] + values;
    assert forall j :: 1 <= j < |r| ==> r[j] == values[j - 1];
  }

  /**
   * main: three inserts with keys 1, 2, 3, each reloading what the previous
   * one saved, then delete of key 2 on the reloaded table: keys 1 and 3 are
   * left, in that order, now as float64 cells.
   */
  lemma DemoScenario()
    ensures KeysIssued(1, 3) == [1, 2, 3]
    ensures AppendKeyed(Reload(Users), 1, User1).rows == [[Int(1)] + User1]
    ensures var t3 := AppendKeyed(Reload(AppendKeyed(Reload(AppendKeyed(Reload(Users), 1, User1)), 2, User2)), 3, User3);
            DeleteKeyed(Reload(t3), 2) == TableDoc(Users.tableName, Users.columns, [[Float(1.0)] + User1, [Float(3.0)] + User3])
  {
    FreshProcessKeys(3);
    var t1 := AppendKeyed(Reload(Users), 1, User1);
    var t2 := AppendKeyed(Reload(t1), 2, User2);
    var t3 := AppendKeyed(Reload(t2), 3, User3);
    ReloadKeyedRow(1, User1);
    ReloadKeyedRow(2, User2);
    ReloadKeyedRow(3, User3);
    var r1, r2, r3 := [Float(1.0)] + User1, [Float(2.0)] + User2, [Float(3.0)] + User3;
    assert Reload(t1).rows == [r1];
    assert Reload(t2).rows == [r1, r2];
    assert Reload(t3).rows == [r1, r2, r3];
    ReloadedKeyMatches(1, User1);
    ReloadedKeyMatches(2, User2);
    ReloadedKeyMatches(3, User3);
    assert [r1, r2, r3][..2] == [r1, r2] && [r1, r2][..1] == [r1] && [r1][..0] == [];
    assert RowsWithout([r1], 2) == [r1];
    assert RowsWithout([r1, r2], 2) == [r1];
    assert RowsWithout([r1, r2, r3], 2) == [r1, r3];
  }

  /** The file after a write: the written table, or the old content when nothing was written. */
  function Persist(file: FileContent, written: Option<TableDoc>): FileContent
  {
    if written.Some? then Stored(written.value) else file
  }

  /** main as a run: a fresh counter, three inserts, then delete of key 2. */
  method RunDemo() returns (final: Option<TableDoc>)
    ensures final == Some(TableDoc("users", Users.columns, [[Float(1.0)] + User1, [Float(3.0)] + User3]))
  {
    var alloc := new KeyAllocator();
    var file := Stored(Users);
    var written := AddRowToJsonFile(alloc, file, User1);
    file := Persist(file, written);
    written := AddRowToJsonFile(alloc, file, User2);
    file := Persist(file, written);
    written := AddRowToJsonFile(alloc, file, User3);
    file := Persist(file, written);
    final := DeleteRowFromJsonFile(file, 2);
    DemoScenario();
  }
}
