/**
 * Cells, columns and value coercion: how a raw console token becomes a typed
 * cell according to a column's declared type string (the switch statements in
 * AddRowFromUser and UpdateRowFromUser of dbmodule.go). The text parsers the
 * switch calls, Go's strconv.Atoi and strconv.ParseBool, are modelled here too,
 * because the value they return on failure is what an update stores.
 */
module Coercion {

  /**
   * A cell of a row. Go stores cells as interface{}; these are the four dynamic
   * types a table cell takes. A float64 is modelled by the real it denotes.
   */
  datatype Cell = Int(i: int) | Float(f: real) | Bool(b: bool) | Str(s: string)

  /** A row of a table: one cell per column, primary-key cells first. */
  type Row = seq<Cell>

  /** A column of the schema: its name, its type string and its primary flag. */
  datatype Column = Column(name: string, dataType: string, isPrimary: bool)

  /** A parse result as Go returns it: the value, and whether the error is nil. */
  datatype Parsed<T> = Parsed(value: T, ok: bool)

  /** strconv.ParseFloat(s, 64), which the model leaves uninterpreted. */
  type FloatParser = string -> Parsed<real>

  const MaxInt64: int := 0x7fff_ffff_ffff_ffff
  const MinInt64: int := -0x8000_0000_0000_0000
  const MaxUint64: int := 0xffff_ffff_ffff_ffff

  /** The range of Go's int on a 64-bit platform. */
  predicate InInt64(n: int)
  {
    MinInt64 <= n <= MaxInt64
  }

  // ---------------------------------------------------------------------------
  // Decimal text

  predicate IsDigit(c: char)
  {
    '0' <= c <= '9'
  }

  predicate AllDigits(s: string)
  {
    forall i :: 0 <= i < |s| ==> IsDigit(s[i])
  }

  /** The length of the longest prefix of s made of decimal digits. */
  function DigitRun(s: string): (n: nat)
    ensures n <= |s| && AllDigits(s[..n])
    ensures n < |s| ==> !IsDigit(s[n])
  {
    if s == [] || !IsDigit(s[0]) then 0
    else
      var n := 1 + DigitRun(s[1..]);
      assert s[..n] == [s[0]] + s[1..][..n - 1];
      n
  }

  /** The number a string of decimal digits denotes, read most significant digit first. */
  function DecimalValue(d: string): nat
    requires AllDigits(d)
  {
    if d == [] then 0
    else 10 * DecimalValue(d[..|d| - 1]) + (d[|d| - 1] as int - '0' as int)
  }

  function Pow10(k: nat): nat
  {
    if k == 0 then 1 else 10 * Pow10(k - 1)
  }

  /** The text after one leading sign character, if there is one. */
  function Unsigned(s: string): string
  {
    if |s| > 0 && (s[0] == '-' || s[0] == '+') then s[1..] else s
  }

  predicate Negative(s: string)
  {
    |s| > 0 && s[0] == '-'
  }

  /** s is an optional sign followed by at least one decimal digit. */
  predicate IsIntegerText(s: string)
  {
    |Unsigned(s)| > 0 && AllDigits(Unsigned(s))
  }

  /** The integer an integer text denotes, without any width limit. */
  function IntegerTextValue(s: string): int
    requires IsIntegerText(s)
  {
    var u: int := DecimalValue(Unsigned(s));
    if Negative(s) then -u else u
  }

  // ---------------------------------------------------------------------------
  // The parsers the coercion switch calls

  /**
   * strconv.Atoi on a 64-bit platform. It succeeds exactly on decimal text whose
   * value fits in an int. On failure Go still returns a value: 0 after a syntax
   * error, and the nearest bound when the digits overflow, which Go detects
   * while scanning digits, before it reaches any later non-digit.
   */
  function Atoi(s: string): (r: Parsed<int>)
    ensures InInt64(r.value)
    ensures r.ok <==> IsIntegerText(s) && InInt64(IntegerTextValue(s))
    ensures r.ok ==> r.value == IntegerTextValue(s)
    ensures !r.ok ==> r.value == 0 || r.value == MaxInt64 || r.value == MinInt64
    ensures !r.ok && IsIntegerText(s) ==> r.value == (if Negative(s) then MinInt64 else MaxInt64)
    ensures !IsIntegerText(s) && DecimalValue(Unsigned(s)[..DigitRun(Unsigned(s))]) <= MaxUint64 ==> r.value == 0
    ensures !IsIntegerText(s) && DecimalValue(Unsigned(s)[..DigitRun(Unsigned(s))]) > MaxUint64 ==>
              r.value == (if Negative(s) then MinInt64 else MaxInt64)
  {
    var digits := Unsigned(s);
    var run := DigitRun(digits);
    var u: int := DecimalValue(digits[..run]);
    if run == |digits| && run > 0 then
      assert digits[..run] == digits;
      if !Negative(s) && u > MaxInt64 then Parsed(MaxInt64, false)
      else if Negative(s) && u > MaxInt64 + 1 then Parsed(MinInt64, false)
      else Parsed(if Negative(s) then -u else u, true)
    else if run > 0 && u > MaxUint64 then
      Parsed(if Negative(s) then MinInt64 else MaxInt64, false)
    else
      Parsed(0, false)
  }

  const TrueTokens: set<string> := {"1", "t", "T", "true", "TRUE", "True"}
  const FalseTokens: set<string> := {"0", "f", "F", "false", "FALSE", "False"}

  /** strconv.ParseBool: a fixed set of accepted spellings; false on failure. */
  function ParseBool(s: string): (r: Parsed<bool>)
    ensures r.ok <==> s in TrueTokens + FalseTokens
    ensures r.value <==> s in TrueTokens
  {
    match s
    case "1" | "t" | "T" | "true" | "TRUE" | "True" => Parsed(true, true)
    case "0" | "f" | "F" | "false" | "FALSE" | "False" => Parsed(false, true)
    case _ => Parsed(false, false)
  }

  // ---------------------------------------------------------------------------
  // Coercion

  /** The cell has the dynamic type the type string selects ("string" or any unknown type: text). */
  predicate Fits(dataType: string, c: Cell)
  {
    match dataType
    case "int" => c.Int?
    case "float64" => c.Float?
    case "bool" => c.Bool?
    case _ => c.Str?
  }

  /**
   * The switch on the column's type string. The result always has the type the
   * type string selects; CoerceMeaning states what it holds.
   */
  function Coerce(raw: string, dataType: string, parseFloat: FloatParser): (r: Parsed<Cell>)
    ensures Fits(dataType, r.value)
  {
    match dataType
    case "int" => var p := Atoi(raw); Parsed(Int(p.value), p.ok)
    case "float64" => var p := parseFloat(raw); Parsed(Float(p.value), p.ok)
    case "bool" => var p := ParseBool(raw); Parsed(Bool(p.value), p.ok)
    case _ => Parsed(Str(raw), true)
  }

  /**
   * An int cell is accepted exactly when the text is a decimal integer within
   * the 64-bit range, and then holds that integer; a bool cell is accepted
   * exactly on one of ParseBool's spellings and holds whether it is a true one;
   * any type other than int, float64 and bool passes the raw text through and
   * never fails.
   */
  lemma CoerceMeaning(raw: string, dataType: string, parseFloat: FloatParser)
    ensures var r := Coerce(raw, dataType, parseFloat);
            && (dataType != "int" && dataType != "float64" && dataType != "bool" ==> r == Parsed(Str(raw), true))
            && (dataType == "int" ==> (r.ok <==> IsIntegerText(raw) && InInt64(IntegerTextValue(raw))))
            && (dataType == "int" && r.ok ==> r.value == Int(IntegerTextValue(raw)))
            && (dataType == "bool" ==> (r.ok <==> raw in TrueTokens + FalseTokens) && r.value == Bool(raw in TrueTokens))
  {
  }

  // ---------------------------------------------------------------------------
  // What a JSON save and load does to cells

  /**
   * A cell as it reads back from JSON: Go decodes every JSON number inside an
   * interface{} as a float64, so an int cell comes back as the float64 of the
   * same value and every other cell comes back unchanged.
   */
  function NormalizeCell(c: Cell): (r: Cell)
    ensures !r.Int?
    ensures c.Int? ==> r == Float(c.i as real)
    ensures !c.Int? ==> r == c
  {
    match c
    case Int(n) => Float(n as real)
    case _ => c
  }

  function NormalizeRow(row: Row): (r: Row)
    ensures |r| == |row|
  {
    seq(|row|, j requires 0 <= j < |row| => NormalizeCell(row[j]))
  }

  function NormalizeRows(rows: seq<Row>): (r: seq<Row>)
    ensures |r| == |rows|
  {
    seq(|rows|, i requires 0 <= i < |rows| => NormalizeRow(rows[i]))
  }

  // ---------------------------------------------------------------------------
  // Decimal rendering, the inverse of Atoi (fmt's %d, used to list ordinals)

  function DigitChar(d: nat): char
    requires d < 10
  {
    ('0' as int + d) as char
  }

  /** The decimal digits of n, most significant first, without leading zeros. */
  function Decimal(n: nat): string
  {
    if n < 10 then [DigitChar(n)] else Decimal(n / 10) + [DigitChar(n % 10)]
  }

  function FormatInt(n: int): string
  {
    if n < 0 then "-" + Decimal(-n) else Decimal(n)
  }

  lemma {:induction false} DecimalDenotes(n: nat)
    ensures |Decimal(n)| > 0 && AllDigits(Decimal(n))
    ensures DecimalValue(Decimal(n)) == n
  {
    if n >= 10 {
      DecimalDenotes(n / 10);
      var d := Decimal(n);
      assert d[..|d| - 1] == Decimal(n / 10);
    }
  }

  /** Parsing the decimal rendering of any 64-bit int gives that int back. */
  lemma AtoiFormatRoundTrip(n: int)
    requires InInt64(n)
    ensures Atoi(FormatInt(n)) == Parsed(n, true)
  {
    var m := if n < 0 then -n else n;
    DecimalDenotes(m);
    var s := FormatInt(n);
    if n < 0 {
      assert Unsigned(s) == Decimal(m) && Negative(s);
    } else {
      assert IsDigit(s[0]);
      assert Unsigned(s) == s && !Negative(s);
    }
  }

  lemma {:induction false} DecimalValueBound(d: string)
    requires AllDigits(d)
    ensures DecimalValue(d) < Pow10(|d|)
  {
    if d != [] {
      DecimalValueBound(d[..|d| - 1]);
    }
  }

  lemma {:induction false} Pow10Monotone(j: nat, k: nat)
    requires j <= k
    ensures Pow10(j) <= Pow10(k)
  {
    if j < k {
      Pow10Monotone(j, k - 1);
    }
  }

  lemma Pow10Of19()
    ensures Pow10(19) == 10_000_000_000_000_000_000
  {
    assert Pow10(4) == 10_000;
    assert Pow10(8) == 100_000_000;
    assert Pow10(12) == 1_000_000_000_000;
    assert Pow10(16) == 10_000_000_000_000_000;
  }

  /**
   * A short malformed integer text (at most 20 characters, so that its leading
   * digits cannot overflow) is rejected with the value 0, which is what an
   * update stores for it.
   */
  lemma MalformedIntIsZero(s: string)
    requires |s| <= 20 && !IsIntegerText(s)
    ensures Atoi(s) == Parsed(0, false)
  {
    var digits := Unsigned(s);
    var run := DigitRun(digits);
    if run > 0 {
      assert digits[..run] != digits;
      DecimalValueBound(digits[..run]);
      Pow10Monotone(run, 19);
      Pow10Of19();
    }
  }

  /** Text that is not a number is rejected by the int coercion (and stores Int(0)). */
  lemma NonNumericIntRejected(parseFloat: FloatParser)
    ensures Coerce("abc", "int", parseFloat) == Parsed(Int(0), false)
  {
    CoerceMeaning("abc", "int", parseFloat);
    assert !IsDigit('a');
    assert DigitRun("abc") == 0;
  }

  /** A malformed bool is rejected and stores false. */
  lemma MalformedBoolIsFalse(raw: string, parseFloat: FloatParser)
    requires raw !in TrueTokens + FalseTokens
    ensures Coerce(raw, "bool", parseFloat) == Parsed(Bool(false), false)
  {
    CoerceMeaning(raw, "bool", parseFloat);
  }
}
