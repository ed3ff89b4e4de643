/** The first step after the upload: the four numeric columns are coerced to
    numbers in place, a cell that is not a number becoming missing
    (`pd.to_numeric(df[col], errors="coerce")` for each of them in turn). */
module Coercion {
  import opened Table
  import opened Numbers

  /** The columns coerced, in the order the loop visits them. */
  const NumericColumns: seq<string> := ["Sales", "Profit", "Discount", "Quantity"]

  /** `to_numeric` with `errors="coerce"` on one cell. */
  function ToNumeric(c: Cell): (r: Cell)
    ensures r.Num? || r.Missing?
    ensures c.Num? || c.Missing? ==> r == c
  {
    match c
    case Missing => Missing
    case Num(_) => c
    case Text(s) =>
      match ParseNumber(s)
      case Some(x) => Num(x)
      case None => Missing
  }

  /** Text that is not a number, a stray letter say, becomes missing. */
  lemma TextRejected(s: string, k: nat)
    requires k < |s| && !IsDigit(s[k]) && s[k] != '.'
    requires k == 0 ==> s[k] != '-' && s[k] != '+'
    ensures ToNumeric(Text(s)) == Missing
  {
    NonNumericRejected(s, k);
  }

  /** Text that spells an integer becomes that number. */
  lemma IntegerTextRead(n: int)
    ensures ToNumeric(Text(IntText(n))) == Num(n as real)
  {
    NumberRoundTrip(n);
  }

  /** `df[col] = pd.to_numeric(df[col], errors="coerce")`: every row's cell
      in `col` is coerced, and every other cell is left as it was. */
  function ToNumericColumn(rows: seq<Row>, col: string): (r: seq<Row>)
    ensures |r| == |rows|
    ensures forall i, c :: 0 <= i < |rows| ==>
      Get(r[i], c) == if c == col then ToNumeric(Get(rows[i], col)) else Get(rows[i], c)
  {
    seq(|rows|, i requires 0 <= i < |rows| => rows[i][col := ToNumeric(Get(rows[i], col))])
  }

  /** The rows after the columns `cols` have been coerced one after another. */
  function CoercedThrough(rows: seq<Row>, cols: seq<string>): seq<Row>
    decreases |cols|
  {
    if cols == [] then rows
    else ToNumericColumn(CoercedThrough(rows, cols[..|cols| - 1]), cols[|cols| - 1])
  }

  /** Coercing a list of columns coerces exactly the cells in those columns,
      whatever order or repetition, and leaves every other cell and row alone. */
  lemma {:induction false} CoercedCells(rows: seq<Row>, cols: seq<string>)
    ensures |CoercedThrough(rows, cols)| == |rows|
    ensures forall i, c :: 0 <= i < |rows| ==>
      Get(CoercedThrough(rows, cols)[i], c) ==
        if c in cols then ToNumeric(Get(rows[i], c)) else Get(rows[i], c)
    decreases |cols|
  {
    if cols != [] {
      var init := cols[..|cols| - 1];
      var last := cols[|cols| - 1];
      assert cols == init + [last];
      CoercedCells(rows, init);
      var prev := CoercedThrough(rows, init);
      assert CoercedThrough(rows, cols) == ToNumericColumn(prev, last);
      forall i, c | 0 <= i < |rows|
        ensures Get(CoercedThrough(rows, cols)[i], c) ==
          if c in cols then ToNumeric(Get(rows[i], c)) else Get(rows[i], c)
      {
        assert c in cols <==> c in init || c == last;
      }
    }
  }

  /** After the four columns are coerced, each of them holds only numbers and missing cells. */
  lemma CoercedNumeric(rows: seq<Row>)
    ensures |CoercedThrough(rows, NumericColumns)| == |rows|
    ensures forall i, c :: 0 <= i < |rows| ==>
      Get(CoercedThrough(rows, NumericColumns)[i], c) ==
        if c in NumericColumns then ToNumeric(Get(rows[i], c)) else Get(rows[i], c)
    ensures forall i, j :: 0 <= i < |rows| && 0 <= j < |NumericColumns| ==>
      Get(CoercedThrough(rows, NumericColumns)[i], NumericColumns[j]).Num? ||
      Get(CoercedThrough(rows, NumericColumns)[i], NumericColumns[j]).Missing?
  {
    CoercedCells(rows, NumericColumns);
    forall i, j | 0 <= i < |rows| && 0 <= j < |NumericColumns|
      ensures Get(CoercedThrough(rows, NumericColumns)[i], NumericColumns[j]).Num? ||
        Get(CoercedThrough(rows, NumericColumns)[i], NumericColumns[j]).Missing?
    {
      assert NumericColumns[j] in NumericColumns;
    }
  }

  /** The coercion step as a whole. It fails, with pandas' KeyError, at the
      first of the four columns the frame lacks; otherwise it gives the frame
      with the four columns coerced and nothing else changed. */
  function Coerce(f: Frame): (r: Result<Frame, Error>)
    ensures r.Failure? <==> exists j :: 0 <= j < |NumericColumns| && NumericColumns[j] !in f.columns
    ensures r.Failure? ==>
      exists j :: 0 <= j < |NumericColumns| && r.error == KeyError(NumericColumns[j]) &&
        NumericColumns[j] !in f.columns && forall j' :: 0 <= j' < j ==> NumericColumns[j'] in f.columns
    ensures r.Success? ==> r.value.columns == f.columns && |r.value.rows| == |f.rows|
    ensures r.Success? ==> forall i, c :: 0 <= i < |f.rows| ==>
      Get(r.value.rows[i], c) == if c in NumericColumns then ToNumeric(Get(f.rows[i], c)) else Get(f.rows[i], c)
    ensures r.Success? ==> forall i, j :: 0 <= i < |f.rows| && 0 <= j < |NumericColumns| ==>
      Get(r.value.rows[i], NumericColumns[j]).Num? || Get(r.value.rows[i], NumericColumns[j]).Missing?
  {
    var k := FirstAbsent(f.columns, NumericColumns);
    if k < |NumericColumns| then
      assert NumericColumns[k] !in f.columns;
      Failure(KeyError(NumericColumns[k]))
    else
      CoercedNumeric(f.rows);
      Success(Frame(f.columns, CoercedThrough(f.rows, NumericColumns)))
  }

  /** The data frame the script holds in `df`, whose columns it overwrites. */
  class DataFrame {
    var columns: seq<string>
    var rows: seq<Row>

    constructor (f: Frame)
      ensures columns == f.columns && rows == f.rows
    {
      columns := f.columns;
      rows := f.rows;
    }

    function Value(): Frame
      reads this
    {
      Frame(columns, rows)
    }

    /** The loop over the four numeric columns. On an absent column it stops
        with KeyError, the columns before it already overwritten. */
    method CoerceNumericColumns() returns (err: Option<Error>)
      modifies this
      ensures columns == old(columns)
      ensures var k := FirstAbsent(old(columns), NumericColumns);
        && rows == CoercedThrough(old(rows), NumericColumns[..k])
        && err == if k < |NumericColumns| then Some(KeyError(NumericColumns[k])) else None
      ensures |rows| == |old(rows)|
      ensures var k := FirstAbsent(old(columns), NumericColumns);
        forall i, c :: 0 <= i < |rows| ==>
          Get(rows[i], c) == (if c in NumericColumns[..k] then ToNumeric(Get(old(rows)[i], c)) else Get(old(rows)[i], c))
      ensures err.None? ==> Coerce(old(Value())) == Success(Value())
      ensures err.Some? ==> Coerce(old(Value())) == Failure(err.value)
    {
      for i := 0 to |NumericColumns|
        invariant columns == old(columns)
        invariant forall j :: 0 <= j < i ==> NumericColumns[j] in columns
        invariant rows == CoercedThrough(old(rows), NumericColumns[..i])
      {
        var col := NumericColumns[i];
        if col !in columns {
          CoercedCells(old(rows), NumericColumns[..i]);
          return Some(KeyError(col));
        }
        assert NumericColumns[..i + 1][..i] == NumericColumns[..i];
        rows := ToNumericColumn(rows, col);
      }
      assert NumericColumns[..|NumericColumns|] == NumericColumns;
      CoercedCells(old(rows), NumericColumns);
      return None;
    }
  }
}
