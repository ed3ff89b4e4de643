/** The data the dashboard works on: a pandas data frame as `pd.read_csv`
    leaves it, that is a header of column names and rows of cells. */
module Table {

  datatype Option<T> = None | Some(value: T)

  datatype Result<T, E> = Success(value: T) | Failure(error: E)

  /** One cell: the text read from the file, a number, or missing (pandas' NaN). */
  datatype Cell = Missing | Text(text: string) | Num(value: real)

  /** A row maps column names to cells. */
  type Row = map<string, Cell>

  /** A data frame: the header (`df.columns`) and the rows in file order. */
  datatype Frame = Frame(columns: seq<string>, rows: seq<Row>)

  /** What stops the script part-way. */
  datatype Error =
    | KeyError(column: string)         // pandas: `df[col]` or `df.groupby(col)` on an absent column
    | PlotColumnError(column: string)  // plotly express: an argument names an absent column
    | PlotValueError(column: string)   // plotly: a column's values are not valid for the property drawn from it

  /** The cell of `row` in column `col`; a row that has no cell there
      (a short CSV line) reads as missing, as `read_csv` pads it with NaN. */
  function Get(row: Row, col: string): Cell
  {
    if col in row then row[col] else Missing
  }

  /** The position of the first name of `wanted` that is not in `have`,
      or |wanted| when all of them are there: where a loop that looks the
      names up one by one stops. */
  function FirstAbsent(have: seq<string>, wanted: seq<string>): (k: nat)
    ensures k <= |wanted|
    ensures forall j :: 0 <= j < k ==> wanted[j] in have
    ensures k < |wanted| ==> wanted[k] !in have
  {
    if wanted == [] then 0
    else if wanted[0] !in have then 0
    else 1 + FirstAbsent(have, wanted[1..])
  }
}
