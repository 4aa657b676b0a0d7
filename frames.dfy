/** A pandas DataFrame: named columns, each of object dtype (text, possibly
    mixed), of a number dtype, or of some other dtype such as datetime or
    bool, and rows of cells. */
module Frames {

  datatype Option<T> = None | Some(value: T)

  /** One cell: pandas' missing value NaN, a number, or a text value. */
  datatype Cell = Missing | Num(x: real) | Text(s: string)

  /** The dtypes the code tells apart: `object`, the number dtypes that
      `select_dtypes(include=['float', 'int'])` picks, and every other dtype
      (datetime, bool, ...). */
  datatype DType = Object | Numeric | Other

  /** A column header; `isObject` is `dtype == 'object'`. */
  datatype Column = Column(name: string, dtype: DType)
  {
    const isObject: bool := dtype == Object
  }

  /** A table stored row by row; `rows[r][j]` is the cell of row `r` in column `j`. */
  datatype Frame = Frame(columns: seq<Column>, rows: seq<seq<Cell>>)

  /** Every row has one cell per column, and only an object column holds text. */
  predicate WellFormed(f: Frame)
  {
    forall r :: 0 <= r < |f.rows| ==>
      |f.rows[r]| == |f.columns| &&
      forall j :: 0 <= j < |f.columns| && !f.columns[j].isObject ==> !f.rows[r][j].Text?
  }

  function Names(f: Frame): (names: seq<string>)
    ensures |names| == |f.columns|
    ensures forall j :: 0 <= j < |f.columns| ==> names[j] == f.columns[j].name
  {
    seq(|f.columns|, j requires 0 <= j < |f.columns| => f.columns[j].name)
  }

  /** Position of the first column called `name` (`df[name]`; `None` is a KeyError). */
  function IndexOf(names: seq<string>, name: string): (r: Option<nat>)
    ensures r.None? <==> name !in names
    ensures r.Some? ==> r.value < |names| && names[r.value] == name && name !in names[..r.value]
  {
    if names == [] then None
    else if names[0] == name then Some(0)
    else
      match IndexOf(names[1..], name)
      case None => None
      case Some(k) =>
        assert names[1..][..k] == names[1..k + 1];
        Some(k + 1)
  }

  /** The cells of column `j`, top to bottom (`df[col]`). */
  function ColumnCells(f: Frame, j: nat): (cells: seq<Cell>)
    requires WellFormed(f) && j < |f.columns|
    ensures |cells| == |f.rows|
    ensures forall r :: 0 <= r < |f.rows| ==> cells[r] == f.rows[r][j]
  {
    seq(|f.rows|, r requires 0 <= r < |f.rows| => f.rows[r][j])
  }

  /** A numeric column read as an optional real per row. */
  function NumericValues(cells: seq<Cell>): (xs: seq<Option<real>>)
    ensures |xs| == |cells|
    ensures forall i :: 0 <= i < |cells| ==> (xs[i].Some? <==> cells[i].Num?)
    ensures forall i :: 0 <= i < |cells| && cells[i].Num? ==> xs[i].value == cells[i].x
  {
    seq(|cells|, i requires 0 <= i < |cells| => if cells[i].Num? then Some(cells[i].x) else None)
  }
}
