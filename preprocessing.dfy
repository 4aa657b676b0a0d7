/** `clean_data` and `summarize_kpis`: the cleaning of the raw KPI table
    (all-missing columns dropped, rows with a `/0` cell in a numeric column
    dropped, text cells normalised and converted to numbers where possible)
    and the per-KPI summary sorted by missing count. */
module Preprocessing {
  import opened Frames
  import opened Strings
  import opened Sequences
  import opened Stats

  /** Columns that are never checked for `/0`. */
  const NonNumericColumns: seq<string> :=
    ["Date", "eNodeB Name", "eNodeB Function Name", "Cell Name", "Cell FDD TDD Indication"]

  const DivZero: string := "/0"

  /** `astype(str)` of one cell: NaN reads `"nan"`; `show` is Python's `str`
      of a number. */
  function AsText(c: Cell, show: real -> string): string
  {
    match c
    case Missing => "nan"
    case Num(x) => show(x)
    case Text(s) => s
  }

  // ---------------------------------------------------------------------------
  // Cell-text normalisation

  /** `.replace(',', '.')`, then `.replace('%', '')`, then `.replace(' ', '')`. */
  function NormaliseText(s: string): string
  {
    ReplaceChar(ReplaceChar(ReplaceChar(s, ',', "."), '%', ""), ' ', "")
  }

  /** After normalisation no comma, percent sign or space is left; every comma
      has become a full stop, percent signs and spaces are gone, and every
      other character is kept as often as it occurred. */
  lemma NormaliseTextSpec(s: string)
    ensures ',' !in NormaliseText(s) && '%' !in NormaliseText(s) && ' ' !in NormaliseText(s)
    ensures |NormaliseText(s)| == |s| - CountChar(s, '%') - CountChar(s, ' ')
    ensures CountChar(NormaliseText(s), '.') == CountChar(s, '.') + CountChar(s, ',')
    ensures forall d :: d != ',' && d != '%' && d != ' ' && d != '.' ==>
      CountChar(NormaliseText(s), d) == CountChar(s, d)
  {
    var s1 := ReplaceChar(s, ',', ".");
    var s2 := ReplaceChar(s1, '%', "");
    CountAfterReplace(s, ',', ".", '%');
    CountAfterReplace(s, ',', ".", ' ');
    CountAfterReplace(s1, '%', "", ' ');
    CountAfterReplace(s, ',', ".", '.');
    CountAfterReplace(s1, '%', "", '.');
    CountAfterReplace(s2, ' ', "", '.');
    CountAfterReplace(s1, '%', "", ',');
    CountAfterReplace(s2, ' ', "", ',');
    CountAfterReplace(s2, ' ', "", '%');
    forall d | d != ',' && d != '%' && d != ' ' && d != '.'
      ensures CountChar(NormaliseText(s), d) == CountChar(s, d)
    {
      CountAfterReplace(s, ',', ".", d);
      CountAfterReplace(s1, '%', "", d);
      CountAfterReplace(s2, ' ', "", d);
    }
  }

  /** Normalising normalised text changes nothing. */
  lemma NormaliseTextIdempotent(s: string)
    ensures NormaliseText(NormaliseText(s)) == NormaliseText(s)
  {
    var t := NormaliseText(s);
    NormaliseTextSpec(s);
    ReplaceAbsent(t, ',', ".");
    ReplaceAbsent(t, '%', "");
    ReplaceAbsent(t, ' ', "");
  }

  /** One object-column cell after the replace chain: text that ends up
      empty becomes missing (`.replace('', np.nan)`). */
  function NormaliseCell(c: Cell, show: real -> string): (n: Cell)
    ensures n.Missing? || n.Text?
    ensures n == Missing <==> NormaliseText(AsText(c, show)) == ""
  {
    var t := NormaliseText(AsText(c, show));
    if t == "" then Missing else Text(t)
  }

  /** A text cell whose normalised text is non-empty is left as it is by a
      second pass. A missing cell is not: it reads `"nan"` and comes back as
      that text, so a cell that normalised to missing does not survive a
      second pass unchanged. */
  lemma NormaliseCellIdempotent(s: string, show: real -> string)
    ensures NormaliseText(s) != "" ==>
      NormaliseCell(NormaliseCell(Text(s), show), show) == NormaliseCell(Text(s), show)
    ensures NormaliseCell(Missing, show) == Text("nan")
  {
    NormaliseTextIdempotent(s);
    ReplaceAbsent("nan", ',', ".");
    ReplaceAbsent("nan", '%', "");
    ReplaceAbsent("nan", ' ', "");
  }

  // ---------------------------------------------------------------------------
  // pd.to_numeric(column, errors='raise')

  /** How `to_numeric` reads one string: not a number (the whole conversion
      raises `ValueError`), NaN (for example `"nan"`), or a number. */
  datatype Parsed = Invalid | NotANumber | Number(x: real)

  function ParseCell(c: Cell, parse: string -> Parsed): Parsed
  {
    match c
    case Missing => NotANumber
    case Num(x) => Number(x)
    case Text(s) => parse(s)
  }

  /** The converted column, or `None` when some cell raises. */
  function ToNumeric(cells: seq<Cell>, parse: string -> Parsed): (r: Option<seq<Cell>>)
    ensures r.None? <==> exists i :: 0 <= i < |cells| && ParseCell(cells[i], parse).Invalid?
    ensures r.Some? ==> |r.value| == |cells| && forall i :: 0 <= i < |cells| ==>
      r.value[i] == (if ParseCell(cells[i], parse).Number? then Num(ParseCell(cells[i], parse).x) else Missing)
  {
    if cells == [] then Some([])
    else
      var init, last := cells[..|cells| - 1], cells[|cells| - 1];
      var p := ParseCell(last, parse);
      match ToNumeric(init, parse)
      case None =>
        var i :| 0 <= i < |init| && ParseCell(init[i], parse).Invalid?;
        assert cells[i] == init[i];
        None
      case Some(done) =>
        if p.Invalid? then None
        else
          var r := done + [if p.Number? then Num(p.x) else Missing];
          assert forall i :: 0 <= i < |init| ==> cells[i] == init[i];
          Some(r)
  }

  /** The rewrite of one object column: the normalised cells converted to
      numbers when every cell converts, and otherwise the normalised text
      itself. The flag says whether the column stays of object dtype
      (`RewriteColumnConversion` states when it does). */
  function RewriteColumn(cells: seq<Cell>, show: real -> string, parse: string -> Parsed): (r: (seq<Cell>, bool))
    ensures |r.0| == |cells|
    ensures r.1 ==> forall i :: 0 <= i < |cells| ==> r.0[i] == NormaliseCell(cells[i], show)
    ensures !r.1 ==> forall i :: 0 <= i < |cells| ==> !r.0[i].Text?
  {
    var normalised := seq(|cells|, i requires 0 <= i < |cells| => NormaliseCell(cells[i], show));
    match ToNumeric(normalised, parse)
    case None => (normalised, true)
    case Some(numbers) => (numbers, false)
  }

  /** The column after the replace chain and `.replace('', np.nan)`. */
  function NormaliseCells(cells: seq<Cell>, show: real -> string): (n: seq<Cell>)
    ensures |n| == |cells| && forall i :: 0 <= i < |cells| ==> n[i] == NormaliseCell(cells[i], show)
  {
    seq(|cells|, i requires 0 <= i < |cells| => NormaliseCell(cells[i], show))
  }

  /** `to_numeric` of the normalised column, stated cell by cell on the
      original cells. */
  lemma NormalisedConversion(cells: seq<Cell>, show: real -> string, parse: string -> Parsed)
    ensures var t := ToNumeric(NormaliseCells(cells, show), parse);
      && (t.None? <==> exists i :: 0 <= i < |cells| && ParseCell(NormaliseCell(cells[i], show), parse).Invalid?)
      && (t.Some? ==> forall i :: 0 <= i < |cells| ==>
            var p := ParseCell(NormaliseCell(cells[i], show), parse);
            t.value[i] == if p.Number? then Num(p.x) else Missing)
  {
    var n := NormaliseCells(cells, show);
    if ToNumeric(n, parse).None? {
      var i :| 0 <= i < |n| && ParseCell(n[i], parse).Invalid?;
      assert n[i] == NormaliseCell(cells[i], show);
    }
  }

  /** The column stays text exactly when some normalised cell does not
      parse; otherwise a cell that parses to a number becomes that number
      and a cell that parses to a missing value becomes missing. */
  lemma RewriteColumnConversion(cells: seq<Cell>, show: real -> string, parse: string -> Parsed)
    ensures RewriteColumn(cells, show, parse).1
      <==> exists i :: 0 <= i < |cells| && ParseCell(NormaliseCell(cells[i], show), parse).Invalid?
    ensures !RewriteColumn(cells, show, parse).1 ==> forall i :: 0 <= i < |cells| ==>
      var p := ParseCell(NormaliseCell(cells[i], show), parse);
      RewriteColumn(cells, show, parse).0[i] == if p.Number? then Num(p.x) else Missing
  {
    assert NormaliseCells(cells, show) == seq(|cells|, i requires 0 <= i < |cells| => NormaliseCell(cells[i], show));
    NormalisedConversion(cells, show, parse);
  }

  /** When some normalised cell does not parse, the column keeps the
      normalised text, not the original cells. */
  lemma FailedConversionKeepsNormalisedText(cells: seq<Cell>, show: real -> string, parse: string -> Parsed, i: nat)
    requires i < |cells|
    requires parse(NormaliseText(AsText(cells[i], show))).Invalid?
    requires NormaliseText(AsText(cells[i], show)) != ""
    ensures RewriteColumn(cells, show, parse).1
    ensures RewriteColumn(cells, show, parse).0 ==
      seq(|cells|, k requires 0 <= k < |cells| => NormaliseCell(cells[k], show))
  {
    var normalised := seq(|cells|, k requires 0 <= k < |cells| => NormaliseCell(cells[k], show));
    assert ParseCell(normalised[i], parse).Invalid?;
  }

  // ---------------------------------------------------------------------------
  // dropna(axis='columns', how='all')

  /** Column `j` has at least one non-missing cell. */
  predicate HasValue(f: Frame, j: nat)
  {
    exists r :: 0 <= r < |f.rows| && j < |f.rows[r]| && f.rows[r][j] != Missing
  }

  function Range(n: nat): (s: seq<nat>)
    ensures |s| == n && forall i :: 0 <= i < n ==> s[i] == i
  {
    if n == 0 then [] else Range(n - 1) + [n - 1]
  }

  /** Positions of the columns that `dropna(axis='columns', how='all')` keeps. */
  function KeptColumns(f: Frame): (ix: seq<nat>)
    ensures forall k :: 0 <= k < |ix| ==> ix[k] < |f.columns|
    ensures forall k, l :: 0 <= k < l < |ix| ==> ix[k] < ix[l]
    ensures forall j :: 0 <= j < |f.columns| ==> (j in ix <==> HasValue(f, j))
  {
    var all := Range(|f.columns|);
    var p := (j: nat) => HasValue(f, j);
    FilterIsOrderedSubsequence(all, p);
    FilterMembership(all, p);
    var ix := Filter(all, p);
    forall j | 0 <= j < |f.columns| ensures j in ix <==> HasValue(f, j) {
      assert all[j] == j;
    }
    ix
  }

  /** The frame restricted to the columns at positions `ix`, in that order. */
  function SelectColumns(f: Frame, ix: seq<nat>): (g: Frame)
    requires WellFormed(f)
    requires forall k :: 0 <= k < |ix| ==> ix[k] < |f.columns|
    ensures WellFormed(g)
    ensures |g.columns| == |ix| && |g.rows| == |f.rows|
    ensures forall k :: 0 <= k < |ix| ==> g.columns[k] == f.columns[ix[k]]
    ensures forall r, k :: 0 <= r < |f.rows| && 0 <= k < |ix| ==> g.rows[r][k] == f.rows[r][ix[k]]
  {
    Frame(seq(|ix|, k requires 0 <= k < |ix| => f.columns[ix[k]]),
          seq(|f.rows|, r requires 0 <= r < |f.rows| =>
            seq(|ix|, k requires 0 <= k < |ix| => f.rows[r][ix[k]])))
  }

  /** `df.dropna(axis='columns', how='all')`: a column survives exactly when
      it holds a non-missing cell; surviving columns keep their order and
      their cells. A table without rows loses every column. */
  function DropEmptyColumns(f: Frame): (g: Frame)
    requires WellFormed(f)
    ensures WellFormed(g)
    ensures |g.rows| == |f.rows|
  {
    SelectColumns(f, KeptColumns(f))
  }

  lemma DropEmptyColumnsSpec(f: Frame)
    requires WellFormed(f)
    ensures var g, ix := DropEmptyColumns(f), KeptColumns(f);
      && |g.columns| == |ix|
      && (forall k :: 0 <= k < |ix| ==> g.columns[k] == f.columns[ix[k]] && HasValue(f, ix[k]))
      && (forall j :: 0 <= j < |f.columns| && HasValue(f, j) ==> j in ix)
      && (forall k, l :: 0 <= k < l < |ix| ==> ix[k] < ix[l])
      && (forall r, k :: 0 <= r < |f.rows| && 0 <= k < |ix| ==> g.rows[r][k] == f.rows[r][ix[k]])
  {
    var ix := KeptColumns(f);
    forall k | 0 <= k < |ix| ensures HasValue(f, ix[k]) {
      assert ix[k] in ix;
    }
  }

  // ---------------------------------------------------------------------------
  // The "/0" row filter

  /** The filter looks at object columns outside `NonNumericColumns`. */
  predicate Checked(c: Column)
  {
    c.isObject && c.name !in NonNumericColumns
  }

  /** The cell of `row` in column `j` reads as text containing `/0`. */
  predicate DivZeroAt(row: seq<Cell>, j: nat, show: real -> string)
  {
    j < |row| && Contains(AsText(row[j], show), DivZero)
  }

  /** No checked column among the first `n` has a `/0` cell in `row`. */
  predicate PassesUpTo(columns: seq<Column>, row: seq<Cell>, n: nat, show: real -> string)
  {
    forall j :: 0 <= j < n && j < |columns| && Checked(columns[j]) ==> !DivZeroAt(row, j, show)
  }

  /** `row` survives the `/0` filter. */
  predicate PassesDivZeroCheck(columns: seq<Column>, row: seq<Cell>, show: real -> string)
  {
    PassesUpTo(columns, row, |columns|, show)
  }

  /** The three row masks of the filter, as named function values. */
  function PassesAll(columns: seq<Column>, show: real -> string): seq<Cell> -> bool
  {
    row => PassesDivZeroCheck(columns, row, show)
  }

  function PassesFirst(columns: seq<Column>, n: nat, show: real -> string): seq<Cell> -> bool
  {
    row => PassesUpTo(columns, row, n, show)
  }

  function NoDivZeroAt(j: nat, show: real -> string): seq<Cell> -> bool
  {
    row => !DivZeroAt(row, j, show)
  }

  /** The rows that survive the `/0` filter, in table order. */
  function DivZeroSurvivors(f: Frame, show: real -> string): seq<seq<Cell>>
  {
    Filter(f.rows, PassesAll(f.columns, show))
  }

  /** Every surviving row is free of `/0` in every checked column; exempt
      columns are never looked at, so a `/0` there does not drop the row. */
  lemma SurvivorsHaveNoDivZero(f: Frame, show: real -> string)
    ensures forall k, j :: 0 <= k < |DivZeroSurvivors(f, show)| && 0 <= j < |f.columns| && Checked(f.columns[j]) ==>
      !DivZeroAt(DivZeroSurvivors(f, show)[k], j, show)
    ensures forall r :: 0 <= r < |f.rows| ==>
      (f.rows[r] in DivZeroSurvivors(f, show) <==> PassesDivZeroCheck(f.columns, f.rows[r], show))
  {
    var s := DivZeroSurvivors(f, show);
    FilterMembership(f.rows, PassesAll(f.columns, show));
    forall k | 0 <= k < |s| ensures PassesDivZeroCheck(f.columns, s[k], show) { }
    forall r | 0 <= r < |f.rows| && f.rows[r] in s ensures PassesDivZeroCheck(f.columns, f.rows[r], show) {
      var k :| 0 <= k < |s| && s[k] == f.rows[r];
    }
  }

  /** When no checked cell contains `/0`, every row survives, duplicates
      included: `clean_data` never deduplicates, as the result of
      `drop_duplicates()` is discarded. */
  lemma NoDivZeroKeepsAllRows(f: Frame, show: real -> string)
    requires forall r :: 0 <= r < |f.rows| ==> PassesDivZeroCheck(f.columns, f.rows[r], show)
    ensures DivZeroSurvivors(f, show) == f.rows
  {
    FilterKeepsAll(f.rows, PassesAll(f.columns, show));
  }

  /** Replaces column `j` by `cells`, of dtype `dtype`. */
  function SetColumn(f: Frame, j: nat, cells: seq<Cell>, dtype: DType): (g: Frame)
    requires WellFormed(f) && j < |f.columns| && |cells| == |f.rows|
    requires dtype != Object ==> forall r :: 0 <= r < |cells| ==> !cells[r].Text?
    ensures WellFormed(g)
    ensures |g.columns| == |f.columns| && |g.rows| == |f.rows|
    ensures g.columns == f.columns[j := Column(f.columns[j].name, dtype)]
    ensures forall r, k :: 0 <= r < |f.rows| && 0 <= k < |f.columns| ==>
      g.rows[r][k] == if k == j then cells[r] else f.rows[r][k]
  {
    Frame(f.columns[j := Column(f.columns[j].name, dtype)],
          seq(|f.rows|, r requires 0 <= r < |f.rows| => f.rows[r][j := cells[r]]))
  }

  /** A frame whose rows are some of the rows of a well-formed frame, under
      the same columns, is well formed. */
  lemma SurvivorsWellFormed(f: Frame, show: real -> string)
    requires WellFormed(f)
    ensures WellFormed(Frame(f.columns, DivZeroSurvivors(f, show)))
  {
    var s := DivZeroSurvivors(f, show);
    FilterMembership(f.rows, PassesAll(f.columns, show));
    forall k | 0 <= k < |s| ensures s[k] in f.rows {
    }
    forall k | 0 <= k < |s| ensures |s[k]| == |f.columns| {
      var r :| 0 <= r < |f.rows| && f.rows[r] == s[k];
    }
  }

  /** One step of the `/0` loop: filtering the rows that pass the first `j`
      checks by a checked column `j` leaves the rows that pass the first
      `j + 1` checks ... */
  lemma DivZeroFilterChecked(rows: seq<seq<Cell>>, columns: seq<Column>, j: nat, show: real -> string)
    requires j < |columns| && Checked(columns[j])
    ensures Filter(Filter(rows, PassesFirst(columns, j, show)), NoDivZeroAt(j, show))
      == Filter(rows, PassesFirst(columns, j + 1, show))
  {
    FilterTwice(rows, PassesFirst(columns, j, show), NoDivZeroAt(j, show),
                PassesFirst(columns, j + 1, show));
  }

  /** ... and an unchecked column `j` adds no check. */
  lemma DivZeroFilterUnchecked(rows: seq<seq<Cell>>, columns: seq<Column>, j: nat, show: real -> string)
    requires j < |columns| && !Checked(columns[j])
    ensures Filter(rows, PassesFirst(columns, j, show))
      == Filter(rows, PassesFirst(columns, j + 1, show))
  {
    FilterSamePredicate(rows, PassesFirst(columns, j, show),
                        PassesFirst(columns, j + 1, show));
  }

  lemma DivZeroFilterStart(rows: seq<seq<Cell>>, columns: seq<Column>, show: real -> string)
    ensures Filter(rows, PassesFirst(columns, 0, show)) == rows
  {
    FilterKeepsAll(rows, PassesFirst(columns, 0, show));
  }

  lemma DivZeroFilterEnd(rows: seq<seq<Cell>>, columns: seq<Column>, show: real -> string)
    ensures Filter(rows, PassesFirst(columns, |columns|, show))
      == Filter(rows, PassesAll(columns, show))
  {
    FilterSamePredicate(rows, PassesFirst(columns, |columns|, show),
                        PassesAll(columns, show));
  }

  /** The `/0` loop of `clean_data`: for each checked column in turn, keep the
      rows whose cell there does not read as text containing `/0`. Filtering
      column by column keeps exactly the rows that pass every check. */
  method RemoveDivZeroRows(f: Frame, show: real -> string) returns (g: Frame)
    ensures g.columns == f.columns
    ensures g.rows == DivZeroSurvivors(f, show)
  {
    var columns, rows := f.columns, f.rows;
    DivZeroFilterStart(f.rows, columns, show);
    var j := 0;
    while j < |columns|
      invariant 0 <= j <= |columns|
      invariant rows == Filter(f.rows, PassesFirst(columns, j, show))
    {
      if Checked(columns[j]) {
        rows := Filter(rows, NoDivZeroAt(j, show));
        DivZeroFilterChecked(f.rows, columns, j, show);
      } else {
        DivZeroFilterUnchecked(f.rows, columns, j, show);
      }
      j := j + 1;
    }
    DivZeroFilterEnd(f.rows, columns, show);
    assert rows == Filter(f.rows, PassesAll(f.columns, show));
    g := Frame(columns, rows);
  }

  /** The dtype of column `c` after the rewriting loop: an object column
      stays object when its conversion fails and becomes numeric when
      it succeeds; any other column keeps its dtype. */
  function RewrittenType(c: Column, cells: seq<Cell>, show: real -> string, parse: string -> Parsed): DType
  {
    if !c.isObject then c.dtype
    else if RewriteColumn(cells, show, parse).1 then Object
    else Numeric
  }

  /** The rewriting loop of `clean_data`: each object column is replaced by
      `RewriteColumn` of its cells (normalised, then converted when every
      cell converts); numeric columns and the column names are untouched. */
  method RewriteObjectColumns(f: Frame, show: real -> string, parse: string -> Parsed) returns (g: Frame)
    requires WellFormed(f)
    ensures WellFormed(g)
    ensures |g.columns| == |f.columns| && |g.rows| == |f.rows|
    ensures forall j :: 0 <= j < |f.columns| ==>
      && g.columns[j].name == f.columns[j].name
      && g.columns[j].dtype == RewrittenType(f.columns[j], ColumnCells(f, j), show, parse)
      && forall r :: 0 <= r < |f.rows| ==>
        g.rows[r][j] == if f.columns[j].isObject then RewriteColumn(ColumnCells(f, j), show, parse).0[r] else f.rows[r][j]
  {
    g := f;
    var j := 0;
    while j < |f.columns|
      invariant RewrittenUpTo(f, g, j, show, parse)
    {
      var next := g;
      if g.columns[j].isObject {
        var rewritten := RewriteColumn(ColumnCells(f, j), show, parse);
        next := SetColumn(g, j, rewritten.0, if rewritten.1 then Object else Numeric);
      }
      RewriteStep(f, g, j, show, parse, next);
      g := next;
      j := j + 1;
    }
    forall k | 0 <= k < |f.columns|
      ensures g.columns[k].name == f.columns[k].name
      ensures g.columns[k].dtype == RewrittenType(f.columns[k], ColumnCells(f, k), show, parse)
      ensures forall r :: 0 <= r < |f.rows| ==>
        g.rows[r][k] == if f.columns[k].isObject then RewriteColumn(ColumnCells(f, k), show, parse).0[r] else f.rows[r][k]
    {
      assert ColumnRewritten(f, g, k, show, parse);
    }
  }

  /** Column `k` of `g` is column `k` of `f` after the rewrite. */
  predicate ColumnRewritten(f: Frame, g: Frame, k: nat, show: real -> string, parse: string -> Parsed)
    requires WellFormed(f) && WellFormed(g) && k < |f.columns| == |g.columns| && |g.rows| == |f.rows|
  {
    && g.columns[k].name == f.columns[k].name
    && g.columns[k].dtype == RewrittenType(f.columns[k], ColumnCells(f, k), show, parse)
    && forall r :: 0 <= r < |f.rows| ==>
      g.rows[r][k] == if f.columns[k].isObject then RewriteColumn(ColumnCells(f, k), show, parse).0[r] else f.rows[r][k]
  }

  /** The loop of `clean_data` over the columns after `j` of them: those are
      rewritten and the rest are as in `f`. */
  predicate RewrittenUpTo(f: Frame, g: Frame, j: nat, show: real -> string, parse: string -> Parsed)
  {
    && WellFormed(f) && WellFormed(g)
    && j <= |f.columns| == |g.columns| && |g.rows| == |f.rows|
    && (forall k :: j <= k < |f.columns| ==> g.columns[k] == f.columns[k])
    && (forall r, k :: 0 <= r < |f.rows| && j <= k < |f.columns| ==> g.rows[r][k] == f.rows[r][k])
    && (forall k :: 0 <= k < j ==> ColumnRewritten(f, g, k, show, parse))
  }

  lemma RewriteStep(f: Frame, g: Frame, j: nat, show: real -> string, parse: string -> Parsed, next: Frame)
    requires RewrittenUpTo(f, g, j, show, parse) && j < |f.columns|
    requires next == if !g.columns[j].isObject then g else
      var rewritten := RewriteColumn(ColumnCells(f, j), show, parse);
      SetColumn(g, j, rewritten.0, if rewritten.1 then Object else Numeric)
    ensures RewrittenUpTo(f, next, j + 1, show, parse)
  {
    if g.columns[j].isObject {
      var rewritten := RewriteColumn(ColumnCells(f, j), show, parse);
      RewriteObjectStep(f, g, j, show, parse, rewritten.0, if rewritten.1 then Object else Numeric);
    } else {
      RewriteKeepStep(f, g, j, show, parse);
    }
  }

  lemma RewriteKeepStep(f: Frame, g: Frame, j: nat, show: real -> string, parse: string -> Parsed)
    requires RewrittenUpTo(f, g, j, show, parse) && j < |f.columns| && !g.columns[j].isObject
    ensures RewrittenUpTo(f, g, j + 1, show, parse)
  {
    forall k | 0 <= k < j + 1 ensures ColumnRewritten(f, g, k, show, parse) {
      if k < j {
        assert ColumnRewritten(f, g, k, show, parse);
      }
    }
  }

  lemma RewriteObjectStep(f: Frame, g: Frame, j: nat, show: real -> string, parse: string -> Parsed,
                          cells: seq<Cell>, dtype: DType)
    requires RewrittenUpTo(f, g, j, show, parse) && j < |f.columns| && g.columns[j].isObject
    requires cells == RewriteColumn(ColumnCells(f, j), show, parse).0
    requires dtype == if RewriteColumn(ColumnCells(f, j), show, parse).1 then Object else Numeric
    ensures RewrittenUpTo(f, SetColumn(g, j, cells, dtype), j + 1, show, parse)
  {
    var next := SetColumn(g, j, cells, dtype);
    forall k | 0 <= k < j ensures ColumnRewritten(f, next, k, show, parse) {
      assert ColumnRewritten(f, g, k, show, parse);
    }
    assert ColumnRewritten(f, next, j, show, parse);
  }

  /** `clean_data(df)`. `show` is Python's `str` of a number and `parse` is
      how `pd.to_numeric` reads one string. All-missing columns go first;
      the `/0` check then runs on the original text of the remaining
      columns, before any rewriting; last, the object columns are rewritten. */
  method CleanData(df: Frame, show: real -> string, parse: string -> Parsed) returns (clean: Frame)
    requires WellFormed(df)
    ensures WellFormed(clean)
    ensures var dropped := DropEmptyColumns(df);
            var kept := Frame(dropped.columns, DivZeroSurvivors(dropped, show));
      && WellFormed(kept)
      && |clean.columns| == |dropped.columns|
      && |clean.rows| == |kept.rows|
      && forall j :: 0 <= j < |dropped.columns| ==>
        && clean.columns[j].name == dropped.columns[j].name
        && clean.columns[j].dtype == RewrittenType(dropped.columns[j], ColumnCells(kept, j), show, parse)
        && forall r :: 0 <= r < |kept.rows| ==>
          clean.rows[r][j] == if dropped.columns[j].isObject then RewriteColumn(ColumnCells(kept, j), show, parse).0[r] else kept.rows[r][j]
  {
    // The deduplicated copy that drop_duplicates() returns is discarded, so
    // there is no step for it.
    clean := DropEmptyColumns(df);
    SurvivorsWellFormed(clean, show);
    clean := RemoveDivZeroRows(clean, show);
    clean := RewriteObjectColumns(clean, show, parse);
  }

  // ---------------------------------------------------------------------------
  // summarize_kpis

  /** One row of the summary table. The `Std` entry is not part of this model. */
  datatype KpiSummary = KpiSummary(
    kpi: string,
    mean: Option<real>,
    min: Option<real>,
    max: Option<real>,
    missing: nat,
    count: nat,
    unique: nat)

  /** `isna().sum()`. */
  function CountMissing(xs: seq<Option<real>>): (n: nat)
    ensures n <= |xs|
  {
    if xs == [] then 0 else CountMissing(xs[..|xs| - 1]) + (if xs[|xs| - 1].None? then 1 else 0)
  }

  /** The missing values and the present values of a series add up to its length. */
  lemma {:induction false} MissingPlusPresent(xs: seq<Option<real>>)
    ensures CountMissing(xs) + |Present(xs)| == |xs|
  {
    if xs != [] {
      MissingPlusPresent(xs[..|xs| - 1]);
    }
  }

  /** `min()` of the present values; `None` (NaN) when there are none. */
  function Minimum(ys: seq<real>): (m: Option<real>)
    ensures m.None? <==> ys == []
    ensures m.Some? ==> m.value in ys && forall i :: 0 <= i < |ys| ==> m.value <= ys[i]
  {
    if ys == [] then None
    else
      var rest := Minimum(ys[..|ys| - 1]);
      var last := ys[|ys| - 1];
      assert ys == ys[..|ys| - 1] + [last];
      if rest.Some? && rest.value <= last then rest else Some(last)
  }

  /** `max()` of the present values; `None` (NaN) when there are none. */
  function Maximum(ys: seq<real>): (m: Option<real>)
    ensures m.None? <==> ys == []
    ensures m.Some? ==> m.value in ys && forall i :: 0 <= i < |ys| ==> ys[i] <= m.value
  {
    if ys == [] then None
    else
      var rest := Maximum(ys[..|ys| - 1]);
      var last := ys[|ys| - 1];
      assert ys == ys[..|ys| - 1] + [last];
      if rest.Some? && rest.value >= last then rest else Some(last)
  }

  /** The summary entry of column `j` (`SummaryEntryCounts` states how its
      fields relate). */
  function SummariseColumn(f: Frame, j: nat): (e: KpiSummary)
    requires WellFormed(f) && j < |f.columns|
    ensures e.kpi == f.columns[j].name
  {
    var xs := NumericValues(ColumnCells(f, j));
    var ys := Present(xs);
    KpiSummary(f.columns[j].name, Mean(xs), Minimum(ys), Maximum(ys), CountMissing(xs), |ys|, |Unique(ys)|)
  }

  /** For every entry the missing and non-missing counts add up to the number
      of rows, at most `count` distinct values occur, and `min` and `max`
      are absent exactly when no value is present. */
  lemma SummaryEntryCounts(f: Frame, j: nat)
    requires WellFormed(f) && j < |f.columns|
    ensures SummariseColumn(f, j).missing + SummariseColumn(f, j).count == |f.rows|
    ensures SummariseColumn(f, j).unique <= SummariseColumn(f, j).count
    ensures SummariseColumn(f, j).min.None? <==> SummariseColumn(f, j).count == 0
    ensures SummariseColumn(f, j).min.Some? ==> SummariseColumn(f, j).min.value <= SummariseColumn(f, j).max.value
  {
    var xs := NumericValues(ColumnCells(f, j));
    MissingPlusPresent(xs);
    var ys := Present(xs);
    if ys != [] {
      var lo, hi := Minimum(ys).value, Maximum(ys).value;
      var i :| 0 <= i < |ys| && ys[i] == lo;
    }
  }

  /** The columns `select_dtypes(include=['float', 'int'])` returns, minus
      those named in `exclude`. */
  predicate Summarised(c: Column, exclude: seq<string>)
  {
    c.dtype == Numeric && c.name !in exclude
  }

  /** Positions of the summarised columns, in table order. */
  function SummarisedColumns(f: Frame, exclude: seq<string>): (ix: seq<nat>)
    ensures forall k :: 0 <= k < |ix| ==> ix[k] < |f.columns|
    ensures forall k, l :: 0 <= k < l < |ix| ==> ix[k] < ix[l]
    ensures forall j :: 0 <= j < |f.columns| ==> (j in ix <==> Summarised(f.columns[j], exclude))
  {
    var all := Range(|f.columns|);
    var p := (j: nat) => j < |f.columns| && Summarised(f.columns[j], exclude);
    FilterIsOrderedSubsequence(all, p);
    FilterMembership(all, p);
    var ix := Filter(all, p);
    forall j | 0 <= j < |f.columns| ensures j in ix <==> Summarised(f.columns[j], exclude) {
      assert all[j] == j;
    }
    ix
  }

  /** The summary entries before sorting: one per summarised column, in table order. */
  function Entries(f: Frame, exclude: seq<string>): (es: seq<KpiSummary>)
    requires WellFormed(f)
    ensures |es| == |SummarisedColumns(f, exclude)|
    ensures forall k :: 0 <= k < |es| ==> es[k] == SummariseColumn(f, SummarisedColumns(f, exclude)[k])
  {
    var ix := SummarisedColumns(f, exclude);
    seq(|ix|, k requires 0 <= k < |ix| => SummariseColumn(f, ix[k]))
  }

  /** Sort key of `sort_values("Missing Values", ascending=False)`. */
  function MissingDescending(e: KpiSummary): int
  {
    0 - (e.missing as int)
  }

  /** `summarize_kpis(df, exclude_columns)` (`None` for the exclusions is the
      empty list): one entry per numeric column not excluded, collected in
      table order, then sorted in place by missing count, largest first. The
      result holds exactly those entries; among equal missing counts no
      order is promised. With no entry at all, the table built from the
      empty list has no "Missing Values" column and the sort raises a
      `KeyError`: `None`. */
  method SummarizeKpis(f: Frame, exclude: seq<string>) returns (summary: Option<seq<KpiSummary>>)
    requires WellFormed(f)
    ensures summary.None? <==> Entries(f, exclude) == []
    ensures summary.Some? ==> multiset(summary.value) == multiset(Entries(f, exclude))
    ensures summary.Some? ==> forall i, j :: 0 <= i < j < |summary.value| ==>
      summary.value[i].missing >= summary.value[j].missing
  {
    var columns := SummarisedColumns(f, exclude);
    var entries: seq<KpiSummary> := [];
    var k := 0;
    while k < |columns|
      invariant 0 <= k <= |columns|
      invariant entries == Entries(f, exclude)[..k]
    {
      entries := entries + [SummariseColumn(f, columns[k])];
      k := k + 1;
    }
    assert entries == Entries(f, exclude);
    if entries == [] {
      return None;
    }
    var table := new KpiSummary[|entries|](i requires 0 <= i < |entries| => entries[i]);
    assert table[..] == entries;
    SortInPlace(table, MissingDescending);
    var sorted := table[..];
    forall i, j | 0 <= i < j < |sorted| ensures sorted[i].missing >= sorted[j].missing {
      assert MissingDescending(sorted[i]) <= MissingDescending(sorted[j]);
    }
    summary := Some(sorted);
  }

  /** `summarize_kpis` raises exactly when no column is summarised: every
      column is excluded or is not of a number dtype. */
  lemma SummaryRaisesIff(f: Frame, exclude: seq<string>)
    requires WellFormed(f)
    ensures Entries(f, exclude) == [] <==>
      forall j :: 0 <= j < |f.columns| ==> !Summarised(f.columns[j], exclude)
  {
    var ix := SummarisedColumns(f, exclude);
    if ix != [] {
      assert ix[0] in ix;
    }
  }

  /** A permutation of the entries has one entry per summarised column ... */
  lemma SummaryLength(f: Frame, exclude: seq<string>, summary: seq<KpiSummary>)
    requires WellFormed(f)
    requires multiset(summary) == multiset(Entries(f, exclude))
    ensures |summary| == |SummarisedColumns(f, exclude)|
  {
    assert |multiset(summary)| == |summary|;
    assert |multiset(Entries(f, exclude))| == |Entries(f, exclude)|;
  }

  /** ... every summarised column has its entry in it ... */
  lemma SummaryCoversColumns(f: Frame, exclude: seq<string>, summary: seq<KpiSummary>)
    requires WellFormed(f)
    requires multiset(summary) == multiset(Entries(f, exclude))
    ensures forall j :: 0 <= j < |f.columns| && Summarised(f.columns[j], exclude) ==>
      SummariseColumn(f, j) in summary
  {
    forall j | 0 <= j < |f.columns| && Summarised(f.columns[j], exclude) ensures SummariseColumn(f, j) in summary {
      EntryOfColumn(f, exclude, j);
      assert SummariseColumn(f, j) in multiset(Entries(f, exclude));
    }
  }

  lemma EntryOfColumn(f: Frame, exclude: seq<string>, j: nat)
    requires WellFormed(f)
    requires j < |f.columns| && Summarised(f.columns[j], exclude)
    ensures SummariseColumn(f, j) in Entries(f, exclude)
  {
    var ix := SummarisedColumns(f, exclude);
    var k :| 0 <= k < |ix| && ix[k] == j;
    assert Entries(f, exclude)[k] == SummariseColumn(f, j);
  }

  /** ... and every entry in it comes from a summarised column. */
  lemma SummaryFromColumns(f: Frame, exclude: seq<string>, summary: seq<KpiSummary>)
    requires WellFormed(f)
    requires multiset(summary) == multiset(Entries(f, exclude))
    ensures forall e :: e in summary ==>
      exists j :: 0 <= j < |f.columns| && Summarised(f.columns[j], exclude) && e == SummariseColumn(f, j)
  {
    var es := Entries(f, exclude);
    var ix := SummarisedColumns(f, exclude);
    forall e | e in summary
      ensures exists j :: 0 <= j < |f.columns| && Summarised(f.columns[j], exclude) && e == SummariseColumn(f, j)
    {
      assert e in multiset(es);
      var k :| 0 <= k < |es| && es[k] == e;
      assert ix[k] in ix;
    }
  }
}
