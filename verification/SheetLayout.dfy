/** The sheet that scripts/generate_serialization_spreadsheet.py lays out: one block of rows for
    each test case, with formulas that refer to the block's own input grids. */
module SheetLayout {
  import opened A1Notation
  import opened Strings
  import opened Wrappers

  const COL_TEST_ID := 0
  const COL_DESCRIPTION := 1
  const COL_TAGS := 2
  const COL_INPUT_START := 3
  const GROUP_COLS := 5
  const COL_CALC_ORACLE := 13
  const COL_EXPECTED := 15
  const COL_NOTES := 16
  const COL_PYTHON_FORMULA := 17
  const WIDTH := 18

  datatype Val = Empty | Bool(b: bool) | Int(n: int) | Real(x: real) | Str(s: string)

  type Table = seq<seq<Val>>

  datatype Oracle = SUM | MAX | INDEX_FIRST | MULT2 | IDENTITY | NoOracle

  /** A test case.  `code` is its Python expression on one line. */
  datatype Case = Case(id: string, sheet: string, description: string, tags: string, gridA: Table,
                       gridB: Option<Table>, code: string, isError: bool, oracle: Oracle,
                       expected: Option<string>, expectedError: string, notes: string)

  /** A cell of the sheet; a comparison cell is left as it is. */
  datatype Cell = Blank | Text(s: string) | Number(x: real) | Comparison

  type Row = seq<Cell>

  function CaseInputGrids(c: Case): seq<Table> {
    if c.gridB.Some? then [c.gridA, c.gridB.value]
    else if c.gridA != [] then [c.gridA] else []
  }

  function WidthOf(grid: Table): nat {
    if grid == [] then 0 else var w := WidthOf(grid[1..]); if |grid[0]| > w then |grid[0]| else w
  }

  function GroupColStart(group: nat): nat {
    COL_INPUT_START + group * GROUP_COLS
  }

  /** Row dr of the group can be written: it is as long as the longest and ends inside the sheet. */
  predicate RowFits(grid: Table, group: nat, dr: nat) {
    dr < |grid| ==> |grid[dr]| == WidthOf(grid) && (WidthOf(grid) > 0 ==> GroupColStart(group) + WidthOf(grid) <= WIDTH)
  }

  /** Every column of the grid has an entry in this row and a cell in the sheet. */
  lemma RowFitsExactly(grid: Table, group: nat, dr: nat)
    ensures RowFits(grid, group, dr) <==>
              (dr < |grid| ==> forall i | 0 <= i < WidthOf(grid) :: IsInside(grid[dr], group, i))
  {
    if dr < |grid| {
      RowIsAtMostWidth(grid, dr);
      var last := WidthOf(grid) - 1;
      assert last >= 0 && (forall i | 0 <= i < WidthOf(grid) :: IsInside(grid[dr], group, i)) ==>
        IsInside(grid[dr], group, last);
    }
  }

  predicate IsInside(row: seq<Val>, group: nat, i: int) {
    i < |row| && 3 + 5 * group + i < WIDTH
  }

  /** Every row of every group can be written. */
  predicate Fits(c: Case) {
    forall g, dr | 0 <= g < |CaseInputGrids(c)| && 0 <= dr < |CaseInputGrids(c)[g]| ::
      RowFits(CaseInputGrids(c)[g], g, dr)
  }

  /** The second group begins behind the first. */
  predicate Apart(c: Case) {
    |CaseInputGrids(c)| < 2 || WidthOf(CaseInputGrids(c)[0]) <= GROUP_COLS
  }

  /** No grid is wider than text can say. */
  ghost predicate Sized(c: Case) {
    forall g | 0 <= g < |CaseInputGrids(c)| :: GroupColStart(g) + WidthOf(CaseInputGrids(c)[g]) <= MAX_COLUMNS
  }

  lemma FitsIsSized(c: Case)
    requires Fits(c)
    ensures Sized(c)
    ensures forall g | 0 <= g < |CaseInputGrids(c)| :: WidthOf(CaseInputGrids(c)[g]) <= WIDTH
  {
    forall g | 0 <= g < |CaseInputGrids(c)|
      ensures GroupColStart(g) + WidthOf(CaseInputGrids(c)[g]) <= MAX_COLUMNS && WidthOf(CaseInputGrids(c)[g]) <= WIDTH
    {
      if CaseInputGrids(c)[g] != [] {
        assert RowFits(CaseInputGrids(c)[g], g, 0);
      }
    }
  }

  function Height(c: Case): nat {
    var gs := CaseInputGrids(c);
    if gs == [] then 0
    else if |gs| == 1 || |gs[0]| >= |gs[1]| then |gs[0]| else |gs[1]|
  }

  function CellSheetValue(v: Val): Cell {
    match v
    case Empty => Blank
    case Bool(b) => Number(if b then 1.0 else 0.0)
    case Int(n) => Number(n as real)
    case Real(x) => Number(x)
    case Str(s) => Text(s)
  }

  /** Booleans become 1 and 0, everything else is written as it is. */
  lemma EntriesAsCells(v: Val)
    ensures match v
            case Empty => CellSheetValue(v) == Blank
            case Bool(b) => CellSheetValue(Bool(true)) == Number(1.0) && CellSheetValue(Bool(false)) == Number(0.0)
            case Int(n) => CellSheetValue(v).Number? && CellSheetValue(v).x == n as real
            case Real(x) => CellSheetValue(v) == Number(x)
            case Str(s) => CellSheetValue(v) == Text(s)
  {
  }

  // ---------- Formulas ----------

  /** The first row of a block's grids, if its header is on the given row. */
  function DataTop(c: Case, blockTop: nat): nat {
    if Height(c) > 0 then blockTop + 1 else blockTop
  }

  /** The range for one group, and "" for a grid without cells. */
  function GroupRange(c: Case, group: nat, dataTop: nat): string
    requires group < |CaseInputGrids(c)| && Sized(c)
  {
    var grid := CaseInputGrids(c)[group];
    DataRangeA1(dataTop, |grid|, WidthOf(grid), GroupColStart(group))
  }

  ghost predicate HasCells(grid: Table) {
    grid != [] && WidthOf(grid) > 0
  }

  /** data_ranges_for_case: one range for each group that has cells, in order. */
  method DataRangesForCase(c: Case, dataTop: nat) returns (ranges: seq<string>)
    requires Sized(c)
    ensures ranges == DataRanges(c, dataTop)
  {
    ranges := [];
    var grids := CaseInputGrids(c);
    for gi := 0 to |grids|
      invariant ranges == RangesOfFirst(c, dataTop, gi)
    {
      var nrows, ncols := |grids[gi]|, WidthOf(grids[gi]);
      if nrows <= 0 || ncols <= 0 {
        continue;
      }
      ranges := ranges + [DataRangeA1(dataTop, nrows, ncols, GroupColStart(gi))];
    }
  }

  ghost function RangesOfFirst(c: Case, dataTop: nat, n: nat): seq<string>
    requires Sized(c) && n <= |CaseInputGrids(c)|
  {
    if n == 0 then []
    else
      RangesOfFirst(c, dataTop, n - 1)
      + if HasCells(CaseInputGrids(c)[n - 1]) then [GroupRange(c, n - 1, dataTop)] else []
  }

  ghost function DataRanges(c: Case, dataTop: nat): seq<string>
    requires Sized(c)
  {
    RangesOfFirst(c, dataTop, |CaseInputGrids(c)|)
  }

  function Joined(parts: seq<string>): string {
    if parts == [] then "" else if |parts| == 1 then parts[0] else parts[0] + "," + Joined(parts[1..])
  }

  /** A text as it stands between quotes: its own quotes are doubled. */
  function Doubled(s: string): string {
    if s == "" then "" else (if s[0] == '"' then "\"\"" else [s[0]]) + Doubled(s[1..])
  }

  function PythonFormula(c: Case, ranges: seq<string>): string {
    if c.isError || ranges == [] then "=PYTHON(\"" + Doubled(c.code) + "\")"
    else "=PYTHON(\"" + Doubled(c.code) + "\"," + Joined(ranges) + ")"
  }

  function ExpectedValue(c: Case): string {
    if c.expected.Some? && !c.isError then c.expected.value else ""
  }

  function CalcOracleFormula(c: Case, ranges: seq<string>, dataTop: nat): string
    requires dataTop > 0
  {
    if ranges == [] then ExpectedValue(c)
    else
      var relative := "=INDEX(" + ranges[0] + ",ROW()-" + Decimal(dataTop - 1)
                      + ",COLUMN()-" + Decimal(COL_INPUT_START) + ")";
      match c.oracle
      case SUM =>
        if |ranges| > 1 then "=SUM(" + ranges[0] + "," + ranges[1] + ")" else "=SUM(" + ranges[0] + ")"
      case MAX => "=MAX(" + ranges[0] + ")"
      case INDEX_FIRST =>
        if PrimaryRows(c) <= 1 then "=INDEX(" + ranges[0] + ",1)" else "=INDEX(" + ranges[0] + ",1,1)"
      case MULT2 => relative + "*2"
      case IDENTITY => relative
      case NoOracle => ExpectedValue(c)
  }

  function PrimaryRows(c: Case): nat {
    var grids := CaseInputGrids(c);
    if grids == [] then 0 else |grids[0]|
  }

  // ---------- One block ----------

  /** Column col of the row with grid row dr. */
  ghost function GridCell(c: Case, dr: nat, col: nat): Cell {
    if col == COL_TEST_ID then Text("row_" + Decimal(dr + 1))
    else if OwnsColumn(c, 1, dr, col) then CellSheetValue(CaseInputGrids(c)[1][dr][col - GroupColStart(1)])
    else if OwnsColumn(c, 0, dr, col) then CellSheetValue(CaseInputGrids(c)[0][dr][col - GroupColStart(0)])
    else Blank
  }

  /** Group g has a cell in grid row dr at the given column. */
  predicate OwnsColumn(c: Case, group: nat, dr: nat, col: nat) {
    && group < |CaseInputGrids(c)| && dr < |CaseInputGrids(c)[group]|
    && GroupColStart(group) <= col < GroupColStart(group) + |CaseInputGrids(c)[group][dr]|
  }

  ghost function HeaderCell(c: Case, ranges: seq<string>, dataTop: nat, col: nat): Cell
    requires dataTop > 0
  {
    if col == COL_TEST_ID then Text(c.id)
    else if col == COL_DESCRIPTION then Text(c.description)
    else if col == COL_TAGS then Text(c.tags)
    else if col == COL_CALC_ORACLE then Text(CalcOracleFormula(c, ranges, dataTop))
    else if col == COL_CALC_ORACLE + 1 then Comparison
    else if col == COL_EXPECTED then Text(if c.expected.Some? then c.expected.value else c.expectedError)
    else if col == COL_NOTES then Text(c.notes)
    else if col == COL_PYTHON_FORMULA then Text(PythonFormula(c, ranges))
    else Blank
  }

  function BlankRow(): Row {
    seq(WIDTH, _ => Blank)
  }

  /** A block: its header, a row for each grid row, and a blank row. */
  ghost predicate IsBlock(c: Case, blockTop: nat, rows: seq<Row>)
    requires Sized(c) && blockTop > 0
  {
    && |rows| == Height(c) + 2
    && (forall r | 0 <= r < |rows| :: |rows[r]| == WIDTH)
    && (forall col | 0 <= col < WIDTH ::
          rows[0][col] == HeaderCell(c, DataRanges(c, DataTop(c, blockTop)), DataTop(c, blockTop), col))
    && (forall dr, col | 0 <= dr < Height(c) && 0 <= col < WIDTH :: rows[1 + dr][col] == GridCell(c, dr, col))
    && rows[Height(c) + 1] == BlankRow()
  }

  /** The cells of one row, if no group's row makes the writing fail. */
  method GridRow(c: Case, dr: nat) returns (result: Option<Row>)
    ensures result.Some? <==> forall g | 0 <= g < |CaseInputGrids(c)| :: RowFits(CaseInputGrids(c)[g], g, dr)
    ensures result.Some? ==>
              |result.value| == WIDTH && forall col | 0 <= col < WIDTH :: result.value[col] == GridCell(c, dr, col)
  {
    var grids := CaseInputGrids(c);
    var row := BlankRow();
    row := row[COL_TEST_ID := Text("row_" + Decimal(dr + 1))];
    for gi := 0 to |grids|
      invariant |row| == WIDTH && forall col | 0 <= col < WIDTH :: row[col] == PartCell(c, dr, col, gi)
      invariant forall g | 0 <= g < gi :: RowFits(grids[g], g, dr)
    {
      if dr >= |grids[gi]| {
        continue;
      }
      var after := WriteGroup(grids[gi], dr, gi, row);
      if after.None? {
        return None;
      }
      row := after.value;
    }
    return Some(row);
  }

  /** Column col once the first n groups have been written: a later group overwrites an earlier one. */
  ghost function PartCell(c: Case, dr: nat, col: nat, n: nat): Cell {
    if n >= 2 && OwnsColumn(c, 1, dr, col) then CellSheetValue(CaseInputGrids(c)[1][dr][col - GroupColStart(1)])
    else if n >= 1 && OwnsColumn(c, 0, dr, col) then CellSheetValue(CaseInputGrids(c)[0][dr][col - GroupColStart(0)])
    else if col == COL_TEST_ID then Text("row_" + Decimal(dr + 1))
    else Blank
  }

  /** The loop over the columns of one group's row; it fails at a column that the grid's row or the
      sheet's row does not have. */
  method WriteGroup(grid: Table, dr: nat, group: nat, row: Row) returns (result: Option<Row>)
    requires dr < |grid| && |row| == WIDTH
    ensures result.Some? <==> RowFits(grid, group, dr)
    ensures result.Some? ==>
              && |result.value| == WIDTH
              && forall col | 0 <= col < WIDTH ::
                   result.value[col] == if GroupColStart(group) <= col < GroupColStart(group) + |grid[dr]|
                                        then CellSheetValue(grid[dr][col - GroupColStart(group)]) else row[col]
  {
    var after := row;
    var ncols, colBase := WidthOf(grid), GroupColStart(group);
    RowIsAtMostWidth(grid, dr);
    for k := 0 to ncols
      invariant |after| == WIDTH && k <= |grid[dr]| && (k > 0 ==> colBase + k <= WIDTH)
      invariant forall col | 0 <= col < WIDTH ::
                  after[col] == if colBase <= col < colBase + k
                                then CellSheetValue(grid[dr][col - colBase]) else row[col]
    {
      if k >= |grid[dr]| || colBase + k >= WIDTH {
        return None;
      }
      after := after[colBase + k := CellSheetValue(grid[dr][k])];
    }
    return Some(after);
  }

  lemma {:induction false} RowIsAtMostWidth(grid: Table, dr: nat)
    requires dr < |grid|
    ensures |grid[dr]| <= WidthOf(grid)
  {
    if dr > 0 {
      RowIsAtMostWidth(grid[1..], dr - 1);
    }
  }

  /** The rows of a block; a grid that does not fit makes it fail, and nothing else does. */
  method BlockRows(c: Case, blockTop: nat) returns (result: Option<seq<Row>>)
    requires Sized(c) && blockTop > 0
    ensures result.Some? <==> Fits(c)
    ensures result.Some? ==> IsBlock(c, blockTop, result.value)
  {
    var maxNrows := Height(c);
    var dataTop := if maxNrows > 0 then blockTop + 1 else blockTop;
    var ranges := DataRangesForCase(c, dataTop);
    var header: Row := BlankRow();
    header := header[COL_TEST_ID := Text(c.id)];
    header := header[COL_DESCRIPTION := Text(c.description)];
    header := header[COL_TAGS := Text(c.tags)];
    header := header[COL_CALC_ORACLE := Text(CalcOracleFormula(c, ranges, dataTop))];
    header := header[COL_CALC_ORACLE + 1 := Comparison];
    header := header[COL_EXPECTED := Text(if c.expected.Some? then c.expected.value else c.expectedError)];
    header := header[COL_NOTES := Text(c.notes)];
    header := header[COL_PYTHON_FORMULA := Text(PythonFormula(c, ranges))];
    var rows := [header];
    for dr := 0 to maxNrows
      invariant |rows| == dr + 1 && rows[0] == header
      invariant forall r | 0 <= r < |rows| :: |rows[r]| == WIDTH
      invariant forall d, col | 0 <= d < dr && 0 <= col < WIDTH :: rows[1 + d][col] == GridCell(c, d, col)
      invariant forall g, d | 0 <= g < |CaseInputGrids(c)| && 0 <= d < dr :: RowFits(CaseInputGrids(c)[g], g, d)
    {
      var row := GridRow(c, dr);
      if row.None? {
        RowsDecideFit(c, dr);
        return None;
      }
      rows := rows + [row.value];
    }
    forall g | 0 <= g < |CaseInputGrids(c)| ensures |CaseInputGrids(c)[g]| <= maxNrows {
      HeightCovers(c, g);
    }
    rows := rows + [BlankRow()];
    return Some(rows);
  }

  lemma RowsDecideFit(c: Case, dr: nat)
    requires exists g :: 0 <= g < |CaseInputGrids(c)| && !RowFits(CaseInputGrids(c)[g], g, dr)
    ensures !Fits(c)
  {
  }

  // ---------- The whole sheet ----------

  /** The sheet row (1-based) on which the block of case k begins. */
  function Top(cases: seq<Case>, k: nat): (top: nat)
    requires k < |cases|
    ensures top > 0
  {
    if k == 0 then 3
    else Top(cases, k - 1) + Height(cases[k - 1]) + 2 + if cases[k].sheet == cases[k - 1].sheet then 0 else 2
  }

  /** The row after the block of case k. */
  function End(cases: seq<Case>, k: nat): nat
    requires k < |cases|
  {
    Top(cases, k) + Height(cases[k]) + 2
  }

  /** The block of case k is in place. */
  ghost predicate PlacedAt(cases: seq<Case>, k: nat, out: seq<Row>)
    requires k < |cases| && Sized(cases[k])
  {
    End(cases, k) - 1 <= |out| && IsBlock(cases[k], Top(cases, k), out[Top(cases, k) - 1..End(cases, k) - 1])
  }

  ghost predicate Placed(cases: seq<Case>, n: nat, out: seq<Row>)
    requires n <= |cases| && forall k | 0 <= k < |cases| :: Sized(cases[k])
  {
    forall k | 0 <= k < n :: PlacedAt(cases, k, out)
  }

  /** The sheet; one case that does not fit makes the whole build fail, and nothing else does. */
  method BuildSheetRows(cases: seq<Case>) returns (result: Option<seq<Row>>)
    requires forall k | 0 <= k < |cases| :: Sized(cases[k])
    ensures result.Some? <==> forall k | 0 <= k < |cases| :: Fits(cases[k])
    ensures result.Some? ==>
              && Placed(cases, |cases|, result.value)
              && |result.value| == if cases == [] then 1 else End(cases, |cases| - 1) - 1
  {
    var out := [seq(WIDTH, _ => Text("header"))];
    var excelRow := 2;
    var prevSheet: Option<string> := None;
    for k := 0 to |cases|
      invariant excelRow == |out| + 1
      invariant excelRow == if k == 0 then 2 else End(cases, k - 1)
      invariant prevSheet == if k == 0 then None else Some(cases[k - 1].sheet)
      invariant Placed(cases, k, out) && forall j | 0 <= j < k :: Fits(cases[j])
    {
      var placed, nextRow := PlaceCase(cases, k, out, excelRow, prevSheet);
      if placed.None? {
        return None;
      }
      out, excelRow := placed.value, nextRow;
      prevSheet := Some(cases[k].sheet);
    }
    return Some(out);
  }

  /** The body of the loop over the cases: a section band if the sheet changes, then the block
      for the row that comes next. */
  method PlaceCase(cases: seq<Case>, k: nat, out: seq<Row>, excelRow: nat, prevSheet: Option<string>)
    returns (result: Option<seq<Row>>, nextRow: nat)
    requires k < |cases| && forall j | 0 <= j < |cases| :: Sized(cases[j])
    requires excelRow == |out| + 1 == if k == 0 then 2 else End(cases, k - 1)
    requires prevSheet == if k == 0 then None else Some(cases[k - 1].sheet)
    requires Placed(cases, k, out)
    ensures result.Some? <==> Fits(cases[k])
    ensures result.Some? ==>
              && out <= result.value && nextRow == |result.value| + 1 == End(cases, k)
              && Placed(cases, k + 1, result.value)
  {
    var band := SectionBand(cases[k].sheet, prevSheet);
    nextRow := excelRow + |band|;
    assert nextRow == Top(cases, k);
    var block := BlockRows(cases[k], nextRow);
    if block.None? {
      return None, nextRow;
    }
    result := Some(out + band + block.value);
    nextRow := nextRow + |block.value|;
    PlacedOneMore(cases, k, out, band, block.value);
  }

  lemma PlacedOneMore(cases: seq<Case>, k: nat, out: seq<Row>, band: seq<Row>, block: seq<Row>)
    requires k < |cases| && forall j | 0 <= j < |cases| :: Sized(cases[j])
    requires Placed(cases, k, out) && |out + band| + 1 == Top(cases, k) && IsBlock(cases[k], Top(cases, k), block)
    ensures Placed(cases, k + 1, out + band + block)
  {
    BlockIsPlaced(cases, k, out + band, block);
    PlacedStays(cases, k, out, out + band + block);
  }

  /** The rows put before a case whose sheet differs from the one before. */
  method SectionBand(sheet: string, prevSheet: Option<string>) returns (band: seq<Row>)
    ensures |band| == if prevSheet == Some(sheet) then 0 else if prevSheet == None then 1 else 2
    ensures band != [] ==> band[|band| - 1] == [Text("__section__:" + sheet)] + seq(WIDTH - 1, _ => Blank)
  {
    band := [];
    if Some(sheet) != prevSheet {
      if prevSheet != None {
        band := band + [BlankRow()];
      }
      band := band + [[Text("__section__:" + sheet)] + seq(WIDTH - 1, _ => Blank)];
    }
  }

  lemma BlockIsPlaced(cases: seq<Case>, k: nat, out: seq<Row>, block: seq<Row>)
    requires k < |cases| && Sized(cases[k])
    requires |out| + 1 == Top(cases, k) && IsBlock(cases[k], Top(cases, k), block)
    ensures PlacedAt(cases, k, out + block)
  {
    assert (out + block)[Top(cases, k) - 1..End(cases, k) - 1] == block;
  }

  lemma OnePlacedStays(cases: seq<Case>, k: nat, out: seq<Row>, more: seq<Row>)
    requires k < |cases| && Sized(cases[k]) && PlacedAt(cases, k, out) && out <= more
    ensures PlacedAt(cases, k, more)
  {
    assert more[Top(cases, k) - 1..End(cases, k) - 1] == out[Top(cases, k) - 1..End(cases, k) - 1];
  }

  lemma PlacedStays(cases: seq<Case>, n: nat, out: seq<Row>, more: seq<Row>)
    requires n <= |cases| && forall k | 0 <= k < |cases| :: Sized(cases[k])
    requires Placed(cases, n, out) && out <= more
    ensures Placed(cases, n, more)
  {
    forall k | 0 <= k < n ensures PlacedAt(cases, k, more) {
      OnePlacedStays(cases, k, out, more);
    }
  }

  // ---------- Ranges and cells agree ----------

  /** Every range in a block's formulas belongs to one of its groups that has cells. */
  lemma {:induction false} RangesAreGroups(c: Case, dataTop: nat, n: nat, r: string)
    requires Sized(c) && n <= |CaseInputGrids(c)| && r in RangesOfFirst(c, dataTop, n)
    ensures exists g: nat :: g < n && HasCells(CaseInputGrids(c)[g]) && r == GroupRange(c, g, dataTop)
  {
    if r in RangesOfFirst(c, dataTop, n - 1) {
      RangesAreGroups(c, dataTop, n - 1, r);
    }
  }

  /** And every group that has cells is in them. */
  lemma {:induction false} GroupsAreInRanges(c: Case, dataTop: nat, n: nat, g: nat)
    requires Sized(c) && g < n <= |CaseInputGrids(c)| && HasCells(CaseInputGrids(c)[g])
    ensures GroupRange(c, g, dataTop) in RangesOfFirst(c, dataTop, n)
  {
    if g < n - 1 {
      GroupsAreInRanges(c, dataTop, n - 1, g);
    }
  }

  lemma HeightCovers(c: Case, g: nat)
    requires g < |CaseInputGrids(c)|
    ensures |CaseInputGrids(c)[g]| <= Height(c)
  {
  }

  /** The range of a group denotes exactly the rectangle of its grid below the block's header. */
  lemma GroupRangeDenotes(c: Case, g: nat, top: nat, row: int, col: int)
    requires Sized(c) && g < |CaseInputGrids(c)| && HasCells(CaseInputGrids(c)[g])
    requires GroupColStart(g) + WidthOf(CaseInputGrids(c)[g]) <= 702
    ensures Denotes(GroupRange(c, g, DataTop(c, top)), row, col)
            <==> top + 1 <= row < top + 1 + |CaseInputGrids(c)[g]|
                 && GroupColStart(g) <= col < GroupColStart(g) + WidthOf(CaseInputGrids(c)[g])
  {
    HeightCovers(c, g);
    var grid := CaseInputGrids(c)[g];
    RangeDenotesRectangle(DataTop(c, top), |grid|, WidthOf(grid), GroupColStart(g), row, col);
  }

  /** The sheet cell at (row, col) is where an entry of a grid goes, if the block's header is on row top. */
  predicate IsEntryOf(grid: Table, g: nat, top: nat, row: int, col: int) {
    0 <= row - (top + 1) < |grid| && 0 <= col - GroupColStart(g) < |grid[row - (top + 1)]|
  }

  /** What the sheet holds where an entry of a group goes: the entry, unless the second group has a
      cell there, too. */
  function Held(c: Case, g: nat, dr: nat, col: nat): Cell
    requires OwnsColumn(c, g, dr, col)
  {
    var last := if OwnsColumn(c, 1, dr, col) then 1 else g;
    CellSheetValue(CaseInputGrids(c)[last][dr][col - GroupColStart(last)])
  }

  /** Nothing of the second group is written over this cell, or the same value. */
  predicate Undisturbed(c: Case, g: nat, dr: nat, col: nat)
    requires OwnsColumn(c, g, dr, col)
  {
    OwnsColumn(c, 1, dr, col) ==>
      CellSheetValue(CaseInputGrids(c)[1][dr][col - GroupColStart(1)]) ==
      CellSheetValue(CaseInputGrids(c)[g][dr][col - GroupColStart(g)])
  }

  /** In the finished sheet, the cells that the range of a group denotes are exactly those for the
      entries of the group's grid, and each holds its entry exactly if it is undisturbed. */
  lemma RangeDenotesWrittenCells(cases: seq<Case>, out: seq<Row>, k: nat, c: Case, top: nat, g: nat, row: int, col: int)
    requires k < |cases| && c == cases[k] && top == Top(cases, k)
    requires Fits(c) && Sized(c) && PlacedAt(cases, k, out)
    requires g < |CaseInputGrids(c)| && HasCells(CaseInputGrids(c)[g])
    ensures Denotes(GroupRange(c, g, DataTop(c, top)), row, col) <==> IsEntryOf(CaseInputGrids(c)[g], g, top, row, col)
    ensures IsEntryOf(CaseInputGrids(c)[g], g, top, row, col) ==> HoldsItsEntry(c, g, top, row, col, out)
  {
    EntriesAreDenoted(c, g, top, row, col);
    if IsEntryOf(CaseInputGrids(c)[g], g, top, row, col) {
      EntryIsWritten(cases, out, k, g, row - (top + 1), col);
    }
  }

  /** The cell is in the sheet, and holds the group's entry exactly if it is undisturbed, else that of the
      second group. */
  ghost predicate HoldsItsEntry(c: Case, g: nat, top: nat, row: int, col: int, out: seq<Row>)
    requires g < |CaseInputGrids(c)| && IsEntryOf(CaseInputGrids(c)[g], g, top, row, col)
  {
    var dr: nat := row - (top + 1);
    && 0 < row <= |out| && 0 <= col < |out[row - 1]|
    && out[row - 1][col] == Held(c, g, dr, col)
    && (out[row - 1][col] == CellSheetValue(CaseInputGrids(c)[g][dr][col - GroupColStart(g)])
        <==> Undisturbed(c, g, dr, col))
  }

  /** Where the groups are apart no cell is disturbed. */
  lemma ApartIsUndisturbed(c: Case, g: nat, dr: nat, col: nat)
    requires Fits(c) && Apart(c) && g < |CaseInputGrids(c)| && OwnsColumn(c, g, dr, col)
    ensures Undisturbed(c, g, dr, col)
  {
    assert RowFits(CaseInputGrids(c)[g], g, dr);
  }

  /** A first grid of six columns: its last entry is overwritten by the second grid's only one. */
  lemma WideGroupIsDisturbed(c: Case)
    requires c.gridA == [[Int(1), Int(2), Int(3), Int(4), Int(5), Int(6)]] && c.gridB == Some([[Int(7)]])
    ensures Fits(c) && !Apart(c) && OwnsColumn(c, 0, 0, 8) && !Undisturbed(c, 0, 0, 8)
    ensures Held(c, 0, 0, 8) == Number(7.0)
  {
    OneRowWidth(c.gridA);
    OneRowWidth(c.gridB.value);
  }

  lemma OneRowWidth(grid: Table)
    requires |grid| == 1
    ensures WidthOf(grid) == |grid[0]|
  {
    var none: Table := grid[1..];
    assert none == [] && WidthOf(none) == 0;
  }

  lemma EntriesAreDenoted(c: Case, g: nat, top: nat, row: int, col: int)
    requires Fits(c) && Sized(c) && g < |CaseInputGrids(c)| && HasCells(CaseInputGrids(c)[g])
    ensures Denotes(GroupRange(c, g, DataTop(c, top)), row, col) <==> IsEntryOf(CaseInputGrids(c)[g], g, top, row, col)
  {
    FitsIsSized(c);
    GroupRangeDenotes(c, g, top, row, col);
    if 0 <= row - (top + 1) < |CaseInputGrids(c)[g]| {
      assert RowFits(CaseInputGrids(c)[g], g, row - (top + 1));
    }
  }

  /** The formulas in a block's header are made with the ranges of exactly its groups that have cells. */
  lemma FormulasUseTheRanges(cases: seq<Case>, out: seq<Row>, k: nat, r: string)
    requires k < |cases| && Sized(cases[k]) && PlacedAt(cases, k, out)
    ensures var c, top := cases[k], Top(cases, k);
            var ranges := DataRanges(c, DataTop(c, top));
            && 0 < top <= |out| && |out[top - 1]| == WIDTH
            && out[top - 1][COL_PYTHON_FORMULA] == Text(PythonFormula(c, ranges))
            && out[top - 1][COL_CALC_ORACLE] == Text(CalcOracleFormula(c, ranges, DataTop(c, top)))
            && (r in ranges <==> IsGroupRange(c, DataTop(c, top), r))
  {
    FormulasAreWritten(cases, out, k);
    RangesAreThoseOfGroups(cases[k], DataTop(cases[k], Top(cases, k)), r);
  }

  /** The range belongs to a group that has cells. */
  ghost predicate IsGroupRange(c: Case, dataTop: nat, r: string)
    requires Sized(c)
  {
    exists g: nat :: g < |CaseInputGrids(c)| && HasCells(CaseInputGrids(c)[g]) && r == GroupRange(c, g, dataTop)
  }

  lemma FormulasAreWritten(cases: seq<Case>, out: seq<Row>, k: nat)
    requires k < |cases| && Sized(cases[k]) && PlacedAt(cases, k, out)
    ensures var c, top := cases[k], Top(cases, k);
            var ranges := DataRanges(c, DataTop(c, top));
            && 0 < top <= |out| && |out[top - 1]| == WIDTH
            && out[top - 1][COL_PYTHON_FORMULA] == Text(PythonFormula(c, ranges))
            && out[top - 1][COL_CALC_ORACLE] == Text(CalcOracleFormula(c, ranges, DataTop(c, top)))
  {
    HeaderIsWritten(cases, out, k);
    var c, dataTop := cases[k], DataTop(cases[k], Top(cases, k));
    FormulaCells(c, DataRanges(c, dataTop), dataTop);
  }

  /** Where everything of a block's header stands; the columns between are left for the grids. */
  lemma HeaderHolds(cases: seq<Case>, out: seq<Row>, k: nat)
    requires k < |cases| && Sized(cases[k]) && PlacedAt(cases, k, out)
    ensures var c, top := cases[k], Top(cases, k);
            && 0 < top <= |out| && |out[top - 1]| == 18
            && var row := out[top - 1];
               && row[0] == Text(c.id) && row[1] == Text(c.description) && row[2] == Text(c.tags)
               && row[13].Text? && row[14] == Comparison && row[16] == Text(c.notes) && row[17].Text?
               && row[15] == Text(if c.expected.Some? then c.expected.value else c.expectedError)
               && forall col | 3 <= col < 13 :: row[col] == Blank
  {
    HeaderIsWritten(cases, out, k);
  }

  /** The rows of a block's grids are labelled from row_1 on, and hold nothing but the grids' entries. */
  lemma GridRowsHold(cases: seq<Case>, out: seq<Row>, k: nat, dr: nat, col: nat)
    requires k < |cases| && Sized(cases[k]) && PlacedAt(cases, k, out) && dr < Height(cases[k]) && col < 18
    ensures var c, row := cases[k], Top(cases, k) + dr + 1;
            && row <= |out| && |out[row - 1]| == 18
            && out[row - 1][0] == Text("row_" + Decimal(dr + 1))
            && (col > 0 && !OwnsColumn(c, 0, dr, col) && !OwnsColumn(c, 1, dr, col) ==> out[row - 1][col] == Blank)
  {
    var rows := out[Top(cases, k) - 1..End(cases, k) - 1];
    assert rows[1 + dr] == out[Top(cases, k) + dr];
    assert rows[1 + dr][col] == GridCell(cases[k], dr, col);
    assert rows[1 + dr][0] == GridCell(cases[k], dr, 0);
  }

  lemma FormulaCells(c: Case, ranges: seq<string>, dataTop: nat)
    requires dataTop > 0
    ensures HeaderCell(c, ranges, dataTop, COL_PYTHON_FORMULA) == Text(PythonFormula(c, ranges))
    ensures HeaderCell(c, ranges, dataTop, COL_CALC_ORACLE) == Text(CalcOracleFormula(c, ranges, dataTop))
  {
  }

  lemma RangesAreThoseOfGroups(c: Case, dataTop: nat, r: string)
    requires Sized(c)
    ensures r in DataRanges(c, dataTop) <==> IsGroupRange(c, dataTop, r)
  {
    var n := |CaseInputGrids(c)|;
    if r in DataRanges(c, dataTop) {
      RangesAreGroups(c, dataTop, n, r);
    }
    forall g: nat | g < n && HasCells(CaseInputGrids(c)[g])
      ensures GroupRange(c, g, dataTop) in DataRanges(c, dataTop)
    {
      GroupsAreInRanges(c, dataTop, n, g);
    }
  }

  lemma HeaderIsWritten(cases: seq<Case>, out: seq<Row>, k: nat)
    requires k < |cases| && Sized(cases[k]) && PlacedAt(cases, k, out)
    ensures var c, top := cases[k], Top(cases, k);
            var ranges := DataRanges(c, DataTop(c, top));
            && 0 < top <= |out| && |out[top - 1]| == WIDTH
            && forall col | 0 <= col < WIDTH :: out[top - 1][col] == HeaderCell(c, ranges, DataTop(c, top), col)
  {
    var rows := out[Top(cases, k) - 1..End(cases, k) - 1];
    assert rows[0] == out[Top(cases, k) - 1];
  }

  lemma EntryIsWritten(cases: seq<Case>, out: seq<Row>, k: nat, g: nat, dr: nat, col: nat)
    requires k < |cases| && Fits(cases[k]) && Sized(cases[k]) && PlacedAt(cases, k, out)
    requires g < |CaseInputGrids(cases[k])| && OwnsColumn(cases[k], g, dr, col)
    ensures var row := Top(cases, k) + dr + 1;
            row <= |out| && col < |out[row - 1]| && out[row - 1][col] == Held(cases[k], g, dr, col)
  {
    assert RowFits(CaseInputGrids(cases[k])[g], g, dr);
    HeightCovers(cases[k], g);
    var rows := out[Top(cases, k) - 1..End(cases, k) - 1];
    assert rows[1 + dr] == out[Top(cases, k) + dr];
    assert rows[1 + dr][col] == GridCell(cases[k], dr, col);
  }

  lemma {:induction false} BlocksAreApart(cases: seq<Case>, j: nat, k: nat)
    requires j < k < |cases|
    ensures End(cases, j) <= Top(cases, k)
  {
    if j < k - 1 {
      BlocksAreApart(cases, j, k - 1);
    }
  }

  /** Some cell is denoted by the ranges of both groups of a block. */
  ghost predicate GroupsShareACell(c: Case, top: nat)
    requires Sized(c) && |CaseInputGrids(c)| == 2
  {
    exists row, col :: InBothRanges(c, DataTop(c, top), row, col)
  }

  /** The ranges of a block's two groups share a cell exactly if the groups are not apart. */
  lemma GroupsShareUnlessApart(c: Case, top: nat)
    requires Fits(c) && Sized(c) && |CaseInputGrids(c)| == 2
    requires HasCells(CaseInputGrids(c)[0]) && HasCells(CaseInputGrids(c)[1])
    ensures GroupsShareACell(c, top) <==> !Apart(c)
  {
    if Apart(c) {
      forall row, col ensures !InBothRanges(c, DataTop(c, top), row, col) {
        BothRangesAreRectangles(c, top, row, col);
      }
    } else {
      var row, col := top + 1, GroupColStart(1);
      BothRangesAreRectangles(c, top, row, col);
      assert InRectangle(c, 0, top, row, col);
      assert InRectangle(c, 1, top, row, col);
      assert InBothRanges(c, DataTop(c, top), row, col);
    }
  }

  lemma BothRangesAreRectangles(c: Case, top: nat, row: int, col: int)
    requires Fits(c) && Sized(c) && |CaseInputGrids(c)| == 2
    requires HasCells(CaseInputGrids(c)[0]) && HasCells(CaseInputGrids(c)[1])
    ensures InBothRanges(c, DataTop(c, top), row, col)
            <==> InRectangle(c, 0, top, row, col) && InRectangle(c, 1, top, row, col)
  {
    FitsIsSized(c);
    GroupRangeDenotes(c, 0, top, row, col);
    GroupRangeDenotes(c, 1, top, row, col);
  }

  predicate InRectangle(c: Case, g: nat, top: nat, row: int, col: int)
    requires g < |CaseInputGrids(c)|
  {
    && top + 1 <= row < top + 1 + |CaseInputGrids(c)[g]|
    && GroupColStart(g) <= col < GroupColStart(g) + WidthOf(CaseInputGrids(c)[g])
  }

  ghost predicate InBothRanges(c: Case, dataTop: nat, row: int, col: int)
    requires Sized(c) && |CaseInputGrids(c)| == 2
  {
    Denotes(GroupRange(c, 0, dataTop), row, col) && Denotes(GroupRange(c, 1, dataTop), row, col)
  }

  /** No cell is denoted by the ranges of two blocks. */
  lemma RangesNeverOverlap(cases: seq<Case>, j: nat, f: nat, k: nat, g: nat, row: int, col: int)
    requires j < k < |cases|
    requires Fits(cases[j]) && Sized(cases[j]) && Fits(cases[k]) && Sized(cases[k])
    requires f < |CaseInputGrids(cases[j])| && HasCells(CaseInputGrids(cases[j])[f])
    requires g < |CaseInputGrids(cases[k])| && HasCells(CaseInputGrids(cases[k])[g])
    ensures !(Denotes(GroupRange(cases[j], f, DataTop(cases[j], Top(cases, j))), row, col)
              && Denotes(GroupRange(cases[k], g, DataTop(cases[k], Top(cases, k))), row, col))
  {
    FitsIsSized(cases[j]);
    FitsIsSized(cases[k]);
    GroupRangeDenotes(cases[j], f, Top(cases, j), row, col);
    GroupRangeDenotes(cases[k], g, Top(cases, k), row, col);
    HeightCovers(cases[j], f);
    HeightCovers(cases[k], g);
    BlocksAreApart(cases, j, k);
  }
}
