/** The split_grid envelope of scripts/bench_unpacking_opt.py: one packer, and three unpackers
    that are meant to be interchangeable. */
module SplitGrid {
  /** A double: finite ones are reals, since nothing here rounds. */
  datatype Float = NaN | Infinite(negative: bool) | Finite(value: real)

  /** A cell as a Python object; Other is any object that only has a text form. */
  datatype Val = None | Bool(b: bool) | Int(n: int) | Flt(f: Float) | Str(s: string) | Other(text: string)

  datatype Kind = IntKind | FloatKind

  datatype Shape = OneD(n: nat) | TwoD(nrows: nat, ncols: nat)

  datatype Envelope = Envelope(shape: Shape, kinds: seq<Kind>, strings: map<nat, string>, buffer: seq<Float>)

  datatype Grid = Flat(cells: seq<Val>) | Rows(rows: seq<seq<Val>>)

  /** What an unpacker gives, or the exception it raises. */
  datatype Result = Ok(grid: Grid) | OverflowError | ReshapeError

  const INT64_LIMIT: int := 0x8000_0000_0000_0000
  const EXACT_LIMIT: int := 0x20_0000_0000_0000

  /** int() of a float: towards zero. */
  function Truncate(x: real): (n: int)
    ensures 0.0 <= x ==> 0 <= n && n as real <= x < (n + 1) as real
    ensures x <= 0.0 ==> n <= 0 && (n - 1) as real < x <= n as real
  {
    if x >= 0.0 then x.Floor else -((-x).Floor)
  }

  function Size(shape: Shape): nat {
    if shape.OneD? then shape.n else shape.nrows * shape.ncols
  }

  function ColumnOf(shape: Shape, i: nat): nat {
    if shape.OneD? || shape.ncols == 0 then 0 else i % shape.ncols
  }

  /** There is one kind for each column, or none at all for an empty list; without columns there are
      no cells. */
  predicate KindsFit(e: Envelope) {
    if e.shape.OneD? then |e.kinds| <= 1
    else |e.kinds| == e.shape.ncols && (e.shape.ncols == 0 ==> e.buffer == [])
  }

  ghost predicate StringsInside(e: Envelope) {
    forall i | i in e.strings :: i < |e.buffer|
  }

  /** The buffer is as long as the shape says. */
  ghost predicate WellFormed(e: Envelope) {
    KindsFit(e) && StringsInside(e) && |e.buffer| == Size(e.shape)
  }

  lemma ColumnInRange(e: Envelope, i: nat)
    requires KindsFit(e) && i < |e.buffer|
    ensures if e.shape.TwoD? then e.shape.ncols > 0 && ColumnOf(e.shape, i) == i % e.shape.ncols < |e.kinds|
            else ColumnOf(e.shape, i) == 0
  {
  }

  predicate IntAt(e: Envelope, i: nat) {
    ColumnOf(e.shape, i) < |e.kinds| && e.kinds[ColumnOf(e.shape, i)] == IntKind
  }

  /** What becomes of position i: a string, None for NaN, a truncated int, or the float. */
  function Cell(e: Envelope, i: nat): Val
    requires i < |e.buffer|
  {
    if i in e.strings then Str(e.strings[i])
    else if e.buffer[i].NaN? then None
    else if IntAt(e, i) && e.buffer[i].Finite? then Int(Truncate(e.buffer[i].value))
    else Flt(e.buffer[i])
  }

  function Cells(e: Envelope): (cells: seq<Val>)
    ensures |cells| == |e.buffer| && forall i | 0 <= i < |cells| :: cells[i] == Cell(e, i)
  {
    seq(|e.buffer|, i requires 0 <= i < |e.buffer| => Cell(e, i))
  }

  lemma RowInRange(shape: Shape, r: nat)
    requires shape.TwoD? && r < shape.nrows
    ensures 0 <= r * shape.ncols <= (r + 1) * shape.ncols <= Size(shape)
  {
  }

  function Reshape(shape: Shape, cells: seq<Val>): Grid
    requires |cells| == Size(shape)
  {
    if shape.OneD? then Flat(cells)
    else Rows(seq(shape.nrows, r requires 0 <= r < shape.nrows =>
                RowInRange(shape, r); cells[r * shape.ncols..(r + 1) * shape.ncols]))
  }

  /** s[lo:hi] of a list: bounds beyond its end are cut back to it. */
  function Slice<T>(s: seq<T>, lo: nat, hi: nat): seq<T> {
    var to := if hi < |s| then hi else |s|;
    if lo < to then s[lo..to] else []
  }

  /** The cells as the loops hand them back: whatever slices of a row's width there are. */
  function Chunked(shape: Shape, cells: seq<Val>): Grid {
    if shape.OneD? then Flat(cells)
    else Rows(seq(shape.nrows, r requires 0 <= r < shape.nrows =>
                Slice(cells, r * shape.ncols, (r + 1) * shape.ncols)))
  }

  lemma ChunkedIsReshaped(shape: Shape, cells: seq<Val>)
    requires |cells| == Size(shape)
    ensures Chunked(shape, cells) == Reshape(shape, cells)
  {
    if shape.TwoD? {
      forall r | 0 <= r < shape.nrows ensures Chunked(shape, cells).rows[r] == Reshape(shape, cells).rows[r] {
        RowInRange(shape, r);
      }
    }
  }

  /** int() fails on an infinity that no string covers. */
  ghost predicate HasBareInfinity(e: Envelope) {
    exists i :: 0 <= i < |e.buffer| && i !in e.strings && IntAt(e, i) && e.buffer[i].Infinite?
  }

  /** A cell that does not fit NumPy's 64-bit integers. */
  predicate Unfit(f: Float) {
    f.Infinite? || (f.Finite? && !(-INT64_LIMIT <= Truncate(f.value) < INT64_LIMIT))
  }

  /** astype(int) fails on any unfit cell of an int column, even one a string will cover. */
  ghost predicate HasUnfitInt(e: Envelope) {
    exists i :: 0 <= i < |e.buffer| && IntAt(e, i) && Unfit(e.buffer[i])
  }

  ghost function LoopResult(e: Envelope): Result {
    if HasBareInfinity(e) then OverflowError else Ok(Chunked(e.shape, Cells(e)))
  }

  /** Only a two-dimensional shape is imposed on the buffer; a list is taken as long as it is. */
  function Imposed(e: Envelope): Envelope {
    if e.shape.OneD? then e.(shape := OneD(|e.buffer|)) else e
  }

  ghost function NumpyResult(e: Envelope): Result {
    if |e.buffer| != Size(Imposed(e).shape) then ReshapeError
    else if HasUnfitInt(e) then OverflowError
    else Ok(Reshape(Imposed(e).shape, Cells(e)))
  }

  // ---------- The three unpackers ----------

  method UnpackCurrent(e: Envelope) returns (r: Result)
    requires KindsFit(e)
    ensures r == LoopResult(e)
  {
    var flat := new Val[|e.buffer|](i requires 0 <= i < |e.buffer| => Flt(e.buffer[i]));
    var anyInt := IntKind in e.kinds;
    if !anyInt {
      for i := 0 to |e.buffer|
        invariant forall k | 0 <= k < |e.buffer| :: flat[k] == if k < i then Cell(e, k) else Flt(e.buffer[k])
      {
        ColumnInRange(e, i);
        if i in e.strings {
          flat[i] := Str(e.strings[i]);
        } else if e.buffer[i].NaN? {
          flat[i] := None;
        }
      }
    } else {
      for i := 0 to |e.buffer|
        invariant forall k | 0 <= k < |e.buffer| :: flat[k] == if k < i then Cell(e, k) else Flt(e.buffer[k])
        invariant forall k | 0 <= k < i :: k in e.strings || !IntAt(e, k) || !e.buffer[k].Infinite?
      {
        ColumnInRange(e, i);
        if i in e.strings {
          flat[i] := Str(e.strings[i]);
        } else if e.buffer[i].NaN? {
          flat[i] := None;
        } else if e.kinds[if e.shape.OneD? then 0 else i % e.shape.ncols] == IntKind {
          if e.buffer[i].Infinite? {
            return OverflowError;
          }
          flat[i] := Int(Truncate(e.buffer[i].value));
        }
      }
    }
    assert flat[..] == Cells(e);
    return Ok(Chunked(e.shape, flat[..]));
  }

  /** The cycled list of kinds replaces the modulo: `next` is the iterator's position. */
  method UnpackCycle(e: Envelope) returns (r: Result)
    requires KindsFit(e)
    ensures r == LoopResult(e)
  {
    var flat := new Val[|e.buffer|](i requires 0 <= i < |e.buffer| => Flt(e.buffer[i]));
    var anyInt := IntKind in e.kinds;
    if !anyInt {
      for i := 0 to |e.buffer|
        invariant forall k | 0 <= k < |e.buffer| :: flat[k] == if k < i then Cell(e, k) else Flt(e.buffer[k])
      {
        ColumnInRange(e, i);
        if i in e.strings {
          flat[i] := Str(e.strings[i]);
        } else if e.buffer[i].NaN? {
          flat[i] := None;
        }
      }
    } else {
      var next := 0;
      for i := 0 to |e.buffer|
        invariant 0 <= next < |e.kinds| && next == i % |e.kinds|
        invariant forall k | 0 <= k < |e.buffer| :: flat[k] == if k < i then Cell(e, k) else Flt(e.buffer[k])
        invariant forall k | 0 <= k < i :: k in e.strings || !IntAt(e, k) || !e.buffer[k].Infinite?
      {
        ColumnInRange(e, i);
        CycleIsModulo(i, |e.kinds|);
        assert next == ColumnOf(e.shape, i);
        var colInt := e.kinds[next];
        next := if next + 1 == |e.kinds| then 0 else next + 1;
        if i in e.strings {
          flat[i] := Str(e.strings[i]);
        } else if e.buffer[i].NaN? {
          flat[i] := None;
        } else if colInt == IntKind {
          if e.buffer[i].Infinite? {
            return OverflowError;
          }
          flat[i] := Int(Truncate(e.buffer[i].value));
        }
      }
    }
    assert flat[..] == Cells(e);
    return Ok(Chunked(e.shape, flat[..]));
  }

  lemma CycleIsModulo(i: nat, n: nat)
    requires n > 0
    ensures (i + 1) % n == if i % n + 1 == n then 0 else i % n + 1
  {
    var q, m := i / n, i % n;
    assert i == q * n + m;
    if m + 1 == n {
      assert i + 1 == (q + 1) * n;
      Position(q + 1, 0, n);
    } else {
      Position(q, m + 1, n);
    }
  }

  /** Row-major positions: row r, column c of a table that is n wide. */
  lemma Position(r: nat, c: nat, n: nat)
    requires c < n
    ensures (r * n + c) / n == r && (r * n + c) % n == c
  {
    var i := r * n + c;
    assert i == (i / n) * n + i % n;
    SameQuotient(r, c, i / n, i % n, n);
  }

  lemma {:induction false} AtLeastOneRow(k: nat, n: nat)
    requires k > 0
    ensures k * n >= n
  {
    if k > 1 {
      AtLeastOneRow(k - 1, n);
      assert k * n == (k - 1) * n + n;
    }
  }

  lemma SameQuotient(r: int, c: int, q: int, m: int, n: int)
    requires 0 <= c < n && 0 <= m < n && r * n + c == q * n + m
    ensures r == q && c == m
  {
    assert (q - r) * n == q * n - r * n && (r - q) * n == r * n - q * n;
    if r < q {
      AtLeastOneRow(q - r, n);
    } else if q < r {
      AtLeastOneRow(r - q, n);
    }
  }

  lemma Inside(r: nat, c: nat, nrows: nat, ncols: nat)
    requires r < nrows && c < ncols
    ensures r * ncols + c < nrows * ncols
  {
    AtLeastOneRow(nrows - r, ncols);
    assert (nrows - r) * ncols == nrows * ncols - r * ncols;
  }

  // ---------- Column views ----------

  function RowOf(shape: Shape, i: nat): nat
    requires i < Size(shape)
  {
    if shape.OneD? then i else i / shape.ncols
  }

  function RowCount(shape: Shape): nat {
    if shape.OneD? then shape.n else shape.nrows
  }

  function ColumnCount(shape: Shape): nat {
    if shape.OneD? then 1 else shape.ncols
  }

  /** Where entry r of the view of column c lies in the flat array. */
  function ViewIndex(shape: Shape, r: nat, c: nat): nat {
    if shape.OneD? then r else r * shape.ncols + c
  }

  lemma ViewIsColumn(shape: Shape, r: nat, c: nat)
    requires r < RowCount(shape) && c < ColumnCount(shape)
    ensures ViewIndex(shape, r, c) < Size(shape)
    ensures RowOf(shape, ViewIndex(shape, r, c)) == r && ColumnOf(shape, ViewIndex(shape, r, c)) == c
  {
    if shape.TwoD? {
      Inside(r, c, shape.nrows, shape.ncols);
      Position(r, c, shape.ncols);
    }
  }

  lemma EveryIndexIsInAView(shape: Shape, i: nat)
    requires i < Size(shape)
    ensures RowOf(shape, i) < RowCount(shape) && ColumnOf(shape, i) < ColumnCount(shape)
    ensures ViewIndex(shape, RowOf(shape, i), ColumnOf(shape, i)) == i
  {
    if shape.TwoD? {
      var q := i / shape.ncols;
      if q >= shape.nrows {
        assert (q - shape.nrows) * shape.ncols == q * shape.ncols - shape.nrows * shape.ncols;
      }
    }
  }

  /** A position before the strings are laid over it, once int columns before `c`, and in
      column c the rows before `r`, have been converted. */
  function Converted(e: Envelope, i: nat, c: nat, r: nat): Val
    requires WellFormed(e) && i < |e.buffer|
  {
    if e.buffer[i].NaN? then None
    else if IntAt(e, i) && e.buffer[i].Finite?
            && (ColumnOf(e.shape, i) < c || (ColumnOf(e.shape, i) == c && RowOf(e.shape, i) < r))
    then Int(Truncate(e.buffer[i].value))
    else Flt(e.buffer[i])
  }

  /** No converted position was unfit. */
  ghost predicate FitSoFar(e: Envelope, c: nat, r: nat)
    requires WellFormed(e)
  {
    forall i | 0 <= i < |e.buffer| && IntAt(e, i)
               && (ColumnOf(e.shape, i) < c || (ColumnOf(e.shape, i) == c && RowOf(e.shape, i) < r)) ::
      !Unfit(e.buffer[i])
  }

  method UnpackNumpy(e: Envelope) returns (r: Result)
    requires KindsFit(e) && StringsInside(e)
    ensures r == NumpyResult(e)
  {
    if e.shape.TwoD? && |e.buffer| != e.shape.nrows * e.shape.ncols {
      return ReshapeError;
    }
    r := UnpackImposed(Imposed(e));
    ImposedCells(e);
  }

  lemma ImposedCells(e: Envelope)
    ensures Cells(Imposed(e)) == Cells(e) && (HasUnfitInt(Imposed(e)) <==> HasUnfitInt(e))
  {
    assert forall i :: IntAt(Imposed(e), i) <==> IntAt(e, i);
  }

  /** What follows the reshape: None for NaN, then the int columns, then the strings. */
  method UnpackImposed(e: Envelope) returns (r: Result)
    requires WellFormed(e)
    ensures r == if HasUnfitInt(e) then OverflowError else Ok(Reshape(e.shape, Cells(e)))
  {
    var obj := new Val[|e.buffer|](i requires 0 <= i < |e.buffer| => Flt(e.buffer[i]));
    for i := 0 to |e.buffer|
      invariant forall k | 0 <= k < |e.buffer| ::
                  obj[k] == if k < i && e.buffer[k].NaN? then None else Flt(e.buffer[k])
    {
      if e.buffer[i].NaN? {
        obj[i] := None;
      }
    }
    for c := 0 to |e.kinds|
      invariant forall k | 0 <= k < |e.buffer| :: obj[k] == Converted(e, k, c, 0)
      invariant FitSoFar(e, c, 0)
    {
      if e.kinds[c] == IntKind && |e.buffer| > 0 {
        var overflow := ConvertColumn(e, obj, c);
        if overflow {
          return OverflowError;
        }
      }
      NextColumn(e, c, c + 1);
    }
    OverlayStrings(e, obj);
    NothingUnfit(e);
    assert obj[..] == Cells(e);
    return Ok(Reshape(e.shape, obj[..]));
  }

  lemma NothingUnfit(e: Envelope)
    requires WellFormed(e) && FitSoFar(e, |e.kinds|, 0)
    ensures !HasUnfitInt(e)
  {
  }

  /** The strings are written through the flat view of the object array. */
  method OverlayStrings(e: Envelope, obj: array<Val>)
    requires WellFormed(e) && obj.Length == |e.buffer|
    requires forall k | 0 <= k < |e.buffer| :: obj[k] == Converted(e, k, |e.kinds|, 0)
    modifies obj
    ensures forall k | 0 <= k < |e.buffer| :: obj[k] == Cell(e, k)
  {
    var todo := e.strings.Keys;
    while todo != {}
      invariant todo <= e.strings.Keys
      invariant forall k | 0 <= k < |e.buffer| ::
                  obj[k] == if k in e.strings && k !in todo then Str(e.strings[k]) else Converted(e, k, |e.kinds|, 0)
    {
      var idx :| idx in todo;
      todo := todo - {idx};
      obj[idx] := Str(e.strings[idx]);
    }
  }

  /** `col_slice[valid] = col_slice[valid].astype(int)` through a view of column c. */
  method ConvertColumn(e: Envelope, obj: array<Val>, c: nat) returns (overflow: bool)
    requires WellFormed(e) && obj.Length == |e.buffer| > 0 && c < |e.kinds| && e.kinds[c] == IntKind
    requires forall k | 0 <= k < |e.buffer| :: obj[k] == Converted(e, k, c, 0)
    requires FitSoFar(e, c, 0)
    modifies obj
    ensures overflow ==> HasUnfitInt(e)
    ensures !overflow ==> FitSoFar(e, c, RowCount(e.shape))
    ensures !overflow ==> forall k | 0 <= k < |e.buffer| :: obj[k] == Converted(e, k, c, RowCount(e.shape))
  {
    for r := 0 to RowCount(e.shape)
      invariant forall k | 0 <= k < |e.buffer| :: obj[k] == Converted(e, k, c, r)
      invariant FitSoFar(e, c, r)
    {
      ViewIsColumn(e.shape, r, c);
      var p := ViewIndex(e.shape, r, c);
      forall k | 0 <= k < |e.buffer| && k != p ensures Converted(e, k, c, r + 1) == Converted(e, k, c, r) {
        EveryIndexIsInAView(e.shape, k);
      }
      OneMoreRow(e, c, r, p);
      if !e.buffer[p].NaN? {
        if Unfit(e.buffer[p]) {
          return true;
        }
        obj[p] := Int(Truncate(e.buffer[p].value));
      }
    }
    return false;
  }

  lemma OneMoreRow(e: Envelope, c: nat, r: nat, p: nat)
    requires WellFormed(e) && c < ColumnCount(e.shape) && r < RowCount(e.shape)
    requires p == ViewIndex(e.shape, r, c) && p < |e.buffer| && FitSoFar(e, c, r)
    ensures !Unfit(e.buffer[p]) ==> FitSoFar(e, c, r + 1)
  {
    forall i | 0 <= i < |e.buffer| && ColumnOf(e.shape, i) == c && RowOf(e.shape, i) == r ensures i == p {
      EveryIndexIsInAView(e.shape, i);
    }
  }

  function RowsToDo(e: Envelope, c: nat): nat
    requires c < |e.kinds|
  {
    if e.kinds[c] == IntKind && |e.buffer| > 0 then RowCount(e.shape) else 0
  }

  /** A column that is not of ints, or whose rows are all done, needs no more work. */
  lemma NextColumn(e: Envelope, c: nat, d: nat)
    requires WellFormed(e) && c < |e.kinds| && d == c + 1
    requires FitSoFar(e, c, RowsToDo(e, c))
    ensures FitSoFar(e, d, 0)
    ensures forall k | 0 <= k < |e.buffer| :: Converted(e, k, d, 0) == Converted(e, k, c, RowsToDo(e, c))
  {
    forall k | 0 <= k < |e.buffer| ensures RowOf(e.shape, k) < RowCount(e.shape) {
      EveryIndexIsInAView(e.shape, k);
    }
  }

  // ---------- Agreement ----------

  /** The vectorised unpacker agrees with the loops exactly when the buffer fills the shape, and no int
      column has a cell that 64-bit integers cannot hold, or some such cell is an infinity that no
      string covers (then all three raise). */
  lemma UnpackersAgreeExactlyWhen(e: Envelope)
    ensures NumpyResult(e) == LoopResult(e) <==>
            |e.buffer| == Size(Imposed(e).shape) && (!HasUnfitInt(e) || HasBareInfinity(e))
  {
    if HasBareInfinity(e) {
      var i :| 0 <= i < |e.buffer| && i !in e.strings && IntAt(e, i) && e.buffer[i].Infinite?;
      assert Unfit(e.buffer[i]);
    }
    if |e.buffer| == Size(Imposed(e).shape) {
      ChunkedIsReshaped(Imposed(e).shape, Cells(e));
    }
  }

  /** They do not always agree: the integer 10^19 alone in a column. */
  lemma UnpackersDisagreeOnBigInteger()
    ensures var e := Envelope(OneD(1), [IntKind], map[], [Finite(10000000000000000000.0)]);
            WellFormed(e) && NumpyResult(e) == OverflowError
            && LoopResult(e) == Ok(Flat([Int(10000000000000000000)]))
  {
    var e := Envelope(OneD(1), [IntKind], map[], [Finite(10000000000000000000.0)]);
    assert IntAt(e, 0) && Unfit(e.buffer[0]);
    assert Cells(e) == [Int(10000000000000000000)];
  }

  /** The limits are those of a signed 64-bit integer. */
  lemma UnfitFrom64Bits(n: int)
    ensures Unfit(Finite(n as real)) <==> n < -9223372036854775808 || n > 9223372036854775807
  {
    assert Truncate(n as real) == n;
  }
}
