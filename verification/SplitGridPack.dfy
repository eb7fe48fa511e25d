/** The packer of scripts/bench_unpacking_opt.py, and what a round trip through the envelope
    makes of a grid. */
module SplitGridPack {
  import opened SplitGrid

  function MaxLength(rows: seq<seq<Val>>): nat {
    if rows == [] then 0
    else
      var w, n := MaxLength(rows[..|rows| - 1]), |rows[|rows| - 1]|;
      if n > w then n else w
  }

  /** A list of cells, or rows that are all as long as the longest. */
  ghost predicate Rectangular(g: Grid) {
    g.Rows? ==> forall r | 0 <= r < |g.rows| :: |g.rows[r]| == MaxLength(g.rows)
  }

  /** The shape that the packer writes down; an empty list has no rows to be two-dimensional with. */
  function ShapeOf(g: Grid): Shape {
    match g
    case Flat(cells) => OneD(|cells|)
    case Rows(rows) => if rows == [] then OneD(0) else TwoD(|rows|, MaxLength(rows))
  }

  predicate MakesFloat(v: Val) { v.None? || v.Flt? }

  function Number(v: Val): Float {
    match v
    case Bool(b) => Finite(if b then 1.0 else 0.0)
    case Int(n) => Finite(n as real)
    case Flt(f) => f
    case _ => NaN
  }

  predicate IsText(v: Val) { v.Str? || v.Other? }

  function TextOf(v: Val): string
    requires IsText(v)
  {
    if v.Str? then v.s else v.text
  }

  // ---------- Packing, of any grid ----------

  /** The cells of a row, each with its column; a list of cells is one column. */
  function RowEntries(row: seq<Val>, twoD: bool): seq<(nat, Val)> {
    seq(|row|, c requires 0 <= c < |row| => (if twoD then c else 0, row[c]))
  }

  function EntriesOf(rows: seq<seq<Val>>, twoD: bool): seq<(nat, Val)> {
    if rows == [] then []
    else EntriesOf(rows[..|rows| - 1], twoD) + RowEntries(rows[|rows| - 1], twoD)
  }

  function RowList(g: Grid): seq<seq<Val>> {
    if g.Rows? then g.rows else [g.cells]
  }

  /** All cells in the order in which they are packed; rows may differ in length. */
  function Entries(g: Grid): seq<(nat, Val)> {
    EntriesOf(RowList(g), g.Rows?)
  }

  ghost predicate FloatIn(entries: seq<(nat, Val)>, c: nat) {
    exists i :: 0 <= i < |entries| && entries[i].0 == c && MakesFloat(entries[i].1)
  }

  /** These cells are packed: their numbers in order, the texts beside them under their positions, and
      float for exactly the columns that hold a float or None. */
  ghost predicate Packed(entries: seq<(nat, Val)>, kinds: seq<Kind>, buf: seq<Float>, strings: map<nat, string>) {
    && |buf| == |entries|
    && (forall i | 0 <= i < |buf| :: buf[i] == Number(entries[i].1))
    && KindsOf(entries, kinds)
    && TextsOf(entries, strings)
  }

  ghost predicate KindsOf(entries: seq<(nat, Val)>, kinds: seq<Kind>) {
    forall c | 0 <= c < |kinds| :: kinds[c] == FloatKind <==> FloatIn(entries, c)
  }

  ghost predicate TextsOf(entries: seq<(nat, Val)>, strings: map<nat, string>) {
    && (forall i: nat :: i in strings <==> i < |entries| && IsText(entries[i].1))
    && (forall i | i in strings :: strings[i] == TextOf(entries[i].1))
  }

  /** The envelope of a grid. */
  ghost predicate Packs(e: Envelope, g: Grid) {
    && e.shape == ShapeOf(g)
    && |e.kinds| == (if RowList(g) == [] || g == Flat([]) then 0 else ColumnCount(e.shape))
    && Packed(Entries(g), e.kinds, e.buffer, e.strings)
  }

  method MockPack(g: Grid) returns (e: Envelope)
    ensures Packs(e, g)
    ensures forall c | 0 <= c < |e.kinds| :: e.kinds[c] == FloatKind <==> HasFloat(g, c)
  {
    forall c: nat ensures FloatIn(Entries(g), c) <==> HasFloat(g, c) {
      FloatColumn(g, c);
    }
    if g == Flat([]) || g == Rows([]) {
      return Envelope(OneD(0), [], map[], []);
    }
    var kinds := seq(ColumnCount(ShapeOf(g)), _ => IntKind);
    var buf: seq<Float> := [];
    var strings: map<nat, string> := map[];
    var idx := 0;
    var rows := RowList(g);
    assert rows[..0] == [];
    for r := 0 to |rows|
      invariant idx == |buf| && |kinds| == ColumnCount(ShapeOf(g))
      invariant Packed(EntriesOf(rows[..r], g.Rows?), kinds, buf, strings)
    {
      kinds, buf, strings, idx := PackRow(g, r, kinds, buf, strings, idx);
    }
    assert rows[..|rows|] == rows;
    e := Envelope(ShapeOf(g), kinds, strings, buf);
  }

  /** The packer's loop over one row. */
  method PackRow(g: Grid, r: nat, kinds: seq<Kind>, buf: seq<Float>, strings: map<nat, string>, idx: nat)
    returns (kinds': seq<Kind>, buf': seq<Float>, strings': map<nat, string>, idx': nat)
    requires r < |RowList(g)| && idx == |buf| && |kinds| == ColumnCount(ShapeOf(g))
    requires Packed(EntriesOf(RowList(g)[..r], g.Rows?), kinds, buf, strings)
    ensures idx' == |buf'| && |kinds'| == |kinds|
    ensures Packed(EntriesOf(RowList(g)[..r + 1], g.Rows?), kinds', buf', strings')
  {
    kinds', buf', strings', idx' := kinds, buf, strings, idx;
    var row := RowList(g)[r];
    ghost var before, entries := EntriesOf(RowList(g)[..r], g.Rows?), RowEntries(row, g.Rows?);
    RowIsNarrow(g, r);
    assert before + entries[..0] == before;
    for c := 0 to |row|
      invariant idx' == |buf'| && |kinds'| == |kinds|
      invariant Packed(before + entries[..c], kinds', buf', strings')
    {
      assert before + entries[..c + 1] == before + entries[..c] + [entries[c]];
      OneMorePacked(before + entries[..c], entries[c], kinds', buf', strings');
      kinds', buf', strings' := PackCell(row[c], idx', if g.Rows? then c else 0, kinds', buf', strings');
      idx' := idx' + 1;
    }
    assert RowList(g)[..r + 1][..r] == RowList(g)[..r] && entries[..|row|] == entries;
  }

  lemma {:induction false} RowIsAtMostMax(rows: seq<seq<Val>>, r: nat)
    requires r < |rows|
    ensures |rows[r]| <= MaxLength(rows)
  {
    if r < |rows| - 1 {
      RowIsAtMostMax(rows[..|rows| - 1], r);
    }
  }

  lemma RowIsNarrow(g: Grid, r: nat)
    requires r < |RowList(g)|
    ensures if g.Rows? then |RowList(g)[r]| <= ColumnCount(ShapeOf(g)) else ColumnCount(ShapeOf(g)) == 1
  {
    if g.Rows? {
      RowIsAtMostMax(g.rows, r);
    }
  }

  /** What packing one more cell has to do. */
  lemma OneMorePacked(entries: seq<(nat, Val)>, next: (nat, Val), kinds: seq<Kind>, buf: seq<Float>,
                      strings: map<nat, string>)
    requires Packed(entries, kinds, buf, strings) && next.0 < |kinds|
    ensures Packed(entries + [next],
                   if MakesFloat(next.1) then kinds[next.0 := FloatKind] else kinds,
                   buf + [Number(next.1)],
                   if IsText(next.1) then strings[|buf| := TextOf(next.1)] else strings)
  {
    OneMoreKind(entries, next, kinds);
    OneMoreText(entries, next, strings);
  }

  lemma OneMoreKind(entries: seq<(nat, Val)>, next: (nat, Val), kinds: seq<Kind>)
    requires KindsOf(entries, kinds) && next.0 < |kinds|
    ensures KindsOf(entries + [next], if MakesFloat(next.1) then kinds[next.0 := FloatKind] else kinds)
  {
    forall c: nat
      ensures FloatIn(entries + [next], c) <==> FloatIn(entries, c) || (c == next.0 && MakesFloat(next.1))
    {
      OneMoreForColumn(entries, next, c);
    }
  }

  lemma OneMoreText(entries: seq<(nat, Val)>, next: (nat, Val), strings: map<nat, string>)
    requires TextsOf(entries, strings)
    ensures TextsOf(entries + [next], if IsText(next.1) then strings[|entries| := TextOf(next.1)] else strings)
  {
  }

  lemma OneMoreForColumn(entries: seq<(nat, Val)>, next: (nat, Val), c: nat)
    ensures FloatIn(entries + [next], c) <==> FloatIn(entries, c) || (c == next.0 && MakesFloat(next.1))
  {
    var more := entries + [next];
    if i :| 0 <= i < |entries| && entries[i].0 == c && MakesFloat(entries[i].1) {
      assert more[i] == entries[i];
    }
    assert more[|entries|] == next;
  }

  /** The body of the packer's inner loop. */
  method PackCell(val: Val, idx: nat, col: nat, kinds: seq<Kind>, buf: seq<Float>, strings: map<nat, string>)
    returns (kinds': seq<Kind>, buf': seq<Float>, strings': map<nat, string>)
    requires col < |kinds|
    ensures kinds' == if val.None? || val.Flt? then kinds[col := FloatKind] else kinds
    ensures buf' == buf + [Number(val)]
    ensures Number(val) == if val.Flt? then val.f
                           else if val.Int? then Finite(val.n as real)
                           else if val == Bool(true) then Finite(1.0)
                           else if val == Bool(false) then Finite(0.0) else NaN
    ensures strings' == if IsText(val) then strings[idx := TextOf(val)] else strings
  {
    kinds', buf', strings' := kinds, buf, strings;
    match val {
      case None =>
        buf' := buf + [NaN];
        kinds' := kinds[col := FloatKind];
      case Bool(b) => buf' := buf + [Finite(if b then 1.0 else 0.0)];
      case Flt(f) =>
        buf' := buf + [f];
        kinds' := kinds[col := FloatKind];
      case Int(n) => buf' := buf + [Finite(n as real)];
      case Str(s) =>
        buf' := buf + [NaN];
        strings' := strings[idx := s];
      case Other(text) =>
        buf' := buf + [NaN];
        strings' := strings[idx := text];
    }
  }

  // ---------- Where a cell lies in the buffer ----------

  lemma {:induction false} TotalLength(rows: seq<seq<Val>>, twoD: bool, w: nat)
    requires forall r | 0 <= r < |rows| :: |rows[r]| <= w
    ensures |EntriesOf(rows, twoD)| <= |rows| * w
    ensures |EntriesOf(rows, twoD)| == |rows| * w <==> forall r | 0 <= r < |rows| :: |rows[r]| == w
  {
    if rows != [] {
      var n := |rows| - 1;
      TotalLength(rows[..n], twoD, w);
      assert |rows| * w == n * w + w;
      assert |rows[n]| <= w;
      assert forall r | 0 <= r < n :: rows[..n][r] == rows[r];
    }
  }

  /** Where row r begins. */
  function Offset(rows: seq<seq<Val>>, r: nat): nat
    requires r <= |rows|
  {
    |EntriesOf(rows[..r], true)|
  }

  lemma OffsetStep(rows: seq<seq<Val>>, r: nat)
    requires r < |rows|
    ensures Offset(rows, r + 1) == Offset(rows, r) + |rows[r]|
  {
    assert rows[..r + 1][..r] == rows[..r];
  }

  lemma {:induction false} EntryAt(rows: seq<seq<Val>>, r: nat, c: nat)
    requires r < |rows| && c < |rows[r]|
    ensures Offset(rows, r) + c < |EntriesOf(rows, true)|
    ensures EntriesOf(rows, true)[Offset(rows, r) + c] == (c, rows[r][c])
  {
    var n := |rows| - 1;
    if r < n {
      assert rows[..n][..r] == rows[..r];
      EntryAt(rows[..n], r, c);
    }
  }

  /** Every packed position belongs to a cell of some row. */
  lemma {:induction false} Locate(rows: seq<seq<Val>>, i: nat) returns (r: nat, c: nat)
    requires i < |EntriesOf(rows, true)|
    ensures r < |rows| && c < |rows[r]| && i == Offset(rows, r) + c
  {
    var n := |rows| - 1;
    if i < |EntriesOf(rows[..n], true)| {
      r, c := Locate(rows[..n], i);
      assert rows[..n][..r] == rows[..r];
    } else {
      r, c := n, i - |EntriesOf(rows[..n], true)|;
    }
  }

  /** Rows that come before a row with cells are as long as the longest. */
  ghost predicate FullBeforeLast(g: Grid) {
    g.Rows? ==> forall r, s | 0 <= r < s < |g.rows| && g.rows[s] != [] :: |g.rows[r]| == MaxLength(g.rows)
  }

  /** Behind full rows a row begins at a multiple of the width. */
  lemma {:induction false} FullOffset(rows: seq<seq<Val>>, w: nat, r: nat)
    requires r <= |rows| && forall k | 0 <= k < r :: |rows[k]| == w
    ensures Offset(rows, r) == r * w
  {
    if r > 0 {
      FullOffset(rows, w, r - 1);
      OffsetStep(rows, r - 1);
      assert r * w == (r - 1) * w + w;
    }
  }

  lemma {:induction false} OffsetGrows(rows: seq<seq<Val>>, r: nat, s: nat)
    requires r <= s <= |rows|
    ensures Offset(rows, r) <= Offset(rows, s)
    decreases s - r
  {
    if r < s {
      OffsetStep(rows, s - 1);
      OffsetGrows(rows, r, s - 1);
    }
  }

  // ---------- The normal form ----------

  /** A cell of a column that holds, or does not hold, a float or None. */
  function Normal(v: Val, inFloatColumn: bool): Val {
    match v
    case None => None
    case Bool(b) => if inFloatColumn then Flt(Finite(if b then 1.0 else 0.0)) else Int(if b then 1 else 0)
    case Int(n) => if inFloatColumn then Flt(Finite(n as real)) else Int(n)
    case Flt(f) => if f.NaN? then None else Flt(f)
    case Str(s) => Str(s)
    case Other(text) => Str(text)
  }

  ghost function NormalRow(row: seq<Val>, twoD: bool, entries: seq<(nat, Val)>): seq<Val> {
    seq(|row|, c requires 0 <= c < |row| => Normal(row[c], FloatIn(entries, if twoD then c else 0)))
  }

  ghost function NormalRows(rows: seq<seq<Val>>, twoD: bool, entries: seq<(nat, Val)>): seq<seq<Val>> {
    seq(|rows|, r requires 0 <= r < |rows| => NormalRow(rows[r], twoD, entries))
  }

  /** The same rows, with every cell as its column makes it. */
  ghost function NormalForm(g: Grid): Grid {
    if g.Flat? then Flat(NormalRow(g.cells, false, Entries(g)))
    else if g.rows == [] then Flat([])
    else Rows(NormalRows(g.rows, true, Entries(g)))
  }

  /** All integers are such as a double holds exactly. */
  ghost predicate ExactInts(g: Grid) {
    forall i | 0 <= i < |Entries(g)| && Entries(g)[i].1.Int? :: -EXACT_LIMIT <= Entries(g)[i].1.n <= EXACT_LIMIT
  }

  ghost function NormalEntry(entries: seq<(nat, Val)>, i: nat): Val
    requires i < |entries|
  {
    Normal(entries[i].1, FloatIn(entries, entries[i].0))
  }

  lemma TruncateOfInt(n: int)
    ensures Truncate(n as real) == n
  {
  }

  lemma PackedFits(e: Envelope, g: Grid)
    requires Packs(e, g)
    ensures KindsFit(e) && StringsInside(e)
  {
    if g.Rows? && MaxLength(g.rows) == 0 {
      forall r | 0 <= r < |g.rows| ensures |g.rows[r]| <= 0 {
        RowIsAtMostMax(g.rows, r);
      }
      TotalLength(g.rows, true, 0);
    }
  }

  /** A position that the unpackers take for its cell's own column gives the cell's normal form. */
  lemma PositionIsNormal(e: Envelope, g: Grid, i: nat)
    requires Packs(e, g) && ExactInts(g) && i < |e.buffer|
    requires Entries(g)[i].0 == ColumnOf(e.shape, i)
    ensures Cell(e, i) == NormalEntry(Entries(g), i)
    ensures IntAt(e, i) ==> !Unfit(e.buffer[i])
  {
    PackedFits(e, g);
    ColumnInRange(e, i);
    FirstIsNotNone(g);
    var v := Entries(g)[i].1;
    if v.Int? {
      TruncateOfInt(v.n);
    }
  }

  lemma FirstIsNotNone(g: Grid)
    ensures Entries(g) != [] ==> RowList(g) != [] && g != Flat([])
  {
    assert EntriesOf([], g.Rows?) == [];
    assert g == Flat([]) ==> EntriesOf([[]], false) == [] by {
      assert EntriesOf([[]][..0], false) == [];
    }
  }

  // ---------- The loops on a packed grid ----------

  lemma FlatEntries(cells: seq<Val>)
    ensures Entries(Flat(cells)) == RowEntries(cells, false)
  {
    assert [cells][..0] == [] && EntriesOf([], false) == [];
    assert [] + RowEntries(cells, false) == RowEntries(cells, false);
  }

  /** A list comes back in its normal form. */
  lemma FlatRoundTrip(e: Envelope, g: Grid)
    requires Packs(e, g) && ExactInts(g) && g.Flat?
    ensures LoopResult(e) == Ok(NormalForm(g)) && NumpyResult(e) == Ok(NormalForm(g))
  {
    FlatEntries(g.cells);
    forall i | 0 <= i < |e.buffer|
      ensures Cell(e, i) == NormalForm(g).cells[i] && (IntAt(e, i) ==> !Unfit(e.buffer[i]))
    {
      PositionIsNormal(e, g, i);
    }
    assert Cells(e) == NormalForm(g).cells;
    assert Imposed(e).shape == OneD(|e.buffer|);
  }

  /** With full rows in front, every position is taken for its cell's own column. */
  lemma ColumnsAlign(rows: seq<seq<Val>>, w: nat, i: nat, r: nat, c: nat)
    requires i < |EntriesOf(rows, true)| && r < |rows| && c < |rows[r]| <= w && i == Offset(rows, r) + c
    requires forall k | 0 <= k < r :: |rows[k]| == w
    ensures EntriesOf(rows, true)[i] == (c, rows[r][c]) && i % w == c
  {
    FullOffset(rows, w, r);
    EntryAt(rows, r, c);
    Position(r, c, w);
  }

  /** With full rows in front, the slice of row r is where that row was packed. */
  lemma SliceIsRow(rows: seq<seq<Val>>, w: nat, r: nat)
    requires r < |rows| && forall k | 0 <= k < |rows| :: |rows[k]| <= w
    requires forall k, s | 0 <= k < s < |rows| && rows[s] != [] :: |rows[k]| == w
    ensures var total := |EntriesOf(rows, true)|;
            if rows[r] == [] then total <= r * w || w == 0
            else r * w == Offset(rows, r) && (r + 1) * w == r * w + w
                 && (if (r + 1) * w < total then (r + 1) * w else total) == r * w + |rows[r]|
  {
    assert (r + 1) * w == r * w + w;
    if rows[r] == [] {
      EmptyRowIsBehind(rows, w, r);
    } else {
      FullOffset(rows, w, r);
      OffsetStep(rows, r);
      RowsBehind(rows, w, r);
    }
  }

  /** Behind a short row nothing was packed. */
  lemma {:induction false} NothingBehind(rows: seq<seq<Val>>, r: nat, s: nat)
    requires r <= s <= |rows| && forall k | r <= k < s :: rows[k] == []
    ensures Offset(rows, s) == Offset(rows, r)
    decreases s - r
  {
    if r < s {
      OffsetStep(rows, s - 1);
      NothingBehind(rows, r, s - 1);
    }
  }

  lemma RowsBehind(rows: seq<seq<Val>>, w: nat, r: nat)
    requires r < |rows| && rows[r] != [] && forall k | 0 <= k < |rows| :: |rows[k]| <= w
    requires forall k, s | 0 <= k < s < |rows| && rows[s] != [] :: |rows[k]| == w
    ensures Offset(rows, r + 1) <= |EntriesOf(rows, true)|
    ensures |rows[r]| < w ==> Offset(rows, r + 1) == |EntriesOf(rows, true)|
  {
    assert rows[..|rows|] == rows;
    OffsetGrows(rows, r + 1, |rows|);
    if |rows[r]| < w {
      NothingBehind(rows, r + 1, |rows|);
    }
  }

  lemma EmptyRowIsBehind(rows: seq<seq<Val>>, w: nat, r: nat)
    requires r < |rows| && rows[r] == [] && forall k | 0 <= k < |rows| :: |rows[k]| <= w
    requires w > 0 ==> forall k | r <= k < |rows| :: rows[k] == []
    ensures |EntriesOf(rows, true)| <= r * w || w == 0
  {
    if w > 0 {
      NothingBehind(rows, r, |rows|);
      assert rows[..|rows|] == rows;
      TotalLength(rows[..r], true, w);
    }
  }

  lemma PositionsAreNormal(e: Envelope, g: Grid)
    requires Packs(e, g) && ExactInts(g) && g.Rows? && g.rows != [] && FullBeforeLast(g)
    ensures forall i | 0 <= i < |e.buffer| ::
              Cell(e, i) == NormalEntry(Entries(g), i) && (IntAt(e, i) ==> !Unfit(e.buffer[i]))
  {
    PackedFits(e, g);
    forall i | 0 <= i < |e.buffer|
      ensures Cell(e, i) == NormalEntry(Entries(g), i) && (IntAt(e, i) ==> !Unfit(e.buffer[i]))
    {
      var k, c := Locate(g.rows, i);
      RowIsAtMostMax(g.rows, k);
      ColumnsAlign(g.rows, MaxLength(g.rows), i, k, c);
      PositionIsNormal(e, g, i);
    }
  }

  lemma RowComesBack(e: Envelope, g: Grid, k: nat)
    requires Packs(e, g) && ExactInts(g) && g.Rows? && k < |g.rows| && FullBeforeLast(g)
    ensures var w := MaxLength(g.rows);
            Slice(Cells(e), k * w, (k + 1) * w) == NormalRow(g.rows[k], true, Entries(g))
  {
    var w := MaxLength(g.rows);
    forall j | 0 <= j < |g.rows| ensures |g.rows[j]| <= w {
      RowIsAtMostMax(g.rows, j);
    }
    SliceIsRow(g.rows, w, k);
    if g.rows[k] != [] {
      PositionsAreNormal(e, g);
      FilledRowComesBack(e, g, k, k * w, (k + 1) * w);
    }
  }

  lemma FilledRowComesBack(e: Envelope, g: Grid, k: nat, lo: nat, hi: nat)
    requires g.Rows? && k < |g.rows| && |e.buffer| == |Entries(g)| && lo == Offset(g.rows, k)
    requires forall i | 0 <= i < |e.buffer| :: Cell(e, i) == NormalEntry(Entries(g), i)
    requires lo + |g.rows[k]| == (if hi < |e.buffer| then hi else |e.buffer|)
    ensures Slice(Cells(e), lo, hi) == NormalRow(g.rows[k], true, Entries(g))
  {
    var row := g.rows[k];
    forall c | 0 <= c < |row| ensures Cells(e)[lo + c] == NormalRow(row, true, Entries(g))[c] {
      EntryAt(g.rows, k, c);
    }
    SliceIs(Cells(e), lo, hi, NormalRow(row, true, Entries(g)));
  }

  lemma SliceIs(cells: seq<Val>, lo: nat, hi: nat, part: seq<Val>)
    requires lo + |part| == (if hi < |cells| then hi else |cells|)
    requires forall c | 0 <= c < |part| :: cells[lo + c] == part[c]
    ensures Slice(cells, lo, hi) == part
  {
  }

  lemma RowsComeBack(e: Envelope, g: Grid)
    requires Packs(e, g) && ExactInts(g) && g.Rows? && FullBeforeLast(g)
    ensures LoopResult(e) == Ok(NormalForm(g))
  {
    if g.rows == [] {
      FirstIsNotNone(g);
      assert e.buffer == [] && Cells(e) == [];
    } else {
      PositionsAreNormal(e, g);
      assert !HasBareInfinity(e);
      assert Chunked(e.shape, Cells(e)).Rows? && |Chunked(e.shape, Cells(e)).rows| == |NormalForm(g).rows|;
      forall k | 0 <= k < |g.rows| ensures Chunked(e.shape, Cells(e)).rows[k] == NormalForm(g).rows[k] {
        RowComesBack(e, g, k);
      }
    }
  }

  /** A short row with cells behind it: the slices cannot have the lengths of the rows. */
  lemma ShortRowIsFilledUp(cells: seq<Val>, w: nat, rows: seq<seq<Val>>, k: nat, s: nat)
    requires k < s < |rows| && |rows[k]| < w && rows[s] != []
    requires |Slice(cells, k * w, (k + 1) * w)| == |rows[k]|
    ensures |Slice(cells, s * w, (s + 1) * w)| != |rows[s]|
  {
    Multiples(k, s, w);
    ShortSlice(cells, k * w, (k + 1) * w);
  }

  lemma Multiples(k: nat, s: nat, w: nat)
    requires k < s
    ensures (k + 1) * w == k * w + w <= s * w
  {
    assert s * w == (k + 1) * w + (s - k - 1) * w;
    assert (s - k - 1) * w >= 0;
  }

  lemma ShortSlice(cells: seq<Val>, lo: nat, hi: nat)
    requires lo <= hi && |Slice(cells, lo, hi)| < hi - lo
    ensures forall from: nat, to: nat | hi <= from :: Slice(cells, from, to) == []
  {
  }

  /** The loops give back the normal form of a packed grid exactly if no row that is shorter than the
      longest has cells behind it. */
  lemma LoopsRoundTripExactly(e: Envelope, g: Grid)
    requires Packs(e, g) && ExactInts(g)
    ensures KindsFit(e)
    ensures LoopResult(e) == Ok(NormalForm(g)) <==> FullBeforeLast(g)
  {
    PackedFits(e, g);
    if g.Flat? {
      FlatRoundTrip(e, g);
    } else if FullBeforeLast(g) {
      RowsComeBack(e, g);
    } else {
      ShortRowsDoNotComeBack(e, g);
    }
  }

  lemma ShortRowsDoNotComeBack(e: Envelope, g: Grid)
    requires Packs(e, g) && !FullBeforeLast(g)
    ensures LoopResult(e) != Ok(NormalForm(g))
  {
    var w := MaxLength(g.rows);
    var k, s :| 0 <= k < s < |g.rows| && g.rows[s] != [] && |g.rows[k]| != w;
    RowIsAtMostMax(g.rows, k);
    var back := ChunksOfOtherLengths(Cells(e), w, g.rows, k, s);
    var r := if |back.rows[k]| != |g.rows[k]| then k else s;
    assert |back.rows[r]| != |NormalForm(g).rows[r]|;
  }

  lemma ChunksOfOtherLengths(cells: seq<Val>, w: nat, rows: seq<seq<Val>>, k: nat, s: nat) returns (back: Grid)
    requires k < s < |rows| && |rows[k]| < w && rows[s] != []
    ensures back == Chunked(TwoD(|rows|, w), cells) && back.Rows? && |back.rows| == |rows|
    ensures |back.rows[k]| != |rows[k]| || |back.rows[s]| != |rows[s]|
  {
    back := Chunked(TwoD(|rows|, w), cells);
    if |back.rows[k]| == |rows[k]| {
      ShortRowIsFilledUp(cells, w, rows, k, s);
    }
  }

  lemma ShapeIsFilledIfRectangular(e: Envelope, g: Grid)
    requires Packs(e, g)
    ensures |e.buffer| == Size(Imposed(e).shape) <==> Rectangular(g)
  {
    if g.Rows? && g.rows != [] {
      forall k | 0 <= k < |g.rows| ensures |g.rows[k]| <= MaxLength(g.rows) {
        RowIsAtMostMax(g.rows, k);
      }
      TotalLength(g.rows, true, MaxLength(g.rows));
    }
  }

  /** The vectorised form gives back the normal form of a packed grid exactly if all rows are equally
      long, and else raises at the reshape. */
  lemma NumpyRoundTripsExactly(e: Envelope, g: Grid)
    requires Packs(e, g) && ExactInts(g)
    ensures KindsFit(e) && StringsInside(e)
    ensures NumpyResult(e) == if Rectangular(g) then Ok(NormalForm(g)) else ReshapeError
  {
    PackedFits(e, g);
    ShapeIsFilledIfRectangular(e, g);
    if g.Flat? {
      FlatRoundTrip(e, g);
    } else if Rectangular(g) {
      LoopsRoundTripExactly(e, g);
      UnpackersAgreeExactlyWhen(e);
      if g.rows != [] {
        PositionsAreNormal(e, g);
      }
    }
  }

  /** The grid [[1, 2], [3]] comes back from the loops and makes the vectorised form raise. */
  lemma RaggedComesBack(e: Envelope)
    requires Packs(e, Rows([[Int(1), Int(2)], [Int(3)]]))
    ensures LoopResult(e) == Ok(Rows([[Int(1), Int(2)], [Int(3)]])) && NumpyResult(e) == ReshapeError
  {
    var a, b := [Int(1), Int(2)], [Int(3)];
    SmallEntries(a, b);
    LoopsRoundTripExactly(e, Rows([a, b]));
    NumpyRoundTripsExactly(e, Rows([a, b]));
    IntRowIsNormal(a, Entries(Rows([a, b])));
    IntRowIsNormal(b, Entries(Rows([a, b])));
    assert NormalRows([a, b], true, Entries(Rows([a, b]))) == [a, b];
  }

  /** The grid [[3], [1, 2]] comes back from none. */
  lemma RaggedDoesNot(e: Envelope)
    requires Packs(e, Rows([[Int(3)], [Int(1), Int(2)]]))
    ensures LoopResult(e) != Ok(NormalForm(Rows([[Int(3)], [Int(1), Int(2)]]))) && NumpyResult(e) == ReshapeError
  {
    var a, b := [Int(1), Int(2)], [Int(3)];
    SmallEntries(b, a);
    LoopsRoundTripExactly(e, Rows([b, a]));
    NumpyRoundTripsExactly(e, Rows([b, a]));
    assert [b, a][0] == b && [b, a][1] == a;
  }

  lemma IntRowIsNormal(row: seq<Val>, entries: seq<(nat, Val)>)
    requires forall i | 0 <= i < |row| :: row[i].Int?
    requires forall i | 0 <= i < |entries| :: entries[i].1.Int?
    ensures NormalRow(row, true, entries) == row
  {
  }

  lemma SmallEntries(a: seq<Val>, b: seq<Val>)
    ensures MaxLength([a, b]) == if |b| > |a| then |b| else |a|
    ensures Entries(Rows([a, b])) == RowEntries(a, true) + RowEntries(b, true)
  {
    var one, none: seq<seq<Val>> := [a], [];
    assert [a, b][..1] == one && one[..0] == none;
    assert MaxLength(one) == |a|;
    assert EntriesOf(none, true) == [];
    assert EntriesOf(one, true) == RowEntries(a, true);
  }

  // ---------- What becomes of each cell ----------

  /** Some cell of the column is None or a float. */
  ghost predicate HasFloat(g: Grid, c: nat) {
    if g.Flat? then c == 0 && exists i :: 0 <= i < |g.cells| && (g.cells[i].None? || g.cells[i].Flt?)
    else exists r :: 0 <= r < |g.rows| && c < |g.rows[r]| && (g.rows[r][c].None? || g.rows[r][c].Flt?)
  }

  lemma FloatColumn(g: Grid, c: nat)
    ensures FloatIn(Entries(g), c) <==> HasFloat(g, c)
  {
    if g.Flat? {
      FlatEntries(g.cells);
      assert forall i | 0 <= i < |g.cells| :: Entries(g)[i] == (0, g.cells[i]);
    } else {
      if i :| 0 <= i < |Entries(g)| && Entries(g)[i].0 == c && MakesFloat(Entries(g)[i].1) {
        var r, k := Locate(g.rows, i);
        EntryAt(g.rows, r, k);
      }
      if r :| 0 <= r < |g.rows| && c < |g.rows[r]| && (g.rows[r][c].None? || g.rows[r][c].Flt?) {
        EntryAt(g.rows, r, c);
        assert Entries(g)[Offset(g.rows, r) + c] == (c, g.rows[r][c]);
      }
    }
  }

  /** `back` is what v comes back as, from a column that holds a float or None, or from one that does not. */
  ghost predicate IsBack(v: Val, back: Val, float: bool) {
    && (v.None? ==> back.None?)
    && (v == Bool(true) ==> back == if float then Flt(Finite(1.0)) else Int(1))
    && (v == Bool(false) ==> back == if float then Flt(Finite(0.0)) else Int(0))
    && (v.Int? ==> back == if float then Flt(Finite(v.n as real)) else v)
    && (v.Flt? ==> back == if v.f.NaN? then None else v)
    && (v.Str? ==> back == v)
    && (v.Other? ==> back == Str(v.text))
  }

  ghost predicate RowIsBack(g: Grid, row: seq<Val>, back: seq<Val>) {
    |back| == |row| && forall c | 0 <= c < |row| :: IsBack(row[c], back[c], HasFloat(g, if g.Rows? then c else 0))
  }

  /** Every cell is back at its place; an empty list of rows has become an empty list. */
  ghost predicate IsGridBack(g: Grid, back: Grid) {
    if g.Flat? then back.Flat? && RowIsBack(g, g.cells, back.cells)
    else if g.rows == [] then back == Flat([])
    else back.Rows? && |back.rows| == |g.rows| && forall r | 0 <= r < |g.rows| :: RowIsBack(g, g.rows[r], back.rows[r])
  }

  lemma NormalRowIsBack(g: Grid, row: seq<Val>, back: seq<Val>)
    ensures RowIsBack(g, row, back) <==> back == NormalRow(row, g.Rows?, Entries(g))
  {
    forall c: nat ensures FloatIn(Entries(g), c) <==> HasFloat(g, c) {
      FloatColumn(g, c);
    }
    var normal := NormalRow(row, g.Rows?, Entries(g));
    if |back| == |row| {
      forall c | 0 <= c < |row|
        ensures IsBack(row[c], back[c], HasFloat(g, if g.Rows? then c else 0)) <==> back[c] == normal[c]
      {
      }
    }
  }

  /** The normal form is the grid with every cell back, and no other grid is. */
  lemma NormalFormIsBack(g: Grid, back: Grid)
    ensures IsGridBack(g, back) <==> back == NormalForm(g)
  {
    if g.Flat? && back.Flat? {
      NormalRowIsBack(g, g.cells, back.cells);
    } else if g.Rows? && g.rows != [] && back.Rows? && |back.rows| == |g.rows| {
      forall r | 0 <= r < |g.rows|
        ensures RowIsBack(g, g.rows[r], back.rows[r]) <==> back.rows[r] == NormalForm(g).rows[r]
      {
        NormalRowIsBack(g, g.rows[r], back.rows[r]);
      }
    }
  }

  // ---------- A second trip ----------

  lemma {:induction false} NormalRowsEntries(rows: seq<seq<Val>>, twoD: bool, entries: seq<(nat, Val)>)
    ensures var normal := EntriesOf(NormalRows(rows, twoD, entries), twoD);
            && |normal| == |EntriesOf(rows, twoD)|
            && forall i | 0 <= i < |normal| ::
                 normal[i] == (EntriesOf(rows, twoD)[i].0,
                               Normal(EntriesOf(rows, twoD)[i].1, FloatIn(entries, EntriesOf(rows, twoD)[i].0)))
  {
    if rows != [] {
      var n := |rows| - 1;
      NormalRowsEntries(rows[..n], twoD, entries);
      assert NormalRows(rows, twoD, entries)[..n] == NormalRows(rows[..n], twoD, entries);
    }
  }

  /** The normal form has the same cells at the same places, each as its column makes it. */
  lemma NormalFormEntries(g: Grid)
    ensures var e, n := Entries(g), Entries(NormalForm(g));
            |n| == |e| && forall i | 0 <= i < |n| :: n[i] == (e[i].0, NormalEntry(e, i))
  {
    NormalRowsEntries(RowList(g), g.Rows?, Entries(g));
    if g.Flat? {
      assert RowList(NormalForm(g)) == NormalRows(RowList(g), false, Entries(g));
    } else if g.rows == [] {
      FirstIsNotNone(g);
      FirstIsNotNone(NormalForm(g));
    }
  }

  lemma SameFloatColumns(g: Grid, c: nat)
    ensures FloatIn(Entries(NormalForm(g)), c) <==> FloatIn(Entries(g), c)
  {
    NormalFormEntries(g);
    var e, n := Entries(g), Entries(NormalForm(g));
    if i :| 0 <= i < |e| && e[i].0 == c && MakesFloat(e[i].1) {
      assert n[i].0 == c && MakesFloat(n[i].1);
    }
    if i :| 0 <= i < |n| && n[i].0 == c && MakesFloat(n[i].1) {
      assert n[i] == (e[i].0, NormalEntry(e, i));
      assert FloatIn(e, e[i].0);
    }
  }

  lemma NormalTwice(row: seq<Val>, twoD: bool, e: seq<(nat, Val)>, n: seq<(nat, Val)>)
    requires forall c: nat :: FloatIn(n, c) <==> FloatIn(e, c)
    ensures NormalRow(NormalRow(row, twoD, e), twoD, n) == NormalRow(row, twoD, e)
  {
  }

  /** A second round trip changes nothing. */
  lemma NormalFormIsIdempotent(g: Grid)
    ensures NormalForm(NormalForm(g)) == NormalForm(g)
  {
    var e, n := Entries(g), Entries(NormalForm(g));
    forall c: nat ensures FloatIn(n, c) <==> FloatIn(e, c) {
      SameFloatColumns(g, c);
    }
    if g.Flat? {
      NormalTwice(g.cells, false, e, n);
    } else {
      forall r | 0 <= r < |g.rows|
        ensures NormalRow(NormalRow(g.rows[r], true, e), true, n) == NormalRow(g.rows[r], true, e)
      {
        NormalTwice(g.rows[r], true, e, n);
      }
      assert NormalRows(NormalRows(g.rows, true, e), true, n) == NormalRows(g.rows, true, e);
    }
  }

  lemma NormalFormStaysExact(g: Grid)
    requires ExactInts(g)
    ensures ExactInts(NormalForm(g))
  {
    NormalFormEntries(g);
    var e, n := Entries(g), Entries(NormalForm(g));
    forall i | 0 <= i < |n| && n[i].1.Int? ensures -EXACT_LIMIT <= n[i].1.n <= EXACT_LIMIT {
      assert n[i] == (e[i].0, NormalEntry(e, i));
    }
  }

  lemma {:induction false} NormalRowsMax(rows: seq<seq<Val>>, twoD: bool, entries: seq<(nat, Val)>)
    ensures MaxLength(NormalRows(rows, twoD, entries)) == MaxLength(rows)
  {
    if rows != [] {
      var n := |rows| - 1;
      NormalRowsMax(rows[..n], twoD, entries);
      assert NormalRows(rows, twoD, entries)[..n] == NormalRows(rows[..n], twoD, entries);
    }
  }

  lemma NormalFormStaysEven(g: Grid)
    ensures Rectangular(NormalForm(g)) <==> Rectangular(g)
    ensures FullBeforeLast(NormalForm(g)) <==> FullBeforeLast(g)
  {
    if g.Rows? && g.rows != [] {
      NormalRowsMax(g.rows, true, Entries(g));
      var rows := NormalForm(g).rows;
      assert forall r | 0 <= r < |g.rows| :: |rows[r]| == |g.rows[r]|;
    }
  }

  /** One trip, for a grid whose integers doubles hold exactly. */
  method PackAndUnpack(g: Grid) returns (current: Result, cycle: Result, numpy: Result)
    requires ExactInts(g)
    ensures current == cycle && (current == Ok(NormalForm(g)) <==> FullBeforeLast(g))
    ensures numpy == if Rectangular(g) then Ok(NormalForm(g)) else ReshapeError
    ensures FullBeforeLast(g) ==> IsGridBack(g, current.grid)
  {
    NormalFormIsBack(g, NormalForm(g));
    var e := MockPack(g);
    LoopsRoundTripExactly(e, g);
    NumpyRoundTripsExactly(e, g);
    current := UnpackCurrent(e);
    cycle := UnpackCycle(e);
    numpy := UnpackNumpy(e);
  }

  /** For grids that come back at all: what comes back, sent on a second trip, comes back unchanged. */
  method SecondTrip(g: Grid) returns (once: Result, current: Result, cycle: Result, numpy: Result)
    requires ExactInts(g) && FullBeforeLast(g)
    ensures once == current == cycle == Ok(NormalForm(g))
    ensures numpy == if Rectangular(g) then once else ReshapeError
  {
    NormalFormStaysExact(g);
    NormalFormStaysEven(g);
    NormalFormIsIdempotent(g);
    once, current, numpy := PackAndUnpack(g);
    current, cycle, numpy := PackAndUnpack(once.grid);
  }
}
