/** A1 references: how scripts/generate_serialization_spreadsheet.py writes them, and, on its
    own, how a spreadsheet reads them. */
module A1Notation {
  import opened Strings

  // ---------- Reading ----------

  /** A cell: 1-based row, 0-based column. */
  datatype Ref = Ref(row: nat, col: int)

  predicate IsLetter(c: char) { 'A' <= c <= 'Z' }

  /** The number of letters that a text begins with. */
  function LetterCount(s: string): (n: nat)
    ensures n <= |s|
  {
    if s != "" && IsLetter(s[0]) then 1 + LetterCount(s[1..]) else 0
  }

  /** Letters as a number in which A to Z are the digits 1 to 26. */
  function ColumnNumber(letters: string): int {
    if letters == "" then 0
    else 26 * ColumnNumber(letters[..|letters| - 1]) + (letters[|letters| - 1] as int - 'A' as int + 1)
  }

  function ReadRef(s: string): Ref {
    var k := LetterCount(s);
    var row := NumberOf(s[k..]);
    Ref(if row < 0 then 0 else row, ColumnNumber(s[..k]) - 1)
  }

  function ColonAt(s: string): (k: nat)
    ensures k <= |s|
  {
    if s == "" || s[0] == ':' then 0 else 1 + ColonAt(s[1..])
  }

  /** The cells that a reference or a range of two references denotes. */
  predicate Denotes(s: string, row: int, col: int) {
    var k := ColonAt(s);
    var first := ReadRef(s[..k]);
    var last := if k < |s| then ReadRef(s[k + 1..]) else first;
    first.row <= row <= last.row && first.col <= col <= last.col
  }

  // ---------- Writing ----------

  /** The code points that calc_col_letter puts together. */
  function ColumnCodes(col: nat): seq<int> {
    if col < 26 then ['A' as int + col]
    else ['A' as int + col / 26 - 1, 'A' as int + col % 26]
  }

  predicate AllLetters(codes: seq<int>) {
    forall x | x in codes :: 'A' as int <= x <= 'Z' as int
  }

  /** The column scheme of calc_col_letter ends with ZZ: it gives letters exactly up to there. */
  lemma ColumnLettersExactlyBelow702(col: nat)
    ensures AllLetters(ColumnCodes(col)) <==> col < 702
  {
    if 26 <= col {
      assert ColumnCodes(col)[0] in ColumnCodes(col) && ColumnCodes(col)[1] in ColumnCodes(col);
    }
  }

  /** Further right the code points run into those that a text cannot hold; no spreadsheet is as wide. */
  const MAX_COLUMNS := 1_436_000

  function CalcColLetter(col: nat): string
    requires col < MAX_COLUMNS
  {
    if col < 26 then [('A' as int + col) as char]
    else [('A' as int + col / 26 - 1) as char, ('A' as int + col % 26) as char]
  }

  /** The first column that is not reached. */
  lemma Column702IsNoName()
    ensures CalcColLetter(701) == "ZZ" && CalcColLetter(702) == "[A"
  {
    assert 'A' as int + 702 / 26 - 1 == '[' as int && 'A' as int + 702 % 26 == 'A' as int;
    assert 'A' as int + 701 / 26 - 1 == 'Z' as int && 'A' as int + 701 % 26 == 'Z' as int;
  }

  /** data_range_a1: its four forms. */
  function DataRangeA1(top: nat, nrows: int, ncols: int, start: nat): string
    requires ncols > 0 ==> start + ncols <= MAX_COLUMNS
  {
    if nrows <= 0 || ncols <= 0 then ""
    else
      var left, right := CalcColLetter(start), CalcColLetter(start + ncols - 1);
      if nrows == 1 && ncols == 1 then left + Decimal(top)
      else if nrows == 1 then left + Decimal(top) + ":" + right + Decimal(top)
      else if ncols == 1 then left + Decimal(top) + ":" + left + Decimal(top + nrows - 1)
      else left + Decimal(top) + ":" + right + Decimal(top + nrows - 1)
  }

  // ---------- What is written is what is read ----------

  /** A single cell is written as one reference, anything larger as two. */
  lemma OnlyOneCellIsAlone(top: nat, nrows: int, ncols: int, start: nat)
    requires nrows > 0 && ncols > 0 && start + ncols <= 702
    ensures ':' in DataRangeA1(top, nrows, ncols, start) <==> nrows > 1 || ncols > 1
  {
    RefReads(start, top);
    var s := DataRangeA1(top, nrows, ncols, start);
    if nrows > 1 || ncols > 1 {
      var first := CalcColLetter(start) + Decimal(top);
      assert s[|first|] == ':';
    }
  }

  lemma LettersRead(col: nat)
    requires col < 702
    ensures ColumnNumber(CalcColLetter(col)) == col + 1
    ensures forall c | c in CalcColLetter(col) :: IsLetter(c)
  {
    var s := CalcColLetter(col);
    if col < 26 {
      assert s[..0] == "";
    } else {
      assert s[..1] == [s[0]] && [s[0]][..0] == "";
      assert ColumnNumber([s[0]]) == 26 * ColumnNumber("") + (s[0] as int - 'A' as int + 1);
    }
  }

  lemma {:induction false} LetterCountOf(letters: string, rest: string)
    requires forall c | c in letters :: IsLetter(c)
    requires rest != "" && !IsLetter(rest[0])
    ensures LetterCount(letters + rest) == |letters|
  {
    if letters == "" {
      assert letters + rest == rest;
    } else {
      assert letters[0] in letters && (letters + rest)[1..] == letters[1..] + rest;
      LetterCountOf(letters[1..], rest);
    }
  }

  lemma RefReads(col: nat, row: nat)
    requires col < 702
    ensures ReadRef(CalcColLetter(col) + Decimal(row)) == Ref(row, col)
    ensures ':' !in CalcColLetter(col) + Decimal(row)
  {
    var a, b := CalcColLetter(col), Decimal(row);
    LettersRead(col);
    DecimalReads(row);
    assert b[0] in b;
    LetterCountOf(a, b);
    assert (a + b)[..|a|] == a && (a + b)[|a|..] == b;
    assert forall c | c in a + b :: c in a || c in b;
  }

  lemma {:induction false} ColonAtOf(a: string, b: string)
    requires ':' !in a
    ensures ColonAt(a + ":" + b) == |a| && ColonAt(a) == |a|
  {
    if a == "" {
      assert a + ":" + b == ":" + b;
    } else {
      assert a[0] in a && (a + ":" + b)[1..] == a[1..] + ":" + b;
      ColonAtOf(a[1..], b);
    }
  }

  lemma PairDenotes(a: string, b: string, row: int, col: int)
    requires ':' !in a
    ensures Denotes(a + ":" + b, row, col)
            <==> ReadRef(a).row <= row <= ReadRef(b).row && ReadRef(a).col <= col <= ReadRef(b).col
    ensures Denotes(a, row, col) <==> row == ReadRef(a).row && col == ReadRef(a).col
  {
    ColonAtOf(a, b);
    assert (a + ":" + b)[..|a|] == a && (a + ":" + b)[|a| + 1..] == b && a[..|a|] == a;
  }

  /** A written range denotes the rectangle it was written for, and nothing else. */
  lemma RangeDenotesRectangle(top: nat, nrows: nat, ncols: nat, start: nat, row: int, col: int)
    requires nrows > 0 && ncols > 0 && start + ncols <= 702
    ensures Denotes(DataRangeA1(top, nrows, ncols, start), row, col)
            <==> top <= row < top + nrows && start <= col < start + ncols
  {
    var a, b := CalcColLetter(start) + Decimal(top), CalcColLetter(start + ncols - 1) + Decimal(top + nrows - 1);
    RefReads(start, top);
    RefReads(start + ncols - 1, top + nrows - 1);
    PairDenotes(a, b, row, col);
    RangeText(top, nrows, ncols, start);
  }

  lemma RangeText(top: nat, nrows: nat, ncols: nat, start: nat)
    requires nrows > 0 && ncols > 0 && start + ncols <= 702
    ensures var a := CalcColLetter(start) + Decimal(top);
            var b := CalcColLetter(start + ncols - 1) + Decimal(top + nrows - 1);
            DataRangeA1(top, nrows, ncols, start) == if nrows == 1 && ncols == 1 then a else a + ":" + b
  {
  }
}
