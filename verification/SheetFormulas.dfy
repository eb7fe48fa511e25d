/** How a spreadsheet reads the `=PYTHON(...)` formulas of the sheet, on its own, and that it reads what
    was meant. */
module SheetFormulas {
  import opened A1Notation
  import opened SheetLayout
  import opened Strings
  import opened Wrappers

  // ---------- Reading ----------

  /** A quoted text, behind its opening quote: what it says, and what comes behind its closing quote. */
  function ReadQuoted(s: string): (string, string) {
    if s == "" then ("", "")
    else if s[0] == '"' then
      if |s| > 1 && s[1] == '"' then var (text, rest) := ReadQuoted(s[2..]); ("\"" + text, rest)
      else ("", s[1..])
    else var (text, rest) := ReadQuoted(s[1..]); ([s[0]] + text, rest)
  }

  function CommaAt(s: string): (k: nat)
    ensures k <= |s|
  {
    if s == "" || s[0] == ',' then 0 else 1 + CommaAt(s[1..])
  }

  /** The arguments of a call, without its brackets. */
  function ReadArguments(s: string): seq<string>
    decreases |s|
  {
    var k := CommaAt(s);
    [s[..k]] + if k < |s| then ReadArguments(s[k + 1..]) else []
  }

  /** The code and the further arguments of a `=PYTHON` formula. */
  function ReadPython(formula: string): (string, seq<string>) {
    if |formula| < 9 then ("", [])
    else
      var (code, rest) := ReadQuoted(formula[9..]);
      (code, if |rest| < 2 then [] else ReadArguments(rest[1..|rest| - 1]))
  }

  // ---------- What is written is what is read ----------

  lemma {:induction false} QuotedReads(text: string, rest: string)
    requires rest == "" || rest[0] != '"'
    ensures ReadQuoted(Doubled(text) + "\"" + rest) == (text, rest)
  {
    var s := Doubled(text) + "\"" + rest;
    if text == "" {
      assert s == "\"" + rest && s[1..] == rest;
    } else {
      QuotedReads(text[1..], rest);
      if text[0] == '"' {
        assert s == "\"\"" + (Doubled(text[1..]) + "\"" + rest);
        assert s[2..] == Doubled(text[1..]) + "\"" + rest;
        assert "\"" + text[1..] == text;
      } else {
        assert s == [text[0]] + (Doubled(text[1..]) + "\"" + rest);
        assert s[1..] == Doubled(text[1..]) + "\"" + rest;
        assert [text[0]] + text[1..] == text;
      }
    }
  }

  lemma {:induction false} CommaBehind(a: string, b: string)
    requires ',' !in a
    ensures CommaAt(a + "," + b) == |a| && CommaAt(a) == |a|
  {
    if a == "" {
      assert a + "," + b == "," + b;
    } else {
      assert a[0] in a && (a + "," + b)[1..] == a[1..] + "," + b;
      CommaBehind(a[1..], b);
    }
  }

  ghost predicate NoCommas(parts: seq<string>) {
    forall i | 0 <= i < |parts| :: ',' !in parts[i]
  }

  lemma OneMoreArgument(first: string, rest: string)
    requires ',' !in first
    ensures ReadArguments(first + "," + rest) == [first] + ReadArguments(rest)
    ensures ReadArguments(first) == [first]
  {
    CommaBehind(first, rest);
    var s := first + "," + rest;
    assert s[..|first|] == first && s[|first| + 1..] == rest;
    assert first[..|first|] == first;
  }

  lemma {:induction false} ArgumentsRead(parts: seq<string>)
    requires parts != [] && NoCommas(parts)
    ensures ReadArguments(Joined(parts)) == parts
  {
    OneMoreArgument(parts[0], Joined(parts[1..]));
    if |parts| == 1 {
      assert parts == [parts[0]];
    } else {
      ArgumentsRead(parts[1..]);
      assert parts == [parts[0]] + parts[1..];
    }
  }

  /** The formula is read as the case's code and the given ranges, or without them for an error case. */
  lemma PythonFormulaReads(c: Case, ranges: seq<string>)
    requires NoCommas(ranges) && forall i | 0 <= i < |ranges| :: ranges[i] != ""
    ensures "=PYTHON(\"" <= PythonFormula(c, ranges)
    ensures ReadPython(PythonFormula(c, ranges)) == (c.code, if c.isError then [] else ranges)
  {
    var f := PythonFormula(c, ranges);
    var bare := c.isError || ranges == [];
    var rest := if bare then ")" else "," + Joined(ranges) + ")";
    assert f == "=PYTHON(\"" + (Doubled(c.code) + "\"" + rest);
    assert f[9..] == Doubled(c.code) + "\"" + rest;
    QuotedReads(c.code, rest);
    if !bare {
      JoinedIsNotEmpty(ranges);
      assert rest[1..|rest| - 1] == Joined(ranges);
      ArgumentsRead(ranges);
    }
  }

  lemma JoinedIsNotEmpty(parts: seq<string>)
    requires parts != [] && parts[0] != ""
    ensures Joined(parts) != ""
  {
  }

  // ---------- The ranges of the sheet ----------

  lemma {:induction false} DigitsOnly(n: nat)
    ensures ',' !in Decimal(n) && Decimal(n) != ""
  {
    DecimalReads(n);
  }

  lemma LettersNoComma(col: nat)
    requires col < MAX_COLUMNS
    ensures ',' !in CalcColLetter(col) && CalcColLetter(col) != ""
  {
  }

  lemma RangeHasNoComma(top: nat, nrows: int, ncols: int, start: nat)
    requires nrows > 0 && ncols > 0 && start + ncols <= MAX_COLUMNS
    ensures ',' !in DataRangeA1(top, nrows, ncols, start) && DataRangeA1(top, nrows, ncols, start) != ""
  {
    LettersNoComma(start);
    LettersNoComma(start + ncols - 1);
    DigitsOnly(top);
    DigitsOnly(top + nrows - 1);
  }

  lemma RangesHaveNoCommas(c: Case, dataTop: nat, n: nat)
    requires Sized(c) && n <= |CaseInputGrids(c)|
    ensures NoCommas(RangesOfFirst(c, dataTop, n))
    ensures forall i | 0 <= i < |RangesOfFirst(c, dataTop, n)| :: RangesOfFirst(c, dataTop, n)[i] != ""
  {
    if n > 0 {
      RangesHaveNoCommas(c, dataTop, n - 1);
      var grid := CaseInputGrids(c)[n - 1];
      if HasCells(grid) {
        RangeHasNoComma(dataTop, |grid|, WidthOf(grid), GroupColStart(n - 1));
      }
    }
  }

  /** The formula in a block's header is read as its case's code, applied to the ranges of exactly its
      groups that have cells. */
  lemma HeaderFormulaReads(cases: seq<Case>, out: seq<Row>, k: nat)
    requires k < |cases| && Sized(cases[k]) && PlacedAt(cases, k, out)
    ensures var c, top := cases[k], Top(cases, k);
            && 0 < top <= |out| && |out[top - 1]| == WIDTH && out[top - 1][COL_PYTHON_FORMULA].Text?
            && ReadPython(out[top - 1][COL_PYTHON_FORMULA].s)
               == (c.code, if c.isError then [] else DataRanges(c, DataTop(c, top)))
  {
    var c, dataTop := cases[k], DataTop(cases[k], Top(cases, k));
    FormulasAreWritten(cases, out, k);
    RangesHaveNoCommas(c, dataTop, |CaseInputGrids(c)|);
    PythonFormulaReads(c, DataRanges(c, dataTop));
  }

  /** The formulas of the oracles for a block whose grids begin in row 6. */
  lemma OracleTexts(c: Case)
    requires |c.gridA| > 1
    ensures CalcOracleFormula(c.(oracle := SUM), ["D6:F7", "I6:J7"], 6) == "=SUM(D6:F7,I6:J7)"
    ensures CalcOracleFormula(c.(oracle := SUM), ["D6:F7"], 6) == "=SUM(D6:F7)"
    ensures CalcOracleFormula(c.(oracle := MAX), ["D6:F7", "I6:J7"], 6) == "=MAX(D6:F7)"
    ensures CalcOracleFormula(c.(oracle := INDEX_FIRST), ["D6:F7"], 6) == "=INDEX(D6:F7,1,1)"
    ensures CalcOracleFormula(c.(oracle := NoOracle), ["D6:F7"], 6) == ExpectedValue(c)
  {
  }

  lemma CellByCellOracleTexts(c: Case)
    ensures CalcOracleFormula(c.(oracle := IDENTITY), ["D6:F7"], 6) == "=INDEX(D6:F7,ROW()-5,COLUMN()-3)"
    ensures CalcOracleFormula(c.(oracle := MULT2), ["D6:F7"], 6) == "=INDEX(D6:F7,ROW()-5,COLUMN()-3)*2"
  {
    assert Decimal(5) == "5" && Decimal(3) == "3";
  }

  /** For a grid of one row, and for a case without cells: the value expected, unless it is an error. */
  lemma OracleTextsOfSmallGrids(c: Case, dataTop: nat)
    requires |c.gridA| == 1 && dataTop > 0
    ensures CalcOracleFormula(c.(oracle := INDEX_FIRST), ["D6:F6"], dataTop) == "=INDEX(D6:F6,1)"
    ensures CalcOracleFormula(c.(expected := Some("3"), isError := false), [], dataTop) == "3"
    ensures CalcOracleFormula(c.(expected := Some("3"), isError := true), [], dataTop) == ""
    ensures CalcOracleFormula(c.(expected := None), [], dataTop) == ""
  {
  }
}
