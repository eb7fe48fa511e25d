/** The rewriting of scripts/fix_bare_underscore_throwaways.py: throwaway `_` bindings on a line
    become `_unused`, `_unused2`, ..., spliced in from right to left. */
module Splice {
  import opened Strings

  datatype Span = Span(start: nat, name: string)

  /** Columns in increasing order without repetition: sorted(set(cols)). */
  function SortedSet(cols: seq<int>): seq<int> {
    if cols == [] then [] else Insert(SortedSet(cols[..|cols| - 1]), cols[|cols| - 1])
  }

  function Insert(sorted: seq<int>, x: int): seq<int> {
    if sorted == [] || x < sorted[0] then [x] + sorted
    else if x == sorted[0] then sorted
    else [sorted[0]] + Insert(sorted[1..], x)
  }

  ghost predicate Increasing(s: seq<int>) {
    forall i, j | 0 <= i < j < |s| :: s[i] < s[j]
  }

  lemma {:induction false} InsertKeepsIncreasing(s: seq<int>, x: int)
    requires Increasing(s)
    ensures Increasing(Insert(s, x)) && forall y :: y in Insert(s, x) <==> y in s || y == x
  {
    if s != [] && x > s[0] {
      InsertKeepsIncreasing(s[1..], x);
      var t := Insert(s[1..], x);
      forall i | 0 <= i < |t| ensures s[0] < t[i] {
        assert t[i] in t;
      }
    }
  }

  lemma {:induction false} SortedSetIsIncreasing(cols: seq<int>)
    ensures Increasing(SortedSet(cols)) && forall y :: y in SortedSet(cols) <==> y in cols
  {
    if cols != [] {
      var front, last := cols[..|cols| - 1], cols[|cols| - 1];
      assert cols == front + [last];
      SortedSetIsIncreasing(front);
      InsertKeepsIncreasing(SortedSet(front), last);
    }
  }

  function Name(n: nat): string {
    if n == 1 then "_unused" else "_unused" + Decimal(n)
  }

  /** Every name begins alike, the first has nothing behind that and the others have their number. */
  lemma NamesAreNumbered(n: nat)
    ensures "_unused" <= Name(n)
    ensures var rest := Name(n)[7..]; if n == 1 then rest == "" else rest != "" && NumberOf(rest) == n
  {
    DecimalReads(n);
    assert n != 1 ==> Name(n)[7..] == Decimal(n);
  }

  lemma NamesDiffer(m: nat, n: nat)
    requires m != n
    ensures Name(m) != Name(n)
  {
    NamesAreNumbered(m);
    NamesAreNumbered(n);
  }

  /** A character that would make `_` part of a longer name. */
  predicate InName(alnum: char -> bool, c: char) {
    alnum(c) || c == '_'
  }

  /** An explicit column is accepted if a bare `_` stands there. */
  predicate Accepts(line: string, alnum: char -> bool, col: int) {
    && 0 <= col < |line| && line[col] == '_'
    && (col + 1 < |line| ==> !InName(alnum, line[col + 1]))
    && (col > 0 ==> !InName(alnum, line[col - 1]))
  }

  /** The column that a sentinel stands for: the first ` as _`, if that `_` is bare; else -1. */
  function AsColumn(line: string, alnum: char -> bool): int {
    var idx := Find(line, " as _", 0);
    if idx < 0 then -1
    else if idx + 5 == |line| || !InName(alnum, line[idx + 5]) then idx + 4
    else -1
  }

  /** The span for the n-th column, if there is one. */
  function SpanFor(line: string, alnum: char -> bool, col: int, n: nat): seq<Span> {
    if col < 0 then
      if AsColumn(line, alnum) < 0 then [] else [Span(AsColumn(line, alnum), Name(n))]
    else if Accepts(line, alnum, col) then [Span(col, Name(n))] else []
  }

  /** The spans for the first n columns; rejected columns use up their number. */
  function SpansOf(line: string, alnum: char -> bool, cols: seq<int>, n: nat): seq<Span>
    requires n <= |cols|
  {
    if n == 0 then [] else SpansOf(line, alnum, cols, n - 1) + SpanFor(line, alnum, cols[n - 1], n)
  }

  /** sorted(spans, key=start, reverse=True), which is stable. */
  function SortDown(spans: seq<Span>): seq<Span> {
    if spans == [] then [] else InsertDown(SortDown(spans[..|spans| - 1]), spans[|spans| - 1])
  }

  function InsertDown(down: seq<Span>, x: Span): seq<Span> {
    if down == [] || down[0].start < x.start then [x] + down
    else [down[0]] + InsertDown(down[1..], x)
  }

  /** One splice. */
  function Cut(line: string, s: Span): string
    requires s.start < |line|
  {
    line[..s.start] + s.name + line[s.start + 1..]
  }

  /** The method, as the source has it. */
  method RenameOnLine(line: string, cols: seq<int>, alnum: char -> bool) returns (result: string)
    ensures result == Renamed(line, cols, alnum)
  {
    if cols == [] {
      return line;
    }
    var colsSorted := SortedSet(cols);
    var spans := CollectSpans(line, colsSorted, alnum);
    SpansAreInside(line, alnum, colsSorted, |colsSorted|);
    SortDownKeeps(spans);
    result := CutSpans(line, SortDown(spans));
  }

  /** The first loop: the spans, in the order of the columns. */
  method CollectSpans(line: string, colsSorted: seq<int>, alnum: char -> bool) returns (spans: seq<Span>)
    ensures spans == SpansOf(line, alnum, colsSorted, |colsSorted|)
  {
    spans := [];
    var n := 0;
    while n < |colsSorted|
      invariant 0 <= n <= |colsSorted| && spans == SpansOf(line, alnum, colsSorted, n)
    {
      var col := colsSorted[n];
      n := n + 1;
      var name := if n == 1 then "_unused" else "_unused" + Decimal(n);
      if col < 0 {
        var idx := Find(line, " as _", 0);
        if idx < 0 {
          continue;
        }
        var start := idx + 4;
        assert line[idx..idx + 5][4] == '_';
        if start < |line| && line[start] == '_' && (start + 1 == |line| || !InName(alnum, line[start + 1])) {
          spans := spans + [Span(start, name)];
        }
        continue;
      }
      if col >= |line| || line[col] != '_' {
        continue;
      }
      if col + 1 < |line| && InName(alnum, line[col + 1]) {
        continue;
      }
      if col > 0 && InName(alnum, line[col - 1]) {
        continue;
      }
      spans := spans + [Span(col, name)];
    }
  }

  /** The second loop: the cuts, one after the other. */
  method CutSpans(line: string, down: seq<Span>) returns (result: string)
    requires forall s | s in down :: s.start < |line| && |s.name| >= 1
    ensures result == CutAll(line, down)
  {
    result := line;
    for i := 0 to |down|
      invariant |result| >= |line| && CutAll(result, down[i..]) == CutAll(line, down)
    {
      assert down[i..][0] == down[i] && down[i..][1..] == down[i + 1..];
      assert down[i] in down;
      result := Cut(result, down[i]);
    }
  }

  /** All splices, in the order given; a span outside the line is skipped. */
  function CutAll(line: string, spans: seq<Span>): string
    decreases |spans|
  {
    if spans == [] then line
    else CutAll(if spans[0].start < |line| then Cut(line, spans[0]) else line, spans[1..])
  }

  function Renamed(line: string, cols: seq<int>, alnum: char -> bool): string {
    var cs := SortedSet(cols);
    CutAll(line, SortDown(SpansOf(line, alnum, cs, |cs|)))
  }

  lemma {:induction false} SpansAreInside(line: string, alnum: char -> bool, cols: seq<int>, n: nat)
    requires n <= |cols|
    ensures forall s | s in SpansOf(line, alnum, cols, n) :: s.start < |line| && |s.name| >= 7
  {
    if n > 0 {
      SpansAreInside(line, alnum, cols, n - 1);
    }
  }

  ghost predicate Down(spans: seq<Span>) {
    forall i, j | 0 <= i < j < |spans| :: spans[i].start >= spans[j].start
  }

  lemma {:induction false} InsertDownAdds(down: seq<Span>, x: Span)
    ensures multiset(InsertDown(down, x)) == multiset(down) + multiset{x}
    ensures forall s :: s in InsertDown(down, x) <==> s in down || s == x
  {
    if down != [] && down[0].start >= x.start {
      InsertDownAdds(down[1..], x);
      assert down == [down[0]] + down[1..];
    }
  }

  lemma {:induction false} InsertDownKeeps(down: seq<Span>, x: Span)
    requires Down(down)
    ensures Down(InsertDown(down, x))
  {
    if down != [] && down[0].start >= x.start {
      InsertDownKeeps(down[1..], x);
      InsertDownAdds(down[1..], x);
      var t := InsertDown(down[1..], x);
      forall i | 0 <= i < |t| ensures down[0].start >= t[i].start {
        assert t[i] in t;
      }
    }
  }

  lemma {:induction false} SortDownKeeps(spans: seq<Span>)
    ensures Down(SortDown(spans)) && multiset(SortDown(spans)) == multiset(spans)
    ensures forall s :: s in SortDown(spans) <==> s in spans
  {
    if spans != [] {
      var front, last := spans[..|spans| - 1], spans[|spans| - 1];
      assert spans == front + [last];
      SortDownKeeps(front);
      InsertDownKeeps(SortDown(front), last);
      InsertDownAdds(SortDown(front), last);
    }
  }

  // ---- Which spans there are ----

  /** The character a column stands for, or -1. */
  function Target(line: string, alnum: char -> bool, col: int): (p: int)
    ensures -1 <= p < |line| && (p >= 0 ==> line[p] == '_')
  {
    if col < 0 then
      (var p := AsColumn(line, alnum);
       assert p >= 0 ==> line[p - 4..p + 1][4] == '_';
       p)
    else if Accepts(line, alnum, col) then col else -1
  }

  /** The character at p is `_` and neither neighbour could be part of the same name. */
  ghost predicate IsBareAt(line: string, alnum: char -> bool, p: int, before: string, after: string) {
    && line == before + "_" + after && |before| == p
    && (before != "" ==> !alnum(before[|before| - 1]) && before[|before| - 1] != '_')
    && (after != "" ==> !alnum(after[0]) && after[0] != '_')
  }

  /** The character at p ends the first ` as _` of the line, and no name goes on behind it. */
  ghost predicate IsHandlerAt(line: string, alnum: char -> bool, p: int, before: string, after: string) {
    && line == before + " as _" + after && |before| + 4 == p
    && (forall k | 0 <= k < |before| :: !OccursAt(line, " as _", k))
    && (after != "" ==> !alnum(after[0]) && after[0] != '_')
  }

  /** A column stands for the bare `_` there, the sentinel for the one of the line's first ` as _`. */
  lemma TargetExactly(line: string, alnum: char -> bool, col: int, p: nat)
    ensures Target(line, alnum, col) == p <==>
              if col >= 0 then col == p && exists before, after :: IsBareAt(line, alnum, p, before, after)
              else exists before, after :: IsHandlerAt(line, alnum, p, before, after)
  {
    if col >= 0 {
      AcceptsBare(line, alnum, col);
    } else {
      SentinelStandsFor(line, alnum, p);
    }
  }

  lemma AcceptsBare(line: string, alnum: char -> bool, col: nat)
    ensures Accepts(line, alnum, col) <==> exists before, after :: IsBareAt(line, alnum, col, before, after)
  {
    if Accepts(line, alnum, col) {
      assert line == line[..col] + "_" + line[col + 1..];
      assert IsBareAt(line, alnum, col, line[..col], line[col + 1..]);
    }
    if before, after :| IsBareAt(line, alnum, col, before, after) {
      assert line[col] == '_';
      assert after != "" ==> line[col + 1] == after[0];
      assert before != "" ==> line[col - 1] == before[|before| - 1];
    }
  }

  lemma SentinelStandsFor(line: string, alnum: char -> bool, p: nat)
    ensures AsColumn(line, alnum) == p <==> exists before, after :: IsHandlerAt(line, alnum, p, before, after)
  {
    var idx := Find(line, " as _", 0);
    if AsColumn(line, alnum) == p {
      assert line == line[..idx] + " as _" + line[idx + 5..];
      assert IsHandlerAt(line, alnum, p, line[..idx], line[idx + 5..]);
    }
    if before, after :| IsHandlerAt(line, alnum, p, before, after) {
      assert line[|before|..|before| + 5] == " as _";
      assert OccursAt(line, " as _", |before|);
      assert after != "" ==> line[p + 1] == after[0];
    }
  }

  /** The k-th column of the sorted set gives its character the k-th name, counting the columns
      that were turned down. */
  lemma {:induction false} SpansExactly(line: string, alnum: char -> bool, cols: seq<int>, n: nat, s: Span)
    requires n <= |cols|
    ensures s in SpansOf(line, alnum, cols, n) <==> NamedBelow(line, alnum, cols, n, s)
  {
    if n > 0 {
      SpansExactly(line, alnum, cols, n - 1, s);
      LastSpan(line, alnum, cols[n - 1], n, s);
      OneMoreNamed(line, alnum, cols, n - 1, s);
      InEither(SpansOf(line, alnum, cols, n - 1), SpanFor(line, alnum, cols[n - 1], n), s);
    }
  }

  lemma InEither(a: seq<Span>, b: seq<Span>, s: Span)
    ensures s in a + b <==> s in a || s in b
  {
  }

  ghost predicate NamedBelow(line: string, alnum: char -> bool, cols: seq<int>, n: nat, s: Span)
    requires n <= |cols|
  {
    exists k: nat :: k < n && IsNamed(line, alnum, cols, k, s)
  }

  lemma OneMoreNamed(line: string, alnum: char -> bool, cols: seq<int>, n: nat, s: Span)
    requires n < |cols|
    ensures NamedBelow(line, alnum, cols, n + 1, s) <==>
            NamedBelow(line, alnum, cols, n, s) || IsNamed(line, alnum, cols, n, s)
  {
  }

  /** The k-th column stands for the span's character, and the span has the name of that number. */
  predicate IsNamed(line: string, alnum: char -> bool, cols: seq<int>, k: nat, s: Span)
    requires k < |cols|
  {
    Target(line, alnum, cols[k]) == s.start && s.name == Name(k + 1)
  }

  lemma LastSpan(line: string, alnum: char -> bool, col: int, n: nat, s: Span)
    ensures s in SpanFor(line, alnum, col, n) <==> Target(line, alnum, col) == s.start && s.name == Name(n)
  {
  }

  ghost predicate Distinct(spans: seq<Span>) {
    forall i, j | 0 <= i < j < |spans| :: spans[i].start != spans[j].start
  }

  /** Two different columns stand for one character: the sentinel and that character's own column. */
  ghost predicate Clash(line: string, alnum: char -> bool, cols: seq<int>) {
    exists a, b | a in cols && b in cols ::
      a != b && Target(line, alnum, a) == Target(line, alnum, b) >= 0
  }

  ghost predicate Starts(spans: seq<Span>, p: int) {
    exists s | s in spans :: s.start == p
  }

  ghost predicate Targeted(line: string, alnum: char -> bool, cols: seq<int>, p: int) {
    exists a | a in cols :: Target(line, alnum, a) == p
  }

  lemma StartsAreTargets(line: string, alnum: char -> bool, cols: seq<int>, n: nat, p: int)
    requires n <= |cols| && p >= 0
    ensures Starts(SpansOf(line, alnum, cols, n), p) <==> Targeted(line, alnum, cols[..n], p)
  {
    var spans := SpansOf(line, alnum, cols, n);
    if s :| s in spans && s.start == p {
      SpansExactly(line, alnum, cols, n, s);
      var k: nat :| k < n && IsNamed(line, alnum, cols, k, s);
      assert cols[k] in cols[..n];
    }
    if a :| a in cols[..n] && Target(line, alnum, a) == p {
      var k :| 0 <= k < n && cols[k] == a;
      SpansExactly(line, alnum, cols, n, Span(p, Name(k + 1)));
      assert IsNamed(line, alnum, cols, k, Span(p, Name(k + 1)));
    }
  }

  lemma OneMoreSpan(front: seq<Span>, s: Span)
    ensures Distinct(front + [s]) <==> Distinct(front) && !Starts(front, s.start)
  {
    var spans := front + [s];
    assert forall i | 0 <= i < |front| :: spans[i] == front[i];
    if t :| t in front && t.start == s.start {
      var i :| 0 <= i < |front| && front[i] == t;
      assert spans[i].start == spans[|front|].start;
    }
  }

  lemma OneMoreColumn(line: string, alnum: char -> bool, before: seq<int>, col: int)
    requires col !in before
    ensures var p := Target(line, alnum, col);
            Clash(line, alnum, before + [col]) <==>
            Clash(line, alnum, before) || (p >= 0 && Targeted(line, alnum, before, p))
  {
    var p := Target(line, alnum, col);
    var cols := before + [col];
    assert forall x :: x in cols <==> x in before || x == col;
    assert col in cols;
    assert forall x | x in before :: x in cols;
  }

  lemma {:induction false} DistinctUnlessClash(line: string, alnum: char -> bool, cols: seq<int>, n: nat)
    requires n <= |cols| && Increasing(cols)
    ensures Distinct(SpansOf(line, alnum, cols, n)) <==> !Clash(line, alnum, cols[..n])
  {
    if n > 0 {
      var col, p := cols[n - 1], Target(line, alnum, cols[n - 1]);
      DistinctUnlessClash(line, alnum, cols, n - 1);
      assert cols[..n] == cols[..n - 1] + [col];
      OneMoreColumn(line, alnum, cols[..n - 1], col);
      if p >= 0 {
        StartsAreTargets(line, alnum, cols, n - 1, p);
        assert SpansOf(line, alnum, cols, n) == SpansOf(line, alnum, cols, n - 1) + [Span(p, Name(n))];
        OneMoreSpan(SpansOf(line, alnum, cols, n - 1), Span(p, Name(n)));
      } else {
        assert SpanFor(line, alnum, col, n) == [];
        assert SpansOf(line, alnum, cols, n) == SpansOf(line, alnum, cols, n - 1);
      }
    }
  }

  // ---- Simultaneous substitution ----

  /** Every character from i on that has a name is replaced by it; the others are kept. */
  function Subst(line: string, names: map<nat, string>, i: nat): string
    requires i <= |line|
    decreases |line| - i
  {
    if i == |line| then ""
    else (if i in names then names[i] else [line[i]]) + Subst(line, names, i + 1)
  }

  /** A name for exactly the characters that have a span, each taken from such a span. */
  ghost predicate Picks(names: map<nat, string>, spans: seq<Span>) {
    && (forall p | p in names :: Span(p, names[p]) in spans)
    && (forall s | s in spans :: s.start in names)
  }

  lemma {:induction false} NothingBetween(line: string, names: map<nat, string>, p: nat, q: nat)
    requires p <= q <= |line| && forall k | p <= k < q :: k !in names
    ensures Subst(line, names, p) == line[p..q] + Subst(line, names, q)
    decreases q - p
  {
    if p < q {
      NothingBetween(line, names, p + 1, q);
      assert line[p..q] == [line[p]] + line[p + 1..q];
    }
  }

  ghost predicate StrictlyDown(spans: seq<Span>) {
    forall i, j | 0 <= i < j < |spans| :: spans[i].start > spans[j].start
  }

  lemma CutAtJoint(left: string, c: char, right: string, s: Span)
    requires s.start == |left|
    ensures Cut(left + [c] + right, s) == left + s.name + right
  {
    var now := left + [c] + right;
    assert now[..|left|] == left && now[|left| + 1..] == right;
  }

  lemma SplitAround(line: string, p: nat, q: nat)
    requires p < q <= |line|
    ensures line[..q] == line[..p] + [line[p]] + line[p + 1..q]
  {
  }

  lemma OneCut(line: string, names: map<nat, string>, q: nat, s: Span)
    requires s.start < q <= |line| && s.start in names && names[s.start] == s.name
    requires forall k | s.start < k < q :: k !in names
    ensures s.start < |line[..q] + Subst(line, names, q)|
    ensures Cut(line[..q] + Subst(line, names, q), s) == line[..s.start] + Subst(line, names, s.start)
  {
    var p := s.start;
    NothingBetween(line, names, p + 1, q);
    SplitAround(line, p, q);
    CutInside(line[..p], line[p], line[p + 1..q], Subst(line, names, q), s);
  }

  lemma CutInside(left: string, c: char, mid: string, tail: string, s: Span)
    requires s.start == |left|
    ensures s.start < |left + [c] + mid + tail|
    ensures Cut(left + [c] + mid + tail, s) == left + (s.name + (mid + tail))
  {
    Associate(left + [c], mid, tail);
    CutAtJoint(left, c, mid + tail, s);
    assert left + s.name + (mid + tail) == left + (s.name + (mid + tail));
  }

  /** The spans and the names below q belong together. */
  ghost predicate Paired(names: map<nat, string>, q: nat, down: seq<Span>) {
    && StrictlyDown(down)
    && (forall s | s in down :: s.start < q && s.start in names && names[s.start] == s.name)
    && (forall p | p in names && p < q :: Starts(down, p))
  }

  lemma PairedBelow(names: map<nat, string>, q: nat, down: seq<Span>)
    requires Paired(names, q, down) && down != []
    ensures forall k | down[0].start < k < q :: k !in names
    ensures Paired(names, down[0].start, down[1..])
  {
    var s, rest := down[0], down[1..];
    assert forall i | 0 <= i < |rest| :: rest[i] == down[i + 1];
    assert forall t | t in down :: t == s || t in rest;
    forall t | t in rest ensures t.start < s.start && t in down {
      var i :| 0 <= i < |rest| && rest[i] == t;
      assert down[0].start > down[i + 1].start;
    }
    forall k | k in names && k < s.start ensures Starts(rest, k) {
      var t :| t in down && t.start == k;
    }
    forall k | s.start < k < q ensures k !in names {
      assert !Starts(down, k);
    }
  }

  /** What is right of the last cut is final; what is left of it is untouched. */
  lemma {:induction false} CutsAreSubst(line: string, names: map<nat, string>, q: nat, down: seq<Span>)
    requires q <= |line| && Paired(names, q, down)
    ensures CutAll(line[..q] + Subst(line, names, q), down) == Subst(line, names, 0)
    decreases |down|
  {
    if down == [] {
      forall k | 0 <= k < q ensures k !in names {
        assert !Starts(down, k);
      }
      NothingBetween(line, names, 0, q);
    } else {
      PairedBelow(names, q, down);
      OneCut(line, names, q, down[0]);
      CutsAreSubst(line, names, down[0].start, down[1..]);
    }
  }

  lemma {:induction false} InsertDownIsStrict(down: seq<Span>, x: Span)
    requires StrictlyDown(down) && forall s | s in down :: s.start != x.start
    ensures StrictlyDown(InsertDown(down, x))
    ensures forall s :: s in InsertDown(down, x) <==> s in down || s == x
  {
    if down != [] && down[0].start > x.start {
      InsertDownIsStrict(down[1..], x);
      var t := InsertDown(down[1..], x);
      forall i | 0 <= i < |t| ensures down[0].start > t[i].start {
        assert t[i] in t;
      }
    }
  }

  lemma {:induction false} SortDownIsStrict(spans: seq<Span>)
    requires Distinct(spans)
    ensures StrictlyDown(SortDown(spans))
  {
    if spans != [] {
      var front, last := spans[..|spans| - 1], spans[|spans| - 1];
      SortDownIsStrict(front);
      SortDownKeeps(front);
      InsertDownIsStrict(SortDown(front), last);
    }
  }

  // ---- A clash makes the line too long ----

  function Gain(spans: seq<Span>): int {
    if spans == [] then 0 else Gain(spans[1..]) + |spans[0].name| - 1
  }

  lemma {:induction false} GainWithout(spans: seq<Span>, j: nat)
    requires j < |spans|
    ensures Gain(spans) == Gain(spans[..j] + spans[j + 1..]) + |spans[j].name| - 1
  {
    var rest := spans[..j] + spans[j + 1..];
    if j > 0 {
      GainWithout(spans[1..], j - 1);
      assert rest[1..] == spans[1..][..j - 1] + spans[1..][j..];
    } else {
      assert rest == spans[1..];
    }
  }

  lemma {:induction false} InsertDownGains(down: seq<Span>, x: Span)
    ensures Gain(InsertDown(down, x)) == Gain(down) + |x.name| - 1
  {
    if down != [] && down[0].start >= x.start {
      InsertDownGains(down[1..], x);
    }
  }

  lemma {:induction false} SortDownGains(spans: seq<Span>)
    ensures Gain(SortDown(spans)) == Gain(spans)
  {
    if spans != [] {
      var front, last := spans[..|spans| - 1], spans[|spans| - 1];
      SortDownGains(front);
      InsertDownGains(SortDown(front), last);
      GainWithout(spans, |spans| - 1);
      assert front + spans[|spans|..] == front;
    }
  }

  lemma {:induction false} CutAllGains(line: string, spans: seq<Span>)
    requires forall s | s in spans :: s.start < |line| && |s.name| >= 1
    ensures |CutAll(line, spans)| == |line| + Gain(spans)
    decreases |spans|
  {
    if spans != [] {
      CutAllGains(Cut(line, spans[0]), spans[1..]);
    }
  }

  lemma {:induction false} GainIsPositive(spans: seq<Span>)
    requires forall s | s in spans :: |s.name| >= 7
    ensures Gain(spans) >= 0 && (spans != [] ==> Gain(spans) > 0)
  {
    if spans != [] {
      GainIsPositive(spans[1..]);
    }
  }

  /** A span that substitution from i on has no use for. */
  ghost predicate Slack(spans: seq<Span>, i: nat) {
    || (exists s | s in spans :: s.start < i)
    || !Distinct(spans)
  }

  lemma {:induction false} SubstIsShorter(line: string, names: map<nat, string>, spans: seq<Span>, i: nat)
    requires i <= |line|
    requires forall s | s in spans :: s.start < |line| && |s.name| >= 7
    requires forall p | p in names && p >= i :: Span(p, names[p]) in spans
    requires Slack(spans, i)
    ensures |Subst(line, names, i)| < |line| - i + Gain(spans)
    decreases |line| - i
  {
    if i == |line| {
      GainIsPositive(spans);
    } else if i !in names {
      SubstIsShorter(line, names, spans, i + 1);
    } else {
      var s := Span(i, names[i]);
      var j :| 0 <= j < |spans| && spans[j] == s;
      var rest := spans[..j] + spans[j + 1..];
      GainWithout(spans, j);
      forall t | t in spans && t != s ensures t in rest {
        var k :| 0 <= k < |spans| && spans[k] == t;
        assert if k < j then rest[k] == t else rest[k - 1] == t;
      }
      SlackStays(spans, i, j);
      SubstIsShorter(line, names, rest, i + 1);
    }
  }

  lemma SlackStays(spans: seq<Span>, i: nat, j: nat)
    requires Slack(spans, i) && j < |spans| && spans[j].start == i
    ensures Slack(spans[..j] + spans[j + 1..], i + 1)
  {
    var rest := spans[..j] + spans[j + 1..];
    if s :| s in spans && s.start < i {
      var k :| 0 <= k < |spans| && spans[k] == s;
      assert if k < j then rest[k] == s else rest[k - 1] == s;
    } else {
      var a, b :| 0 <= a < b < |spans| && spans[a].start == spans[b].start;
      if a == j {
        assert rest[b - 1] == spans[b];
        assert rest[b - 1] in rest;
      } else if b == j {
        assert rest[a] == spans[a];
        assert rest[a] in rest;
      } else {
        var a', b' := if a < j then a else a - 1, if b < j then b else b - 1;
        assert rest[a'] == spans[a] && rest[b'] == spans[b];
      }
    }
  }

  // ---- The theorem ----

  lemma DistinctNamesAgree(spans: seq<Span>, names: map<nat, string>, s: Span)
    requires Distinct(spans) && Picks(names, spans) && s in spans
    ensures names[s.start] == s.name
  {
    var t := Span(s.start, names[s.start]);
    var i :| 0 <= i < |spans| && spans[i] == s;
    var j :| 0 <= j < |spans| && spans[j] == t;
    assert i <= j && j <= i;
  }

  lemma DistinctSpansSubstitute(line: string, names: map<nat, string>, spans: seq<Span>)
    requires Distinct(spans) && Picks(names, spans)
    requires forall s | s in spans :: s.start < |line|
    ensures CutAll(line, SortDown(spans)) == Subst(line, names, 0)
  {
    var down := SortDown(spans);
    SortDownKeeps(spans);
    SortDownIsStrict(spans);
    forall s | s in down ensures names[s.start] == s.name {
      DistinctNamesAgree(spans, names, s);
    }
    forall p | p in names && p < |line| ensures Starts(down, p) {
      assert Span(p, names[p]) in down;
    }
    CutsAreSubst(line, names, |line|, down);
    assert line[..|line|] + Subst(line, names, |line|) == line;
  }

  lemma RepeatedSpansDoNot(line: string, names: map<nat, string>, spans: seq<Span>)
    requires !Distinct(spans) && Picks(names, spans)
    requires forall s | s in spans :: s.start < |line| && |s.name| >= 7
    ensures |CutAll(line, SortDown(spans))| > |Subst(line, names, 0)|
  {
    SortDownKeeps(spans);
    SubstIsShorter(line, names, spans, 0);
    SortDownGains(spans);
    CutAllGains(line, SortDown(spans));
  }

  /** Splicing from right to left is simultaneous substitution exactly when no two of the collected
      columns stand for the same character. */
  lemma SplicingIsSubstitution(line: string, cols: seq<int>, alnum: char -> bool, names: map<nat, string>)
    requires var cs := SortedSet(cols); Picks(names, SpansOf(line, alnum, cs, |cs|))
    ensures Renamed(line, cols, alnum) == Subst(line, names, 0) <==> !Clash(line, alnum, cols)
  {
    var cs := SortedSet(cols);
    var spans := SpansOf(line, alnum, cs, |cs|);
    SortedSetIsIncreasing(cols);
    DistinctUnlessClash(line, alnum, cs, |cs|);
    assert cs[..|cs|] == cs;
    assert Clash(line, alnum, cs) <==> Clash(line, alnum, cols);
    SpansAreInside(line, alnum, cs, |cs|);
    if Distinct(spans) {
      DistinctSpansSubstitute(line, names, spans);
    } else {
      RepeatedSpansDoNot(line, names, spans);
    }
  }

  lemma TwoSpans(line: string, alnum: char -> bool, p: int)
    requires p >= 0 && Target(line, alnum, -1) == p == Target(line, alnum, p)
    ensures Renamed(line, [-1, p], alnum) == CutAll(line, [Span(p, Name(1)), Span(p, Name(2))])
  {
    var cols := [-1, p];
    assert cols[..1] == [-1] && [-1][..0] == [];
    assert SortedSet([-1]) == [-1];
    assert Insert([-1], p) == [-1] + Insert([-1][1..], p) == cols;
    assert SortedSet(cols) == cols;
    var s1, s2 := Span(p, Name(1)), Span(p, Name(2));
    assert SpansOf(line, alnum, cols, 0) == [];
    assert SpansOf(line, alnum, cols, 1) == [s1];
    assert SpansOf(line, alnum, cols, 2) == [s1, s2];
    SortedPair(s1, s2);
  }

  lemma SortedPair(s1: Span, s2: Span)
    requires s1.start == s2.start
    ensures SortDown([s1, s2]) == [s1, s2]
  {
    assert [s1, s2][..1] == [s1] && [s1][..0] == [];
    assert SortDown([s1]) == [s1];
    assert InsertDown([s1], s2) == [s1] + InsertDown([s1][1..], s2);
  }

  lemma CutTwice(pre: string, post: string)
    ensures CutAll(pre + "_" + post, [Span(|pre|, Name(1)), Span(|pre|, Name(2))]) == pre + "_unused2unused" + post
  {
    assert Decimal(2) == "2" && Name(2) == "_unused2";
    CutAtJoint(pre, '_', post, Span(|pre|, "_unused"));
    CutUnused(pre, post);
    TwoCuts(pre + "_" + post, Span(|pre|, "_unused"), Span(|pre|, "_unused2"));
  }

  lemma CutUnused(pre: string, post: string)
    ensures Cut(pre + "_unused" + post, Span(|pre|, "_unused2")) == pre + "_unused2unused" + post
  {
    assert pre + "_unused" + post == pre + ['_'] + ("unused" + post);
    CutAtJoint(pre, '_', "unused" + post, Span(|pre|, "_unused2"));
    assert pre + "_unused2" + ("unused" + post) == pre + "_unused2unused" + post;
  }

  lemma TwoCuts(line: string, s1: Span, s2: Span)
    requires s1.start < |line| && s2.start < |Cut(line, s1)|
    ensures CutAll(line, [s1, s2]) == Cut(Cut(line, s1), s2)
  {
    assert [s1, s2][1..] == [s2] && [s2][1..] == [];
    assert CutAll(Cut(Cut(line, s1), s2), []) == Cut(Cut(line, s1), s2);
  }

  // Columns come from the syntax tree, which counts bytes of UTF-8, while the line is cut by characters.

  function Utf8Width(c: char): nat {
    if c as int < 0x80 then 1 else if c as int < 0x800 then 2 else if c as int < 0x1_0000 then 3 else 4
  }

  /** Where the widths of UTF-8 change. */
  lemma Utf8Widths()
    ensures Utf8Width('\U{7f}') == 1 && Utf8Width('\U{80}') == Utf8Width('\U{7ff}') == 2
    ensures Utf8Width('\U{800}') == Utf8Width('\U{ffff}') == 3 && Utf8Width('\U{10000}') == 4
  {
  }

  /** The column that the syntax tree gives for the i-th character of a line. */
  function ByteOffset(line: string, i: nat): nat
    requires i <= |line|
  {
    if i == 0 then 0 else ByteOffset(line, i - 1) + Utf8Width(line[i - 1])
  }

  /** It is the character's own index exactly if only ASCII characters come before. */
  lemma {:induction false} ByteOffsetIsIndex(line: string, i: nat)
    requires i <= |line|
    ensures ByteOffset(line, i) >= i
    ensures ByteOffset(line, i) == i <==> forall k | 0 <= k < i :: line[k] as int < 0x80
  {
    if i > 0 {
      ByteOffsetIsIndex(line, i - 1);
    }
  }

  /** The handler of a try statement, at the left margin. */
  const HANDLER := "except g(\"\U{e9}\U{e9}\U{e9}\U{e9}\U{e9}\U{e9}\U{e9}\U{e9}\U{e9}\", lambda _: E) as _:"

  lemma HandlerShape()
    ensures |HANDLER| == 40 && HANDLER[29] == '_' && HANDLER[37..] == " _:" && OccursAt(HANDLER, " as _", 34)
    ensures forall k | 0 <= k < 34 :: HANDLER[k] != ' ' || HANDLER[k + 1] != 'a'
  {
  }

  /** The lambda's argument, character 29, has column 38. */
  lemma HandlerOffsets()
    ensures |HANDLER| == 40 && ByteOffset(HANDLER, 29) == 38
  {
    HandlerShape();
    assert forall k | 0 <= k < 10 :: HANDLER[k] as int < 0x80;
    ByteOffsetIsIndex(HANDLER, 10);
    assert forall k | 10 <= k < 19 :: HANDLER[k] as int == 0xe9;
    WideRun(HANDLER, 10, 19, 2);
    HandlerArgument();
    WideRun(HANDLER, 19, 29, 1);
  }

  lemma HandlerArgument()
    ensures |HANDLER| == 40 && forall k | 19 <= k < 29 :: HANDLER[k] as int < 0x80
  {
    assert HANDLER[19] == '\"' && HANDLER[20] == ',' && HANDLER[21] == ' ' && HANDLER[22] == 'l' && HANDLER[23] == 'a';
    assert HANDLER[24] == 'm' && HANDLER[25] == 'b' && HANDLER[26] == 'd' && HANDLER[27] == 'a' && HANDLER[28] == ' ';
  }

  /** A binding is renamed for its own column exactly if only ASCII characters come before it. */
  lemma RenamedExactlyBehindAscii(line: string, alnum: char -> bool, i: nat)
    requires Accepts(line, alnum, i)
    ensures Target(line, alnum, ByteOffset(line, i)) == i <==> forall k | 0 <= k < i :: line[k] as int < 0x80
  {
    ByteOffsetIsIndex(line, i);
  }

  lemma {:induction false} WideRun(line: string, i: nat, j: nat, width: nat)
    requires i <= j <= |line| && forall k | i <= k < j :: Utf8Width(line[k]) == width
    ensures ByteOffset(line, j) == ByteOffset(line, i) + width * (j - i)
  {
    if i < j {
      WideRun(line, i, j - 1, width);
    }
  }

  lemma HandlerTargets(alnum: char -> bool)
    requires !alnum(' ') && !alnum(':')
    ensures Target(HANDLER, alnum, -1) == 38 && Target(HANDLER, alnum, 38) == 38
  {
    HandlerShape();
    forall k | 0 <= k < 34 ensures !OccursAt(HANDLER, " as _", k) {
      if OccursAt(HANDLER, " as _", k) {
        FirstTwo(HANDLER, k);
      }
    }
    assert Find(HANDLER, " as _", 0) == 34;
    assert HANDLER[37] == HANDLER[37..][0] && HANDLER[38] == HANDLER[37..][1] && HANDLER[39] == HANDLER[37..][2];
  }

  lemma FirstTwo(line: string, k: nat)
    requires OccursAt(line, " as _", k)
    ensures line[k] == ' ' && line[k + 1] == 'a'
  {
    assert line[k..k + 5][0] == line[k] && line[k..k + 5][1] == line[k + 1];
  }

  /** On this line the collector's sentinel and the column of the lambda's argument stand for the same
      character: both names are put in there, and the argument keeps its own. */
  lemma ClashKeepsBothNames(alnum: char -> bool)
    requires !alnum(' ') && !alnum(':')
    ensures |HANDLER| == 40 && HANDLER[29] == '_' && ByteOffset(HANDLER, 29) == 38
    ensures Clash(HANDLER, alnum, [-1, 38])
    ensures Renamed(HANDLER, [-1, 38], alnum) == HANDLER[..38] + "_unused2unused" + ":"
  {
    var cols := [-1, 38];
    HandlerShape();
    HandlerOffsets();
    HandlerTargets(alnum);
    assert cols[0] in cols && cols[1] in cols;
    TwoSpans(HANDLER, alnum, 38);
    HandlerParts();
    CutTwice(HANDLER[..38], ":");
  }

  lemma HandlerParts()
    ensures |HANDLER| == 40 && HANDLER == HANDLER[..38] + "_" + ":"
  {
    HandlerShape();
    assert HANDLER[37..][1..] == HANDLER[38..];
  }

  // ---- All lines of a file ----

  /** The renaming on one line, as a function of the line and its columns. */
  type Renamer = (string, seq<int>) -> string

  function RenamerFor(alnum: char -> bool): (rename: Renamer)
    ensures KeepsUnhit(rename)
  {
    (body, cols) => Renamed(body, cols, alnum)
  }

  function Without(raw: string, nl: string): (body: string)
    requires EndsWith(raw, nl)
    ensures body + nl == raw
  {
    raw[..|raw| - |nl|]
  }

  function Ending(raw: string): (nl: string)
    ensures EndsWith(raw, nl)
  {
    if EndsWith(raw, "\r\n") then "\r\n"
    else if EndsWith(raw, "\n") then "\n"
    else if EndsWith(raw, "\r") then "\r"
    else ""
  }

  function Body(raw: string): (body: string)
    ensures body + Ending(raw) == raw
  {
    Without(raw, Ending(raw))
  }

  /** The ending is the longest of the line ends that the line has, and none if it has none. */
  lemma EndingIsLongest(raw: string)
    ensures Ending(raw) in ["\r\n", "\n", "\r", ""]
    ensures forall nl | nl in ["\r\n", "\n", "\r"] && EndsWith(raw, nl) :: |nl| <= |Ending(raw)|
  {
    assert "\n" != "\r";
  }

  /** The columns collected for a line, in the order they were found. */
  function ColumnsOf(hits: seq<(int, int)>, lineno: int): seq<int> {
    if hits == [] then []
    else
      var (l, col), front := hits[|hits| - 1], ColumnsOf(hits[..|hits| - 1], lineno);
      if l == lineno then front + [col] else front
  }

  function LineNumbers(hits: seq<(int, int)>): seq<int> {
    seq(|hits|, i requires 0 <= i < |hits| => hits[i].0)
  }

  /** They are those of the hits on that line. */
  lemma {:induction false} ColumnsAreHits(hits: seq<(int, int)>, lineno: int, col: int)
    ensures col in ColumnsOf(hits, lineno) <==> (lineno, col) in hits
  {
    if hits != [] {
      var front, last := hits[..|hits| - 1], hits[|hits| - 1];
      assert hits == front + [last];
      ColumnsAreHits(front, lineno, col);
      assert (lineno, col) in hits <==> (lineno, col) in front || (last.0 == lineno && last.1 == col);
    }
  }

  lemma {:induction false} NoHitNoColumns(hits: seq<(int, int)>, lineno: int)
    requires lineno !in LineNumbers(hits)
    ensures ColumnsOf(hits, lineno) == []
  {
    if hits != [] {
      assert LineNumbers(hits)[|hits| - 1] == hits[|hits| - 1].0;
      forall l | l in LineNumbers(hits[..|hits| - 1]) ensures l in LineNumbers(hits) {
        var i :| 0 <= i < |hits| - 1 && hits[..|hits| - 1][i].0 == l;
        assert LineNumbers(hits)[i] == l;
      }
      NoHitNoColumns(hits[..|hits| - 1], lineno);
    }
  }

  function RewrittenLine(raw: string, cols: seq<int>, rename: Renamer): string {
    rename(Body(raw), cols) + Ending(raw)
  }

  /** Every line with its own columns renamed. */
  function Rewritten(source: seq<string>, hits: seq<(int, int)>, rename: Renamer): seq<string> {
    seq(|source|, i requires 0 <= i < |source| =>
      RewrittenLine(source[i], ColumnsAt(hits, i), rename))
  }

  /** The columns collected for the line at this index. */
  function ColumnsAt(hits: seq<(int, int)>, i: int): seq<int> {
    ColumnsOf(hits, i + 1)
  }

  /** The listed lines taken from `to`, the others from `from`. */
  function Patched(from: seq<string>, to: seq<string>, done: seq<int>): seq<string>
    requires |from| == |to|
  {
    seq(|from|, i requires 0 <= i < |from| => if i + 1 in done then to[i] else from[i])
  }

  /** Without columns nothing is renamed. */
  ghost predicate KeepsUnhit(rename: Renamer) {
    forall body :: rename(body, []) == body
  }

  lemma UnhitLinesAreKept(source: seq<string>, hits: seq<(int, int)>, rename: Renamer)
    requires KeepsUnhit(rename)
    ensures Patched(source, Rewritten(source, hits, rename), SortedSet(LineNumbers(hits))) ==
            Rewritten(source, hits, rename)
  {
    SortedSetIsIncreasing(LineNumbers(hits));
    forall i | 0 <= i < |source| && i + 1 !in LineNumbers(hits)
      ensures Rewritten(source, hits, rename)[i] == source[i]
    {
      NoHitNoColumns(hits, i + 1);
    }
  }

  /** One line, given the columns collected for it. */
  method RewriteLine(raw: string, cols: seq<int>, rename: Renamer) returns (line: string, changed: bool)
    ensures line == RewrittenLine(raw, cols, rename)
    ensures changed <==> line != raw
  {
    var body, nl := Body(raw), Ending(raw);
    var newBody := rename(body, cols);
    SameBody(body, newBody, nl);
    line, changed := newBody + nl, newBody != body;
  }

  /** Each line of the result is the line of the source with its own columns renamed and its ending
      kept, and `changed` tells whether the text differs. */
  method RewriteLines(source: seq<string>, hits: seq<(int, int)>, rename: Renamer)
    returns (lines: seq<string>, changed: bool)
    requires KeepsUnhit(rename)
    ensures lines == Rewritten(source, hits, rename)
    ensures changed <==> lines != source
  {
    var linenos := SortedSet(LineNumbers(hits));
    SortedSetIsIncreasing(LineNumbers(hits));
    ghost var to := Targets(source, hits, rename);
    lines, changed := RewriteNumbered(source, linenos, hits, rename, to);
    AllPatched(lines, source, to, hits, linenos, rename);
  }

  /** The loop over the line numbers; `to` is what the lines become. */
  method RewriteNumbered(source: seq<string>, linenos: seq<int>, hits: seq<(int, int)>, rename: Renamer,
                         ghost to: seq<string>)
    returns (lines: seq<string>, changed: bool)
    requires Increasing(linenos) && AreTargets(to, source, hits, rename)
    ensures changed <==> lines != source
    ensures IsPatched(lines, source, to, linenos, |linenos|)
  {
    lines, changed := source, false;
    NothingPatched(source, to, linenos);
    for n := 0 to |linenos|
      invariant IsPatched(lines, source, to, linenos, n)
      invariant changed <==> lines != source
    {
      var lineno := linenos[n];
      AsInSource(lines, source, to, linenos, n);
      var line, different := NewLineAt(lines, lineno - 1, ColumnsAt(hits, lineno - 1), rename);
      OneMoreRewritten(lines, source, to, linenos, n, line, different);
      if different {
        changed, lines := true, lines[lineno - 1 := line];
      }
    }
  }

  ghost predicate AreTargets(to: seq<string>, source: seq<string>, hits: seq<(int, int)>, rename: Renamer) {
    && |to| == |source|
    && forall i | 0 <= i < |to| :: to[i] == RewrittenLine(source[i], ColumnsAt(hits, i), rename)
  }

  /** What stands at this index, if it is one, once the line has been rewritten. */
  method NewLineAt(lines: seq<string>, at: int, cols: seq<int>, rename: Renamer)
    returns (line: string, different: bool)
    ensures different <==> 0 <= at < |lines| && line != lines[at]
    ensures 0 <= at < |lines| ==> line == RewrittenLine(lines[at], cols, rename)
  {
    line, different := "", false;
    if 0 <= at < |lines| {
      line, different := RewriteLine(lines[at], cols, rename);
    }
  }

  /** The first n of these lines are as in `to`, the others as in `from`. */
  ghost predicate IsPatched(lines: seq<string>, from: seq<string>, to: seq<string>, linenos: seq<int>, n: nat) {
    |lines| == |from| == |to| && n <= |linenos| && lines == Patched(from, to, linenos[..n])
  }

  lemma NothingPatched(from: seq<string>, to: seq<string>, linenos: seq<int>)
    requires |from| == |to|
    ensures IsPatched(from, from, to, linenos, 0)
  {
    assert linenos[..0] == [];
  }

  lemma AsInSource(lines: seq<string>, from: seq<string>, to: seq<string>, linenos: seq<int>, n: nat)
    requires IsPatched(lines, from, to, linenos, n) && n < |linenos| && Increasing(linenos)
    ensures 1 <= linenos[n] <= |lines| ==> lines[linenos[n] - 1] == from[linenos[n] - 1]
  {
    assert linenos[n] !in linenos[..n];
  }

  lemma OneMorePatched(lines: seq<string>, from: seq<string>, to: seq<string>, linenos: seq<int>, n: nat, line: string)
    requires IsPatched(lines, from, to, linenos, n) && n < |linenos|
    requires 1 <= linenos[n] <= |lines| ==> line == to[linenos[n] - 1]
    ensures IsPatched(Replaced(lines, linenos[n], line), from, to, linenos, n + 1)
  {
    var done := linenos[..n + 1];
    assert done == linenos[..n] + [linenos[n]];
    var after, patched := Replaced(lines, linenos[n], line), Patched(from, to, done);
    forall i | 0 <= i < |from| ensures after[i] == patched[i] {
      assert i + 1 in done <==> i + 1 in linenos[..n] || i + 1 == linenos[n];
    }
  }

  ghost function Targets(source: seq<string>, hits: seq<(int, int)>, rename: Renamer): (to: seq<string>)
    ensures AreTargets(to, source, hits, rename)
    ensures to == Rewritten(source, hits, rename)
  {
    Rewritten(source, hits, rename)
  }

  lemma OneMoreRewritten(lines: seq<string>, from: seq<string>, to: seq<string>, linenos: seq<int>, n: nat,
                         line: string, different: bool)
    requires IsPatched(lines, from, to, linenos, n) && n < |linenos| && Increasing(linenos)
    requires 1 <= linenos[n] <= |lines| ==> line == to[linenos[n] - 1]
    requires different <==> 1 <= linenos[n] <= |lines| && line != lines[linenos[n] - 1]
    ensures var after := if different then lines[linenos[n] - 1 := line] else lines;
            IsPatched(after, from, to, linenos, n + 1) && (after != from <==> lines != from || different)
  {
    AsInSource(lines, from, to, linenos, n);
    PatchLine(lines, from, linenos[n], line);
    OneMorePatched(lines, from, to, linenos, n, line);
  }

  lemma AllPatched(lines: seq<string>, source: seq<string>, to: seq<string>, hits: seq<(int, int)>,
                   linenos: seq<int>, rename: Renamer)
    requires KeepsUnhit(rename) && to == Rewritten(source, hits, rename)
    requires linenos == SortedSet(LineNumbers(hits)) && IsPatched(lines, source, to, linenos, |linenos|)
    ensures lines == to
  {
    assert linenos[..|linenos|] == linenos;
    UnhitLinesAreKept(source, hits, rename);
  }

  /** The lines once the given one has been dealt with. */
  ghost function Replaced(lines: seq<string>, lineno: int, line: string): seq<string> {
    if 1 <= lineno <= |lines| then lines[lineno - 1 := line] else lines
  }

  lemma PatchLine(lines: seq<string>, source: seq<string>, lineno: int, line: string)
    requires |lines| == |source|
    requires 1 <= lineno <= |lines| ==> lines[lineno - 1] == source[lineno - 1]
    ensures var after := Replaced(lines, lineno, line);
            if 1 <= lineno <= |lines| && line != lines[lineno - 1] then after != source else after == lines
  {
    if 1 <= lineno <= |lines| {
      assert Replaced(lines, lineno, line)[lineno - 1] == line;
    }
  }

  lemma SameBody(a: string, b: string, nl: string)
    ensures a + nl == b + nl <==> a == b
  {
    assert |a| == |b| ==> (a + nl)[..|a|] == a && (b + nl)[..|a|] == b;
  }

  // ---- A whole file ----

  /** The text of every line with its own columns renamed, and its ending. */
  method RewriteFile(source: seq<string>, hits: seq<(int, int)>, alnum: char -> bool)
    returns (lines: seq<string>, changed: bool)
    ensures |lines| == |source| && (changed <==> lines != source)
    ensures forall i | 0 <= i < |source| ::
              lines[i] == Renamed(Body(source[i]), ColumnsAt(hits, i), alnum) + Ending(source[i])
    ensures forall i, col | 0 <= i < |source| :: col in ColumnsAt(hits, i) <==> (i + 1, col) in hits
  {
    forall i, col | 0 <= i < |source| ensures col in ColumnsAt(hits, i) <==> (i + 1, col) in hits {
      ColumnsAreHits(hits, i + 1, col);
    }
    lines, changed := RewriteLines(source, hits, RenamerFor(alnum));
  }

  /** In a file without clashes every line is substituted simultaneously; in a file with one, some line is not. */
  lemma FileIsSubstituted(source: seq<string>, hits: seq<(int, int)>, alnum: char -> bool,
                          names: seq<map<nat, string>>)
    requires |names| == |source| && forall i | 0 <= i < |source| :: PicksFor(source, hits, alnum, i, names[i])
    ensures (forall i | 0 <= i < |source| ::
               Renamed(Body(source[i]), ColumnsAt(hits, i), alnum) == Subst(Body(source[i]), names[i], 0))
            <==> forall i | 0 <= i < |source| :: !Clash(Body(source[i]), alnum, ColumnsAt(hits, i))
  {
    forall i | 0 <= i < |source|
      ensures Renamed(Body(source[i]), ColumnsAt(hits, i), alnum) == Subst(Body(source[i]), names[i], 0)
              <==> !Clash(Body(source[i]), alnum, ColumnsAt(hits, i))
    {
      assert PicksFor(source, hits, alnum, i, names[i]);
      SplicingIsSubstitution(Body(source[i]), ColumnsAt(hits, i), alnum, names[i]);
    }
  }

  /** A name for exactly the characters of line i that have a span. */
  ghost predicate PicksFor(source: seq<string>, hits: seq<(int, int)>, alnum: char -> bool, i: nat,
                           names: map<nat, string>)
    requires i < |source|
  {
    var cs := SortedSet(ColumnsAt(hits, i));
    Picks(names, SpansOf(Body(source[i]), alnum, cs, |cs|))
  }
}
