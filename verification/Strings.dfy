/** The text operations that several of the modelled scripts use. */
module Strings {
  predicate OccursAt(s: string, p: string, i: int) {
    0 <= i && i + |p| <= |s| && s[i..i + |p|] == p
  }

  /** s.find(p, from): the first occurrence from there on, or -1. */
  function Find(s: string, p: string, from: nat): (i: int)
    ensures i == -1 || (from <= i && OccursAt(s, p, i))
    ensures forall k | from <= k && (i == -1 || k < i) :: !OccursAt(s, p, k)
    decreases |s| - from
  {
    if from + |p| > |s| then -1
    else if OccursAt(s, p, from) then from
    else Find(s, p, from + 1)
  }

  /** s.rfind(p, 0, end): the last occurrence that ends by `end`, or -1. */
  function FindLast(s: string, p: string, end: nat): (i: int)
    requires end <= |s|
    ensures i == -1 || (OccursAt(s, p, i) && i + |p| <= end)
    ensures forall k | i < k && k + |p| <= end :: !OccursAt(s, p, k)
    decreases end
  {
    if end < |p| then -1
    else if OccursAt(s, p, end - |p|) then end - |p|
    else if end == 0 then -1
    else FindLast(s, p, end - 1)
  }

  /** str() of a natural number. */
  function Decimal(n: nat): string {
    if n < 10 then [('0' as int + n) as char] else Decimal(n / 10) + [('0' as int + n % 10) as char]
  }

  predicate IsDigit(c: char) { '0' <= c <= '9' }

  /** The number that a decimal text stands for. */
  function NumberOf(digits: string): int {
    if digits == "" then 0
    else 10 * NumberOf(digits[..|digits| - 1]) + (digits[|digits| - 1] as int - '0' as int)
  }

  /** What is written is what is read. */
  lemma {:induction false} DecimalReads(n: nat)
    ensures NumberOf(Decimal(n)) == n && Decimal(n) != "" && forall c | c in Decimal(n) :: IsDigit(c)
  {
    if n >= 10 {
      DecimalReads(n / 10);
      var d := ('0' as int + n % 10) as char;
      assert Decimal(n) == Decimal(n / 10) + [d];
      assert Decimal(n)[..|Decimal(n)| - 1] == Decimal(n / 10);
    } else {
      var d := ('0' as int + n) as char;
      assert Decimal(n) == [d];
      assert [d][..0] == "";
      assert NumberOf([d]) == 10 * NumberOf("") + (d as int - '0' as int);
    }
  }

  predicate EndsWith(s: string, suffix: string) {
    |suffix| <= |s| && s[|s| - |suffix|..] == suffix
  }

  lemma Associate(a: string, b: string, c: string)
    ensures a + b + c == a + (b + c)
  {
  }
}
