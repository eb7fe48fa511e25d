/** The literal translation of scripts/generate_manifest.py: JSON text is scanned once, and
    true, false and null become True, False and None wherever they are values. */
module LiteralScanner {
  datatype Literals = Literals(yes: string, no: string, nothing: string)

  const JSON := Literals("true", "false", "null")
  const PYTHON := Literals("True", "False", "None")

  predicate StartsWith(s: string, p: string) {
    |p| <= |s| && s[..|p|] == p
  }

  /** `alnum` stands for Python's str.isalnum on one character. */
  predicate WordAt(alnum: char -> bool, before: bool, rest: string, word: string) {
    !before && StartsWith(rest, word) && (|rest| == |word| || !alnum(rest[|word|]))
  }

  /** The scan of `rest`; `before` says whether an alphanumeric character came just before. */
  function Scan(alnum: char -> bool, before: bool, rest: string, inString: bool, escape: bool): string
    decreases |rest|
  {
    if rest == "" then ""
    else
      var ch, next := rest[0], alnum(rest[0]);
      if escape then [ch] + Scan(alnum, next, rest[1..], inString, false)
      else if ch == '\\' && inString then [ch] + Scan(alnum, next, rest[1..], inString, true)
      else if ch == '\"' then [ch] + Scan(alnum, next, rest[1..], !inString, false)
      else if inString then [ch] + Scan(alnum, next, rest[1..], inString, false)
      else if WordAt(alnum, before, rest, "true") then "True" + Scan(alnum, alnum('e'), rest[4..], false, false)
      else if WordAt(alnum, before, rest, "false") then "False" + Scan(alnum, alnum('e'), rest[5..], false, false)
      else if WordAt(alnum, before, rest, "null") then "None" + Scan(alnum, alnum('l'), rest[4..], false, false)
      else [ch] + Scan(alnum, next, rest[1..], false, false)
  }

  /** The scan of text from position i on. */
  ghost function ScanAt(alnum: char -> bool, text: string, i: nat, inString: bool, escape: bool): string
    requires i <= |text|
  {
    Scan(alnum, i > 0 && alnum(text[i - 1]), text[i..], inString, escape)
  }

  /** Outside keywords the scan copies one character and updates its two flags. */
  lemma CopyStep(alnum: char -> bool, text: string, i: nat, inString: bool, escape: bool, done: string)
    requires i < |text|
    requires inString || escape || text[i] == '\"' || NoKeywordAt(text, alnum, i)
    ensures var ch := text[i];
            var s' := if !escape && ch == '\"' then !inString else inString;
            var e' := !escape && ch == '\\' && inString;
            done + ScanAt(alnum, text, i, inString, escape) == done + [ch] + ScanAt(alnum, text, i + 1, s', e')
  {
    assert text[i..][1..] == text[i + 1..];
    MatchesIsWordAt(text, alnum, i);
    var s' := if !escape && text[i] == '\"' then !inString else inString;
    var e' := !escape && text[i] == '\\' && inString;
    assert ScanAt(alnum, text, i, inString, escape) == [text[i]] + ScanAt(alnum, text, i + 1, s', e');
  }

  ghost predicate NoKeywordAt(text: string, alnum: char -> bool, i: nat) {
    !Matches(text, alnum, i, "true") && !Matches(text, alnum, i, "false") && !Matches(text, alnum, i, "null")
  }

  lemma KeywordStep(alnum: char -> bool, text: string, i: nat, word: string, value: string, done: string)
    requires i < |text| && Matches(text, alnum, i, word)
    requires (word, value) in [("true", "True"), ("false", "False"), ("null", "None")]
    ensures done + ScanAt(alnum, text, i, false, false) == done + value + ScanAt(alnum, text, i + |word|, false, false)
  {
    assert text[i..][|word|..] == text[i + |word|..];
    assert text[i + |word| - 1] == word[|word| - 1];
    assert text[i] == word[0];
    MatchesIsWordAt(text, alnum, i);
  }

  method JsonToPython(text: string, alnum: char -> bool) returns (result: string)
    ensures result == Scan(alnum, false, text, false, false)
  {
    result := "";
    var inString, escape, i := false, false, 0;
    assert text[0..] == text;
    while i < |text|
      invariant 0 <= i <= |text| && !(escape && !inString)
      invariant result + ScanAt(alnum, text, i, inString, escape) == Scan(alnum, false, text, false, false)
    {
      var ch := text[i];
      if escape {
        CopyStep(alnum, text, i, inString, escape, result);
        result := result + [ch];
        escape := false;
        i := i + 1;
        continue;
      }
      if ch == '\\' && inString {
        CopyStep(alnum, text, i, inString, escape, result);
        result := result + [ch];
        escape := true;
        i := i + 1;
        continue;
      }
      if ch == '\"' {
        CopyStep(alnum, text, i, inString, escape, result);
        inString := !inString;
        result := result + [ch];
        i := i + 1;
        continue;
      }
      if inString {
        CopyStep(alnum, text, i, inString, escape, result);
        result := result + [ch];
        i := i + 1;
        continue;
      }
      var word, value := FindKeyword(text, alnum, i);
      if word != "" {
        KeywordStep(alnum, text, i, word, value, result);
        result := result + value;
        i := i + |word|;
      } else {
        CopyStep(alnum, text, i, inString, escape, result);
        result := result + [ch];
        i := i + 1;
      }
    }
  }

  /** The keyword loop: the first keyword that stands at position i as a whole word, if any. */
  method FindKeyword(text: string, alnum: char -> bool, i: nat) returns (word: string, value: string)
    requires i < |text|
    ensures word != "" ==> Matches(text, alnum, i, word)
                           && (word, value) in [("true", "True"), ("false", "False"), ("null", "None")]
    ensures word == "" ==> NoKeywordAt(text, alnum, i)
  {
    var words := [("true", "True"), ("false", "False"), ("null", "None")];
    for k := 0 to 3
      invariant forall m | 0 <= m < k :: !Matches(text, alnum, i, words[m].0)
    {
      if Matches(text, alnum, i, words[k].0) {
        return words[k].0, words[k].1;
      }
    }
    assert !Matches(text, alnum, i, words[0].0) && !Matches(text, alnum, i, words[1].0)
           && !Matches(text, alnum, i, words[2].0);
    return "", "";
  }

  /** The test of the keyword loop: the slice, and whole-word checks on both sides. */
  predicate Matches(text: string, alnum: char -> bool, i: nat, word: string) {
    && i + |word| <= |text| && text[i..i + |word|] == word
    && (i == 0 || !alnum(text[i - 1]))
    && (i + |word| >= |text| || !alnum(text[i + |word|]))
  }

  lemma MatchesIsWordAt(text: string, alnum: char -> bool, i: nat)
    requires i < |text|
    ensures forall word :: Matches(text, alnum, i, word)
                           <==> WordAt(alnum, i > 0 && alnum(text[i - 1]), text[i..], word)
  {
    forall word
      ensures Matches(text, alnum, i, word) <==> WordAt(alnum, i > 0 && alnum(text[i - 1]), text[i..], word)
    {
      if i + |word| <= |text| {
        assert text[i..][..|word|] == text[i..i + |word|];
      }
    }
  }
}
