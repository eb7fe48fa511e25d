/** JSON values as json.dumps prints them, and the theorem that scanning the printed text is
    the same as printing with Python's words. */
module LiteralTheorem {
  import opened LiteralScanner
  import opened Strings

  datatype Json =
    | Null
    | Bool(b: bool)
    | Number(text: string)
    | Text(chars: string)
    | Array(items: seq<Json>)
    | Object(fields: seq<Field>)

  datatype Field = Field(name: string, value: Json)

  /** The characters of a JSON number (RFC 8259, section 6). */
  predicate NumberChar(c: char) {
    '0' <= c <= '9' || c in "+-.eE"
  }

  /** The characters that json.dumps puts between values. */
  predicate Separator(c: char) {
    c in "[]{},: \n"
  }

  ghost predicate WellFormed(v: Json)
    decreases v
  {
    match v
    case Number(t) => t != "" && forall c | c in t :: NumberChar(c)
    case Array(items) => forall x | x in items :: WellFormed(x)
    case Object(fields) => forall f | f in fields :: WellFormed(f.value)
    case _ => true
  }

  // ---------- Printing ----------

  function Hex(n: nat): char
    requires n < 16
  {
    "0123456789abcdef"[n]
  }

  /** One character of a string, escaped as ensure_ascii=False does (RFC 8259, section 7). */
  function Escaped(c: char): string {
    if c == '\"' then "\\\""
    else if c == '\\' then "\\\\"
    else if c == '\n' then "\\n"
    else if c == '\r' then "\\r"
    else if c == '\t' then "\\t"
    else if c as int == 8 then "\\b"
    else if c as int == 12 then "\\f"
    else if c as int < 32 then "\\u00" + [Hex(c as int / 16), Hex(c as int % 16)]
    else [c]
  }

  function EscapedText(s: string): string {
    if s == "" then "" else Escaped(s[0]) + EscapedText(s[1..])
  }

  function Quoted(s: string): string {
    "\"" + EscapedText(s) + "\""
  }

  function Spaces(n: nat): string {
    if n == 0 then "" else " " + Spaces(n - 1)
  }

  function NewLine(indent: nat, level: nat): string {
    "\n" + Spaces(indent * level)
  }

  /** json.dumps(v, indent=indent, ensure_ascii=False) with the given words for literals. */
  function Print(v: Json, words: Literals, indent: nat, level: nat): string
    decreases v, 0
  {
    match v
    case Null => words.nothing
    case Bool(b) => if b then words.yes else words.no
    case Number(t) => t
    case Text(s) => Quoted(s)
    case Array(items) =>
      if items == [] then "[]"
      else "[" + NewLine(indent, level + 1) + PrintItems(items, words, indent, level + 1) + NewLine(indent, level) + "]"
    case Object(fields) =>
      if fields == [] then "{}"
      else "{" + NewLine(indent, level + 1) + PrintFields(fields, words, indent, level + 1)
           + NewLine(indent, level) + "}"
  }

  function PrintItems(items: seq<Json>, words: Literals, indent: nat, level: nat): string
    requires items != []
    decreases items, 1
  {
    Print(items[0], words, indent, level)
    + if |items| == 1 then "" else "," + NewLine(indent, level) + PrintItems(items[1..], words, indent, level)
  }

  function PrintFields(fields: seq<Field>, words: Literals, indent: nat, level: nat): string
    requires fields != []
    decreases fields, 1
  {
    Quoted(fields[0].name) + ": " + Print(fields[0].value, words, indent, level)
    + if |fields| == 1 then "" else "," + NewLine(indent, level) + PrintFields(fields[1..], words, indent, level)
  }

  // ---------- Scanning what was printed ----------

  /** What is known of str.isalnum: it is false of the characters between values. */
  ghost predicate Plausible(alnum: char -> bool) {
    forall c | Separator(c) :: !alnum(c)
  }

  /** Text that may follow a value. */
  predicate AfterValue(post: string) {
    post == "" || Separator(post[0])
  }

  /** Reading p outside strings, with no word before it, writes q and leaves the scan as it was. */
  ghost predicate Passes(alnum: char -> bool, p: string, q: string, post: string) {
    Scan(alnum, false, p + post, false, false) == q + Scan(alnum, false, post, false, false)
  }

  lemma PrevDoesNotMatter(alnum: char -> bool, before: bool, post: string)
    requires AfterValue(post)
    ensures Scan(alnum, before, post, false, false) == Scan(alnum, false, post, false, false)
  {
  }

  lemma SeparatorPasses(alnum: char -> bool, c: char, rest: string)
    requires Plausible(alnum) && Separator(c)
    ensures Scan(alnum, false, [c] + rest, false, false) == [c] + Scan(alnum, false, rest, false, false)
  {
    CopyHead(alnum, false, c, rest);
  }

  lemma OneMoreSeparator(alnum: char -> bool, c: char, p: string, post: string)
    requires Plausible(alnum) && Separator(c) && Passes(alnum, p, p, post)
    ensures Passes(alnum, [c] + p, [c] + p, post)
  {
    SeparatorPasses(alnum, c, p + post);
    Associate([c], p, post);
    Associate([c], p, Scan(alnum, false, post, false, false));
  }

  lemma {:induction false} SeparatorsPass(alnum: char -> bool, p: string, post: string)
    requires Plausible(alnum) && forall c | c in p :: Separator(c)
    ensures Passes(alnum, p, p, post)
  {
    if p == "" {
      assert p + post == post;
    } else {
      assert p[0] in p && p == [p[0]] + p[1..];
      SeparatorsPass(alnum, p[1..], post);
      OneMoreSeparator(alnum, p[0], p[1..], post);
    }
  }

  /** Outside strings, a character that starts no keyword is copied. */
  lemma CopyHead(alnum: char -> bool, before: bool, c: char, rest: string)
    requires c != '\"' && c !in "tfn"
    ensures Scan(alnum, before, [c] + rest, false, false) == [c] + Scan(alnum, alnum(c), rest, false, false)
  {
    assert ([c] + rest)[1..] == rest && ([c] + rest)[0] == c;
    assert forall w | StartsWith([c] + rest, w) && w != "" :: w[0] == c;
  }

  lemma NumberCharIsPlain(c: char)
    requires NumberChar(c)
    ensures c != '\"' && c !in "tfn"
  {
  }

  lemma OneMore(all: string, c: char, rest: string, tail: string)
    requires all == [c] + (rest + tail)
    ensures all == [c] + rest + tail
  {
  }

  lemma {:induction false} NumberPasses(alnum: char -> bool, before: bool, p: string, post: string)
    requires AfterValue(post) && forall c | c in p :: NumberChar(c)
    ensures Scan(alnum, before, p + post, false, false) == p + Scan(alnum, false, post, false, false)
    decreases p
  {
    if p == "" {
      assert p + post == post;
      PrevDoesNotMatter(alnum, before, post);
    } else {
      var c, rest := p[0], p[1..];
      assert p == [c] + rest && p + post == [c] + (rest + post);
      assert c in p && forall x | x in rest :: x in p;
      NumberCharIsPlain(c);
      NumberPasses(alnum, alnum(c), rest, post);
      CopyHead(alnum, before, c, rest + post);
      OneMore(Scan(alnum, before, p + post, false, false), c, rest, Scan(alnum, false, post, false, false));
    }
  }

  /** Inside a string, characters other than quote and backslash pass. */
  lemma InsideCharPasses(alnum: char -> bool, before: bool, c: char, rest: string)
    requires c != '\"' && c != '\\'
    ensures Scan(alnum, before, [c] + rest, true, false) == [c] + Scan(alnum, alnum(c), rest, true, false)
  {
    assert ([c] + rest)[1..] == rest;
  }

  lemma InsideEscapePasses(alnum: char -> bool, before: bool, c: char, rest: string)
    ensures Scan(alnum, before, ['\\', c] + rest, true, false) == ['\\', c] + Scan(alnum, alnum(c), rest, true, false)
  {
    assert (['\\', c] + rest)[1..] == [c] + rest && ([c] + rest)[1..] == rest;
    assert Scan(alnum, before, ['\\', c] + rest, true, false)
        == ['\\'] + Scan(alnum, alnum('\\'), [c] + rest, true, true);
    assert Scan(alnum, alnum('\\'), [c] + rest, true, true) == [c] + Scan(alnum, alnum(c), rest, true, false);
    assert ['\\'] + [c] == ['\\', c];
  }

  /** The flag for the character before does not matter inside a string. */
  lemma {:induction false} BeforeIsUnusedInside(alnum: char -> bool, a: bool, b: bool, rest: string)
    ensures Scan(alnum, a, rest, true, false) == Scan(alnum, b, rest, true, false)
  {
  }

  lemma EscapedPasses(alnum: char -> bool, before: bool, c: char, rest: string)
    ensures Scan(alnum, before, Escaped(c) + rest, true, false) == Escaped(c) + Scan(alnum, false, rest, true, false)
  {
    var e := Escaped(c);
    if |e| == 1 {
      InsideCharPasses(alnum, before, c, rest);
      BeforeIsUnusedInside(alnum, alnum(c), false, rest);
    } else if |e| == 2 {
      assert e == ['\\', e[1]];
      InsideEscapePasses(alnum, before, e[1], rest);
      BeforeIsUnusedInside(alnum, alnum(e[1]), false, rest);
    } else {
      UnicodePasses(alnum, before, Hex(c as int / 16), Hex(c as int % 16), rest);
    }
  }

  lemma UnicodePasses(alnum: char -> bool, before: bool, h: char, l: char, rest: string)
    requires h != '\"' && h != '\\' && l != '\"' && l != '\\'
    ensures Scan(alnum, before, "\\u00" + [h, l] + rest, true, false)
         == "\\u00" + [h, l] + Scan(alnum, false, rest, true, false)
  {
    var r4 := [l] + rest;
    var r3 := [h] + r4;
    var r2 := ['0'] + r3;
    var r1 := ['0'] + r2;
    assert "\\u00" + [h, l] + rest == ['\\', 'u'] + r1;
    InsideEscapePasses(alnum, before, 'u', r1);
    InsideCharPasses(alnum, alnum('u'), '0', r2);
    InsideCharPasses(alnum, alnum('0'), '0', r3);
    InsideCharPasses(alnum, alnum('0'), h, r4);
    InsideCharPasses(alnum, alnum(h), l, rest);
    BeforeIsUnusedInside(alnum, alnum(l), false, rest);
    var tail := Scan(alnum, false, rest, true, false);
    assert ['\\', 'u'] + (['0'] + (['0'] + ([h] + ([l] + tail)))) == "\\u00" + [h, l] + tail;
  }

  lemma {:induction false} EscapedTextPasses(alnum: char -> bool, s: string, rest: string)
    ensures Scan(alnum, false, EscapedText(s) + rest, true, false)
         == EscapedText(s) + Scan(alnum, false, rest, true, false)
  {
    if s == "" {
      assert EscapedText(s) + rest == rest;
    } else {
      var e, t := Escaped(s[0]), EscapedText(s[1..]);
      assert EscapedText(s) == e + t;
      Associate(e, t, rest);
      EscapedPasses(alnum, false, s[0], t + rest);
      EscapedTextPasses(alnum, s[1..], rest);
      Associate(e, t, Scan(alnum, false, rest, true, false));
    }
  }

  lemma QuoteFlips(alnum: char -> bool, before: bool, rest: string, inString: bool)
    ensures Scan(alnum, before, "\"" + rest, inString, false) == "\"" + Scan(alnum, alnum('\"'), rest, !inString, false)
  {
    assert ("\"" + rest)[1..] == rest;
  }

  /** A string literal passes unchanged, whatever quotes, backslashes or words it contains. */
  lemma QuotedPasses(alnum: char -> bool, s: string, post: string)
    requires AfterValue(post)
    ensures Passes(alnum, Quoted(s), Quoted(s), post)
  {
    var t := EscapedText(s);
    var close := "\"" + post;
    assert Quoted(s) + post == "\"" + (t + close);
    QuoteFlips(alnum, false, t + close, false);
    BeforeIsUnusedInside(alnum, alnum('\"'), false, t + close);
    EscapedTextPasses(alnum, s, close);
    QuoteFlips(alnum, false, post, true);
    PrevDoesNotMatter(alnum, alnum('\"'), post);
    InQuotes(Scan(alnum, false, Quoted(s) + post, false, false), Scan(alnum, false, t + close, true, false),
             Scan(alnum, false, close, true, false), Scan(alnum, false, post, false, false), t);
  }

  lemma InQuotes(r0: string, r1: string, r2: string, r3: string, t: string)
    requires r0 == "\"" + r1 && r1 == t + r2 && r2 == "\"" + r3
    ensures r0 == "\"" + t + "\"" + r3
  {
  }

  lemma WordPasses(alnum: char -> bool, word: string, value: string, post: string)
    requires Plausible(alnum) && AfterValue(post)
    requires (word, value) in [("true", "True"), ("false", "False"), ("null", "None")]
    ensures Passes(alnum, word, value, post)
  {
    var t := word + post;
    assert t[..|word|] == word && t[|word|..] == post && t[0] == word[0];
    assert StartsWith(t, word) && WordAt(alnum, false, t, word);
    PrevDoesNotMatter(alnum, alnum(word[|word| - 1]), post);
  }

  /** Two pieces that pass, one after the other. */
  lemma Then(alnum: char -> bool, p1: string, q1: string, p2: string, q2: string, post: string)
    requires Passes(alnum, p1, q1, p2 + post) && Passes(alnum, p2, q2, post)
    ensures Passes(alnum, p1 + p2, q1 + q2, post)
  {
    assert p1 + p2 + post == p1 + (p2 + post);
  }

  lemma {:induction false} SpacesAreSeparators(n: nat)
    ensures forall c | c in Spaces(n) :: Separator(c)
  {
    if n > 0 {
      SpacesAreSeparators(n - 1);
    }
  }

  lemma GapIsSeparators(open: string, indent: nat, level: nat, close: string)
    requires (forall c | c in open :: Separator(c)) && forall c | c in close :: Separator(c)
    ensures forall c | c in open + NewLine(indent, level) + close :: Separator(c)
  {
    SpacesAreSeparators(indent * level);
  }

  /** A bracket or comma, then a line break. */
  lemma OpenPasses(alnum: char -> bool, open: string, indent: nat, level: nat, post: string)
    requires Plausible(alnum) && open != "" && forall c | c in open :: Separator(c)
    ensures var gap := open + NewLine(indent, level);
            Passes(alnum, gap, gap, post) && AfterValue(gap + post)
  {
    var gap := open + NewLine(indent, level);
    GapIsSeparators(open, indent, level, "");
    assert gap + "" == gap;
    SeparatorsPass(alnum, gap, post);
    assert gap[0] in gap && (gap + post)[0] == gap[0];
  }

  /** A line break, then a bracket. */
  lemma ClosePasses(alnum: char -> bool, close: string, indent: nat, level: nat, post: string)
    requires Plausible(alnum) && forall c | c in close :: Separator(c)
    ensures var gap := NewLine(indent, level) + close;
            Passes(alnum, gap, gap, post) && AfterValue(gap + post)
  {
    var gap := NewLine(indent, level) + close;
    GapIsSeparators("", indent, level, close);
    assert "" + NewLine(indent, level) + close == gap;
    SeparatorsPass(alnum, gap, post);
    assert gap[0] in gap && (gap + post)[0] == gap[0];
  }

  /** The translation commutes with printing, for any value in any place. */
  lemma {:induction false} ValuePasses(alnum: char -> bool, v: Json, indent: nat, level: nat, post: string)
    requires Plausible(alnum) && WellFormed(v) && AfterValue(post)
    ensures Passes(alnum, Print(v, JSON, indent, level), Print(v, PYTHON, indent, level), post)
    decreases v, 0
  {
    match v
    case Null => WordPasses(alnum, "null", "None", post);
    case Bool(b) =>
      if b {
        WordPasses(alnum, "true", "True", post);
      } else {
        WordPasses(alnum, "false", "False", post);
      }
    case Number(t) => NumberPasses(alnum, false, t, post);
    case Text(s) => QuotedPasses(alnum, s, post);
    case Array(items) =>
      if items == [] {
        SeparatorsPass(alnum, "[]", post);
      } else {
        ClosePasses(alnum, "]", indent, level, post);
        ItemsPass(alnum, items, indent, level + 1, NewLine(indent, level) + "]" + post);
        Enclosed(alnum, "[", "]", PrintItems(items, JSON, indent, level + 1),
                 PrintItems(items, PYTHON, indent, level + 1), indent, level, post);
      }
    case Object(fields) =>
      if fields == [] {
        SeparatorsPass(alnum, "{}", post);
      } else {
        ClosePasses(alnum, "}", indent, level, post);
        FieldsPass(alnum, fields, indent, level + 1, NewLine(indent, level) + "}" + post);
        Enclosed(alnum, "{", "}", PrintFields(fields, JSON, indent, level + 1),
                 PrintFields(fields, PYTHON, indent, level + 1), indent, level, post);
      }
  }

  lemma Enclosed(alnum: char -> bool, open: string, close: string, p: string, q: string,
                 indent: nat, level: nat, post: string)
    requires Plausible(alnum) && open != ""
    requires (forall c | c in open :: Separator(c)) && forall c | c in close :: Separator(c)
    requires Passes(alnum, p, q, NewLine(indent, level) + close + post)
    ensures Passes(alnum, open + NewLine(indent, level + 1) + p + NewLine(indent, level) + close,
                   open + NewLine(indent, level + 1) + q + NewLine(indent, level) + close, post)
  {
    var front, back := open + NewLine(indent, level + 1), NewLine(indent, level) + close;
    ClosePasses(alnum, close, indent, level, post);
    OpenPasses(alnum, open, indent, level + 1, p + back + post);
    Between(alnum, front, p, q, back, post);
    Regroup(front, p, NewLine(indent, level), close);
    Regroup(front, q, NewLine(indent, level), close);
  }

  lemma Regroup(a: string, b: string, c: string, d: string)
    ensures a + (b + (c + d)) == a + b + c + d
  {
  }

  lemma Between(alnum: char -> bool, front: string, p: string, q: string, back: string, post: string)
    requires Passes(alnum, front, front, p + back + post) && Passes(alnum, p, q, back + post)
    requires Passes(alnum, back, back, post)
    ensures Passes(alnum, front + (p + back), front + (q + back), post)
  {
    Then(alnum, p, q, back, back, post);
    Then(alnum, front, front, p + back, q + back, post);
  }

  lemma {:induction false} ItemsPass(alnum: char -> bool, items: seq<Json>, indent: nat, level: nat, post: string)
    requires Plausible(alnum) && items != [] && AfterValue(post) && forall x | x in items :: WellFormed(x)
    ensures Passes(alnum, PrintItems(items, JSON, indent, level), PrintItems(items, PYTHON, indent, level), post)
    decreases items, 1
  {
    assert items[0] in items;
    var p, q := Print(items[0], JSON, indent, level), Print(items[0], PYTHON, indent, level);
    if |items| == 1 {
      ValuePasses(alnum, items[0], indent, level, post);
      assert p + "" == p && q + "" == q;
    } else {
      var p', q' := PrintItems(items[1..], JSON, indent, level), PrintItems(items[1..], PYTHON, indent, level);
      ItemsPass(alnum, items[1..], indent, level, post);
      Continued(alnum, p', q', indent, level, post);
      ValuePasses(alnum, items[0], indent, level, "," + NewLine(indent, level) + p' + post);
      Then(alnum, p, q, "," + NewLine(indent, level) + p', "," + NewLine(indent, level) + q', post);
    }
  }

  /** A comma, a line break and more. */
  lemma Continued(alnum: char -> bool, p: string, q: string, indent: nat, level: nat, post: string)
    requires Plausible(alnum) && Passes(alnum, p, q, post)
    ensures Passes(alnum, "," + NewLine(indent, level) + p, "," + NewLine(indent, level) + q, post)
    ensures AfterValue("," + NewLine(indent, level) + p + post)
  {
    var gap := "," + NewLine(indent, level);
    OpenPasses(alnum, ",", indent, level, p + post);
    assert gap + (p + post) == gap + p + post;
    Then(alnum, gap, gap, p, q, post);
  }

  lemma {:induction false} FieldsPass(alnum: char -> bool, fields: seq<Field>, indent: nat, level: nat,
                                      post: string)
    requires Plausible(alnum) && fields != [] && AfterValue(post) && forall f | f in fields :: WellFormed(f.value)
    ensures Passes(alnum, PrintFields(fields, JSON, indent, level), PrintFields(fields, PYTHON, indent, level), post)
    decreases fields, 1
  {
    assert fields[0] in fields;
    var key, v := Quoted(fields[0].name), fields[0].value;
    if |fields| == 1 {
      FieldPasses(alnum, fields[0], indent, level, post);
      var p, q := Print(v, JSON, indent, level), Print(v, PYTHON, indent, level);
      assert key + ": " + p + "" == key + ": " + p;
      assert key + ": " + q + "" == key + ": " + q;
    } else {
      var p', q' := PrintFields(fields[1..], JSON, indent, level), PrintFields(fields[1..], PYTHON, indent, level);
      FieldsPass(alnum, fields[1..], indent, level, post);
      Continued(alnum, p', q', indent, level, post);
      FieldPasses(alnum, fields[0], indent, level, "," + NewLine(indent, level) + p' + post);
      Then(alnum, key + ": " + Print(v, JSON, indent, level), key + ": " + Print(v, PYTHON, indent, level),
           "," + NewLine(indent, level) + p', "," + NewLine(indent, level) + q', post);
    }
  }

  lemma {:induction false} FieldPasses(alnum: char -> bool, f: Field, indent: nat, level: nat, post: string)
    requires Plausible(alnum) && WellFormed(f.value) && AfterValue(post)
    ensures Passes(alnum, Quoted(f.name) + ": " + Print(f.value, JSON, indent, level),
                   Quoted(f.name) + ": " + Print(f.value, PYTHON, indent, level), post)
    decreases f, 0
  {
    var p, q := Print(f.value, JSON, indent, level), Print(f.value, PYTHON, indent, level);
    ValuePasses(alnum, f.value, indent, level, post);
    NamedPasses(alnum, f.name, p, q, post);
  }

  /** A value that passes does so behind a name, too. */
  lemma NamedPasses(alnum: char -> bool, name: string, p: string, q: string, post: string)
    requires Plausible(alnum) && Passes(alnum, p, q, post)
    ensures Passes(alnum, Quoted(name) + ": " + p, Quoted(name) + ": " + q, post)
  {
    ColonPasses(alnum, p, q, post);
    QuotedPasses(alnum, name, ": " + p + post);
    Then(alnum, Quoted(name), Quoted(name), ": " + p, ": " + q, post);
    Associate(Quoted(name), ": ", p);
    Associate(Quoted(name), ": ", q);
  }

  lemma ColonPasses(alnum: char -> bool, p: string, q: string, post: string)
    requires Plausible(alnum) && Passes(alnum, p, q, post)
    ensures Passes(alnum, ": " + p, ": " + q, post) && AfterValue(": " + p + post)
  {
    Associate(": ", p, post);
    SeparatorsPass(alnum, ": ", p + post);
    Then(alnum, ": ", ": ", p, q, post);
  }

  /** For every JSON value, translating its text gives the text printed with Python's words. */
  lemma TranslationCommutesWithPrinting(alnum: char -> bool, v: Json, indent: nat)
    requires Plausible(alnum) && WellFormed(v)
    ensures Scan(alnum, false, Print(v, JSON, indent, 0), false, false) == Print(v, PYTHON, indent, 0)
  {
    ValuePasses(alnum, v, indent, 0, "");
    assert Print(v, JSON, indent, 0) + "" == Print(v, JSON, indent, 0);
  }
}
