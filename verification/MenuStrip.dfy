/** The release build's removal of the Debug menu in scripts/build_oxt.py: find the element that
    carries the marker by counting `<node>` tags, and cut it out of the text. */
module MenuStrip {
  import opened Strings
  import opened Wrappers

  const MARKER := "oor:name=\"M17\""

  predicate IsLineEnd(c: char) { c == '\r' || c == '\n' }

  /** lstrip("\r\n"). */
  function LStrip(s: string): string {
    if s != [] && (s[0] == '\r' || s[0] == '\n') then LStrip(s[1..]) else s
  }

  /** What is left begins behind all line ends that the text begins with. */
  lemma {:induction false} LStripCutsLineEnds(s: string)
    ensures var r := LStrip(s);
            && |r| <= |s| && r == s[|s| - |r|..] && (r != [] ==> !IsLineEnd(r[0]))
            && forall i | 0 <= i < |s| - |r| :: IsLineEnd(s[i])
  {
    if s != [] && IsLineEnd(s[0]) {
      LStripCutsLineEnds(s[1..]);
    }
  }

  // ---- The loop ----

  /** The position of the next opening tag as the loop looks for it: a bare tag is only sought when
      no attributed one is left. */
  function NextOpen(content: string, pos: nat): int {
    var attributed := Find(content, "<node ", pos);
    if attributed == -1 then Find(content, "<node>", pos) else attributed
  }

  lemma CloseEndsWithBracket(content: string, close: int)
    requires OccursAt(content, "</node>", close)
    ensures OccursAt(content, ">", close + 6)
  {
    assert content[close..close + 7][6] == '>';
  }

  datatype Move = Stop | CutTo(end: nat) | GoOn(pos: nat, depth: nat)

  /** One turn of the loop. */
  function Turn(content: string, pos: nat, depth: nat): (m: Move)
    ensures m.GoOn? ==> pos < m.pos <= |content|
    ensures m.CutTo? ==> m.end <= |content|
  {
    var open, close := NextOpen(content, pos), Find(content, "</node>", pos);
    if pos >= |content| || close == -1 then Stop
    else if open != -1 && open < close then
      CloseEndsWithBracket(content, close);
      GoOn(Find(content, ">", open) + 1, depth + 1)
    else if depth <= 1 then CutTo(close + 7)
    else GoOn(close + 7, depth - 1)
  }

  /** The text once the loop has run on from pos at this depth. */
  function StripFrom(content: string, tagStart: nat, pos: nat, depth: nat): string
    requires tagStart <= |content|
    decreases |content| - pos
  {
    match Turn(content, pos, depth)
    case Stop => content
    case CutTo(end) => content[..tagStart] + LStrip(content[end..])
    case GoOn(pos', depth') => StripFrom(content, tagStart, pos', depth')
  }

  /** The text without the element around the marker at `start`. */
  function StrippedAt(content: string, start: nat): string
    requires start <= |content|
  {
    var tagStart := FindLast(content, "<node ", start);
    if tagStart == -1 then content
    else StripFrom(content, tagStart, Find(content, ">", start) + 1, 1)
  }

  function Stripped(content: string): string {
    var start := Find(content, MARKER, 0);
    if start == -1 then content else StrippedAt(content, start)
  }

  /** The searches of one turn. */
  method NextTags(content: string, pos: nat) returns (nextOpen: int, nextClose: int)
    ensures nextOpen == NextOpen(content, pos) && nextClose == Find(content, "</node>", pos)
  {
    nextOpen := Find(content, "<node ", pos);
    if nextOpen == -1 {
      nextOpen := Find(content, "<node>", pos);
    }
    nextClose := Find(content, "</node>", pos);
  }

  /** The loop of the build script: it ends on every text, balanced or not. */
  method CutElement(content: string, tagStart: nat, from: nat) returns (result: string)
    requires tagStart <= |content|
    ensures result == StripFrom(content, tagStart, from, 1)
  {
    result := content;
    var depth: nat, pos: nat := 1, from;
    ghost var goal := StripFrom(content, tagStart, from, 1);
    while depth > 0 && pos < |content|
      invariant depth > 0 && result == content
      invariant goal == StripFrom(content, tagStart, pos, depth)
      decreases |content| - pos
    {
      StripFromFollows(content, tagStart, pos, depth);
      ghost var turn := Turn(content, pos, depth);
      var nextOpen, nextClose := NextTags(content, pos);
      if nextClose == -1 {
        break;
      }
      var useOpen := nextOpen != -1 && nextOpen < nextClose;
      if useOpen {
        CloseEndsWithBracket(content, nextClose);
        depth := depth + 1;
        pos := Find(content, ">", nextOpen) + 1;
        assert turn == GoOn(pos, depth);
      } else {
        depth := depth - 1;
        if depth == 0 {
          var endPos := nextClose + 7;
          assert turn == CutTo(endPos);
          result := content[..tagStart] + LStrip(content[endPos..]);
          break;
        }
        pos := nextClose + 7;
        assert turn == GoOn(pos, depth);
      }
    }
  }

  method StripDebugMenu(source: string) returns (content: string)
    ensures content == Stripped(source)
  {
    content := source;
    var start := Find(content, MARKER, 0);
    if start != -1 {
      content := StripAround(content, start);
    }
  }

  /** Behind the search for the marker. */
  method StripAround(source: string, start: nat) returns (content: string)
    requires start <= |source|
    ensures content == StrippedAt(source, start)
  {
    content := source;
    var tagStart := FindLast(content, "<node ", start);
    if tagStart != -1 {
      content := CutElement(content, tagStart, Find(content, ">", start) + 1);
    }
  }

  // ---- Documents ----

  datatype Tag = Open(attributes: string) | SelfClosed(attributes: string) | Bare | Close

  /** A document: its `<node>` tags, and the texts before, between and after them. */
  datatype Document = Document(texts: seq<string>, tags: seq<Tag>)

  datatype Kind = Attributed | Plain | Closing

  function KindOf(t: Tag): Kind {
    match t
    case Open(_) => Attributed
    case SelfClosed(_) => Attributed
    case Bare => Plain
    case Close => Closing
  }

  function Pattern(k: Kind): string {
    match k case Attributed => "<node " case Plain => "<node>" case Closing => "</node>"
  }

  function TagText(t: Tag): string {
    match t
    case Open(a) => "<node " + a + ">"
    case SelfClosed(a) => "<node " + a + "/>"
    case Bare => "<node>"
    case Close => "</node>"
  }

  function Render(texts: seq<string>, tags: seq<Tag>): string
    requires |texts| == |tags| + 1
  {
    if tags == [] then texts[0] else texts[0] + TagText(tags[0]) + Render(texts[1..], tags[1..])
  }

  ghost predicate Without(s: string, p: string) {
    forall i :: !OccursAt(s, p, i)
  }

  /** A text may hold other elements, but no node tag and no unfinished tag. */
  ghost predicate GoodText(t: string) {
    && (forall k: Kind :: Without(t, Pattern(k)))
    && (forall i | 0 <= i < |t| && t[i] == '<' :: exists j :: i < j < |t| && t[j] == '>')
  }

  /** Attributes may hold anything but an opening bracket, also a closing one. */
  ghost predicate GoodTag(t: Tag) {
    && (KindOf(t).Attributed? ==> '<' !in t.attributes)
    && (t.Open? && t.attributes != [] ==> t.attributes[|t.attributes| - 1] != '/')
  }

  ghost predicate WellFormed(texts: seq<string>, tags: seq<Tag>) {
    && |texts| == |tags| + 1
    && (forall i | 0 <= i < |texts| :: GoodText(texts[i]))
    && (forall i | 0 <= i < |tags| :: GoodTag(tags[i]))
  }

  /** What a tag does to the depth of the document. */
  function Step(t: Tag): int {
    match t
    case Open(_) => 1
    case SelfClosed(_) => 0
    case Bare => 1
    case Close => -1
  }

  /** Every closing tag has its opening tag and the other way round, starting from depth d. */
  predicate Balanced(tags: seq<Tag>, d: nat) {
    if tags == [] then d == 0
    else d + Step(tags[0]) >= 0 && Balanced(tags[1..], d + Step(tags[0]))
  }

  /** How many tags it takes to close the d elements that are open. */
  function Match(tags: seq<Tag>, d: nat): Option<nat> {
    if tags == [] then None
    else if tags[0].Close? && d <= 1 then Some(1)
    else
      match Match(tags[1..], d + Step(tags[0]))
      case None => None
      case Some(n) => Some(n + 1)
  }

  ghost predicate HasAttributed(tags: seq<Tag>) {
    exists t | t in tags :: KindOf(t).Attributed?
  }

  // ---- What the loop does to a document's tags ----

  /** What the first tag does to the loop's depth: a self-closed tag counts as opening, and a bare one
      does not as long as an attributed one follows, however far away. */
  ghost function SeenStep(tags: seq<Tag>): int
    requires tags != []
  {
    if tags[0].Close? then -1 else if tags[0].Bare? && HasAttributed(tags[1..]) then 0 else 1
  }

  /** How many tags the loop takes. */
  ghost function Taken(tags: seq<Tag>, d: nat): Option<nat> {
    if tags == [] then None
    else if tags[0].Close? && d <= 1 then Some(1)
    else
      match Taken(tags[1..], d + SeenStep(tags))
      case None => None
      case Some(n) => Some(n + 1)
  }

  /** The depth behind the first n tags, against that before them. */
  function Nested(tags: seq<Tag>, n: nat): int
    requires n <= |tags|
  {
    if n == 0 then 0 else Step(tags[0]) + Nested(tags[1..], n - 1)
  }

  /** The number of self-closed tags among the first n. */
  function SelfClosing(tags: seq<Tag>, n: nat): nat
    requires n <= |tags|
  {
    if n == 0 then 0 else (if tags[0].SelfClosed? then 1 else 0) + SelfClosing(tags[1..], n - 1)
  }

  /** The number of bare tags among the first n that an attributed one follows. */
  ghost function Overlooked(tags: seq<Tag>, n: nat): nat
    requires n <= |tags|
  {
    if n == 0 then 0
    else (if tags[0].Bare? && HasAttributed(tags[1..]) then 1 else 0) + Overlooked(tags[1..], n - 1)
  }

  /** The loop's two errors cancel out at the n-th tag, and its depth has not reached zero before. */
  ghost predicate CountsRight(tags: seq<Tag>, n: nat)
    requires n <= |tags|
  {
    && SelfClosing(tags, n) == Overlooked(tags, n)
    && forall j | 0 <= j < n :: 1 + Nested(tags, j) + SelfClosing(tags, j) > Overlooked(tags, j)
  }

  ghost function Seen(tags: seq<Tag>, n: nat): int
    requires n <= |tags|
  {
    Nested(tags, n) + SelfClosing(tags, n) - Overlooked(tags, n)
  }

  lemma SeenFirst(tags: seq<Tag>, n: nat)
    requires n < |tags|
    ensures Seen(tags, n + 1) == SeenStep(tags) + Seen(tags[1..], n)
  {
  }

  /** From depth d, the depth that `seen` counts is zero behind the n-th tag for the first time. */
  ghost predicate FirstZero(seen: seq<int>, d: int, n: nat) {
    1 <= n < |seen| && d + seen[n] == 0 && forall j | 0 <= j < n :: d + seen[j] > 0
  }

  ghost function AllSeen(tags: seq<Tag>): (seen: seq<int>)
    ensures |seen| == |tags| + 1 && forall j | 0 <= j <= |tags| :: seen[j] == Seen(tags, j)
  {
    seq(|tags| + 1, j requires 0 <= j <= |tags| => Seen(tags, j))
  }

  ghost function AllNested(tags: seq<Tag>): (nested: seq<int>)
    ensures |nested| == |tags| + 1 && forall j | 0 <= j <= |tags| :: nested[j] == Nested(tags, j)
  {
    seq(|tags| + 1, j requires 0 <= j <= |tags| => Nested(tags, j))
  }

  /** A count that goes on behind its first step. */
  lemma FirstZeroStep(seen: seq<int>, rest: seq<int>, step: int, d: int, n: nat)
    requires |seen| == |rest| + 1 && rest != [] && seen[0] == 0 && d > 0
    requires forall j | 0 <= j < |rest| :: seen[j + 1] == step + rest[j]
    requires rest[0] == 0 && d + step > 0
    ensures FirstZero(seen, d, n + 1) <==> n >= 1 && FirstZero(rest, d + step, n)
  {
    if n >= 1 && FirstZero(rest, d + step, n) {
      forall j | 0 <= j < n + 1 ensures d + seen[j] > 0 {
        assert j > 0 ==> seen[(j - 1) + 1] == step + rest[j - 1];
      }
    }
    if FirstZero(seen, d, n + 1) {
      forall j | 0 <= j < n ensures d + step + rest[j] > 0 {
        assert seen[j + 1] == step + rest[j];
      }
    }
  }

  lemma {:induction false} TakenIsFirstZero(tags: seq<Tag>, d: nat, n: nat)
    requires d >= 1
    ensures Taken(tags, d) == Some(n) <==> FirstZero(AllSeen(tags), d, n)
  {
    var seen := AllSeen(tags);
    assert seen[0] == 0;
    if tags != [] {
      var rest := AllSeen(tags[1..]);
      forall j | 0 <= j < |rest| ensures seen[j + 1] == SeenStep(tags) + rest[j] {
        SeenFirst(tags, j);
      }
      if tags[0].Close? && d == 1 {
        assert rest[0] == 0 && seen[0 + 1] == -1;
      } else if n > 0 {
        TakenIsFirstZero(tags[1..], d + SeenStep(tags), n - 1);
        FirstZeroStep(seen, rest, SeenStep(tags), d, n - 1);
      }
    }
  }

  lemma {:induction false} MatchIsFirstZero(tags: seq<Tag>, d: nat, n: nat)
    requires d >= 1
    ensures Match(tags, d) == Some(n) <==> FirstZero(AllNested(tags), d, n)
  {
    var nested := AllNested(tags);
    assert nested[0] == 0;
    if tags != [] {
      var rest := AllNested(tags[1..]);
      assert forall j | 0 <= j < |rest| :: nested[j + 1] == Step(tags[0]) + rest[j];
      if tags[0].Close? && d == 1 {
        assert rest[0] == 0 && nested[0 + 1] == -1;
      } else if n > 0 {
        MatchIsFirstZero(tags[1..], d + Step(tags[0]), n - 1);
        FirstZeroStep(nested, rest, Step(tags[0]), d, n - 1);
      }
    }
  }

  /** The loop takes the true matching tag exactly if it counts right. */
  lemma TakenIsMatch(tags: seq<Tag>, n: nat)
    requires Match(tags, 1) == Some(n)
    ensures 1 <= n <= |tags| && (Taken(tags, 1) == Some(n) <==> CountsRight(tags, n))
  {
    MatchIsFirstZero(tags, 1, n);
    TakenIsFirstZero(tags, 1, n);
    var seen, nested := AllSeen(tags), AllNested(tags);
    assert nested[n] == Nested(tags, n) == -1;
    assert seen[n] == Seen(tags, n);
    if FirstZero(seen, 1, n) {
      forall j | 0 <= j < n ensures 1 + Nested(tags, j) + SelfClosing(tags, j) > Overlooked(tags, j) {
        assert 1 + seen[j] > 0;
      }
    }
    if CountsRight(tags, n) {
      forall j | 0 <= j < n ensures 1 + seen[j] > 0 {
        assert 1 + Nested(tags, j) + SelfClosing(tags, j) > Overlooked(tags, j);
      }
    }
  }

  lemma {:induction false} OverlookedGrows(tags: seq<Tag>, j: nat, n: nat)
    requires j <= n <= |tags|
    ensures Overlooked(tags, j) <= Overlooked(tags, n)
  {
    if j > 0 {
      OverlookedGrows(tags[1..], j - 1, n - 1);
    }
  }

  /** Without overlooked tags the loop counts right exactly if there is no self-closed tag, and the
      other way round. */
  lemma OneErrorAlone(tags: seq<Tag>, n: nat)
    requires Match(tags, 1) == Some(n) && n <= |tags|
    ensures Overlooked(tags, n) == 0 ==> (CountsRight(tags, n) <==> SelfClosing(tags, n) == 0)
    ensures SelfClosing(tags, n) == 0 ==> (CountsRight(tags, n) <==> Overlooked(tags, n) == 0)
  {
    MatchIsFirstZero(tags, 1, n);
    var nested := AllNested(tags);
    forall j | 0 <= j < n ensures Overlooked(tags, j) <= Overlooked(tags, n) && nested[j] == Nested(tags, j) {
      OverlookedGrows(tags, j, n);
    }
  }

  // ---- Searching a document ----

  lemma FindIs(s: string, p: string, from: nat, i: nat)
    requires from <= i && OccursAt(s, p, i) && forall k | from <= k < i :: !OccursAt(s, p, k)
    ensures Find(s, p, from) == i
  {
  }

  lemma FindIsNot(s: string, p: string, from: nat)
    requires forall k | from <= k :: !OccursAt(s, p, k)
    ensures Find(s, p, from) == -1
  {
  }

  lemma OccursShift(a: string, b: string, p: string, i: nat)
    ensures OccursAt(a + b, p, |a| + i) <==> OccursAt(b, p, i)
  {
    if i + |p| <= |b| {
      assert (a + b)[|a| + i..|a| + i + |p|] == b[i..i + |p|];
    }
  }

  /** Searching from the end of a is searching b. */
  lemma FindShift(a: string, b: string, p: string)
    ensures Find(a + b, p, |a|) == if Find(b, p, 0) == -1 then -1 else |a| + Find(b, p, 0)
  {
    forall i: nat ensures OccursAt(a + b, p, |a| + i) <==> OccursAt(b, p, i) {
      OccursShift(a, b, p, i);
    }
    FindShifted(a + b, b, |a|, p);
  }

  lemma FindShifted(s: string, b: string, n: nat, p: string)
    requires forall i: nat :: OccursAt(s, p, n + i) <==> OccursAt(b, p, i)
    ensures Find(s, p, n) == if Find(b, p, 0) == -1 then -1 else n + Find(b, p, 0)
  {
    var r := Find(b, p, 0);
    forall k | n <= k && (r == -1 || k < n + r) ensures !OccursAt(s, p, k) {
      assert OccursAt(s, p, n + (k - n)) <==> OccursAt(b, p, k - n);
    }
    if r == -1 {
      FindIsNot(s, p, n);
    } else {
      FindIs(s, p, n, n + r);
    }
  }

  /** If p does not begin inside a, the search goes on behind it. */
  lemma FindBehind(a: string, b: string, p: string)
    requires forall k | 0 <= k < |a| :: !OccursAt(a + b, p, k)
    ensures Find(a + b, p, 0) == if Find(b, p, 0) == -1 then -1 else |a| + Find(b, p, 0)
  {
    FindShift(a, b, p);
    if Find(a + b, p, |a|) == -1 {
      FindIsNot(a + b, p, 0);
    } else {
      FindIs(a + b, p, 0, Find(a + b, p, |a|));
    }
  }

  lemma PatternShape(k: Kind)
    ensures |Pattern(k)| >= 6 && Pattern(k)[0] == '<'
    ensures forall j | 1 <= j < |Pattern(k)| :: Pattern(k)[j] != '<'
  {
  }

  lemma TagShape(t: Tag)
    requires GoodTag(t)
    ensures |TagText(t)| >= 6 && TagText(t)[0] == '<'
    ensures forall j | 1 <= j < |TagText(t)| :: TagText(t)[j] != '<'
  {
  }

  lemma OccursChar(s: string, p: string, i: nat, j: nat)
    requires j < |p| && i + j < |s|
    ensures OccursAt(s, p, i) ==> s[i + j] == p[j]
  {
    if OccursAt(s, p, i) {
      assert s[i..i + |p|][j] == s[i + j];
    }
  }

  /** A text without p stays without it when something follows that starts with a bracket. */
  lemma NotInText(text: string, rest: string, p: string, i: nat)
    requires Without(text, p) && i < |text| && (rest == [] || rest[0] == '<')
    requires |p| >= 1 && forall j | 1 <= j < |p| :: p[j] != '<'
    ensures !OccursAt(text + rest, p, i)
  {
    var whole := text + rest;
    if i + |p| <= |text| {
      assert text[i..i + |p|] == whole[i..i + |p|];
      assert !OccursAt(text, p, i);
    } else if rest != [] {
      assert whole[|text|] == '<';
      OccursChar(whole, p, i, |text| - i);
    }
  }

  /** Inside a tag no pattern begins. */
  lemma NotInTag(t: Tag, rest: string, k: Kind, i: nat)
    requires GoodTag(t) && 1 <= i < |TagText(t)|
    ensures !OccursAt(TagText(t) + rest, Pattern(k), i)
  {
    TagShape(t);
    PatternShape(k);
    var whole := TagText(t) + rest;
    assert whole[i] != '<';
    OccursChar(whole, Pattern(k), i, 0);
  }

  lemma AttributedTag(t: Tag, rest: string)
    requires KindOf(t).Attributed?
    ensures var s := TagText(t) + rest;
            OccursAt(s, "<node ", 0) && !OccursAt(s, "<node>", 0) && !OccursAt(s, "</node>", 0)
  {
    var s := TagText(t) + rest;
    assert s[..6] == "<node ";
    assert s[5] == ' ' && "<node>"[5] == '>';
    assert s[1] == 'n' && "</node>"[1] == '/';
  }

  lemma BareTag(rest: string)
    ensures var s := TagText(Bare) + rest;
            !OccursAt(s, "<node ", 0) && OccursAt(s, "<node>", 0) && !OccursAt(s, "</node>", 0)
  {
    var s := TagText(Bare) + rest;
    assert s[..6] == "<node>";
    assert s[5] == '>' && "<node "[5] == ' ';
    assert s[1] == 'n' && "</node>"[1] == '/';
  }

  lemma CloseTag(rest: string)
    ensures var s := TagText(Close) + rest;
            !OccursAt(s, "<node ", 0) && !OccursAt(s, "<node>", 0) && OccursAt(s, "</node>", 0)
  {
    var s := TagText(Close) + rest;
    assert s[..7] == "</node>";
    assert s[1] == '/' && "<node "[1] == 'n' && "<node>"[1] == 'n';
  }

  lemma TagMatches(t: Tag, rest: string, k: Kind)
    ensures OccursAt(TagText(t) + rest, Pattern(k), 0) <==> KindOf(t) == k
  {
    match t
    case Open(_) => AttributedTag(t, rest);
    case SelfClosed(_) => AttributedTag(t, rest);
    case Bare => BareTag(rest);
    case Close => CloseTag(rest);
  }

  /** Where the next tag of a kind begins. */
  ghost function NextTag(texts: seq<string>, tags: seq<Tag>, k: Kind): int
    requires |texts| == |tags| + 1
  {
    if tags == [] then -1
    else if KindOf(tags[0]) == k then |texts[0]|
    else
      var r := NextTag(texts[1..], tags[1..], k);
      if r == -1 then -1 else |texts[0]| + |TagText(tags[0])| + r
  }

  lemma RenderShape(texts: seq<string>, tags: seq<Tag>)
    requires |texts| == |tags| + 1
    ensures Render(texts, tags) == texts[0] + AfterText(texts, tags)
    ensures tags != [] ==> AfterText(texts, tags) == TagText(tags[0]) + Render(texts[1..], tags[1..])
  {
    if tags != [] {
      Associate(texts[0], TagText(tags[0]), Render(texts[1..], tags[1..]));
    }
  }

  /** What follows the first text. */
  function AfterText(texts: seq<string>, tags: seq<Tag>): string
    requires |texts| == |tags| + 1
  {
    if tags == [] then "" else TagText(tags[0]) + Render(texts[1..], tags[1..])
  }

  lemma AfterTextStarts(texts: seq<string>, tags: seq<Tag>)
    requires WellFormed(texts, tags)
    ensures AfterText(texts, tags) == [] || AfterText(texts, tags)[0] == '<'
  {
    if tags != [] {
      TagShape(tags[0]);
    }
  }

  lemma FindInTag(t: Tag, rest: string, k: Kind)
    requires GoodTag(t)
    ensures var r := Find(rest, Pattern(k), 0);
            Find(TagText(t) + rest, Pattern(k), 0) ==
            if KindOf(t) == k then 0 else if r == -1 then -1 else |TagText(t)| + r
  {
    TagMatches(t, rest, k);
    var whole := TagText(t) + rest;
    if KindOf(t) == k {
      FindIs(whole, Pattern(k), 0, 0);
    } else {
      forall i | 0 <= i < |TagText(t)| ensures !OccursAt(whole, Pattern(k), i) {
        if i > 0 {
          NotInTag(t, rest, k, i);
        }
      }
      FindBehind(TagText(t), rest, Pattern(k));
    }
  }

  /** A search of the text finds the tags, and nothing else. */
  lemma {:induction false} FindIsNextTag(texts: seq<string>, tags: seq<Tag>, k: Kind)
    requires WellFormed(texts, tags)
    ensures Find(Render(texts, tags), Pattern(k), 0) == NextTag(texts, tags, k)
  {
    var after := AfterText(texts, tags);
    RenderShape(texts, tags);
    AfterTextStarts(texts, tags);
    PatternShape(k);
    forall i | 0 <= i < |texts[0]| ensures !OccursAt(texts[0] + after, Pattern(k), i) {
      NotInText(texts[0], after, Pattern(k), i);
    }
    FindBehind(texts[0], after, Pattern(k));
    if tags != [] {
      FindIsNextTag(texts[1..], tags[1..], k);
      FindInTag(tags[0], Render(texts[1..], tags[1..]), k);
    } else {
      assert Find(after, Pattern(k), 0) == -1;
    }
  }

  // ---- The loop on a document ----

  ghost function OpenAt(texts: seq<string>, tags: seq<Tag>): int
    requires |texts| == |tags| + 1
  {
    var attributed := NextTag(texts, tags, Attributed);
    if attributed == -1 then NextTag(texts, tags, Plain) else attributed
  }

  ghost function Later(n: nat, i: int): int {
    if i == -1 then -1 else n + i
  }

  lemma OpensAndCloses(pre: string, texts: seq<string>, tags: seq<Tag>)
    requires WellFormed(texts, tags)
    ensures var content := pre + Render(texts, tags);
            && NextOpen(content, |pre|) == Later(|pre|, OpenAt(texts, tags))
            && Find(content, "</node>", |pre|) == Later(|pre|, NextTag(texts, tags, Closing))
  {
    forall k: Kind ensures Find(pre + Render(texts, tags), Pattern(k), |pre|) == Later(|pre|, NextTag(texts, tags, k)) {
      FindShift(pre, Render(texts, tags), Pattern(k));
      FindIsNextTag(texts, tags, k);
    }
    assert Pattern(Attributed) == "<node " && Pattern(Plain) == "<node>" && Pattern(Closing) == "</node>";
    NextTagIsNatural(texts, tags, Attributed);
  }

  lemma {:induction false} NextTagIsNatural(texts: seq<string>, tags: seq<Tag>, k: Kind)
    requires |texts| == |tags| + 1
    ensures NextTag(texts, tags, k) == -1 || 0 <= NextTag(texts, tags, k)
  {
    if tags != [] {
      NextTagIsNatural(texts[1..], tags[1..], k);
    }
  }

  lemma {:induction false} AttributedIsFound(texts: seq<string>, tags: seq<Tag>)
    requires |texts| == |tags| + 1
    ensures NextTag(texts, tags, Attributed) == -1 <==> !HasAttributed(tags)
  {
    if tags != [] {
      AttributedIsFound(texts[1..], tags[1..]);
      NextTagIsNatural(texts[1..], tags[1..], Attributed);
      assert forall t :: t in tags <==> t == tags[0] || t in tags[1..];
    }
  }

  lemma {:induction false} NothingTakenWithoutClose(texts: seq<string>, tags: seq<Tag>, c: nat)
    requires |texts| == |tags| + 1 && NextTag(texts, tags, Closing) == -1
    ensures Taken(tags, c) == None
  {
    if tags != [] {
      NextTagIsNatural(texts[1..], tags[1..], Closing);
      NothingTakenWithoutClose(texts[1..], tags[1..],
        c + SeenStep(tags));
    }
  }

  lemma {:induction false} TakenIsInside(tags: seq<Tag>, c: nat)
    requires Taken(tags, c).Some?
    ensures 1 <= Taken(tags, c).value <= |tags|
  {
    if !(tags[0].Close? && c <= 1) {
      TakenIsInside(tags[1..], c + SeenStep(tags));
    }
  }

  /** From inside a tag the loop finds a closing bracket in it, the last or one in the attributes. */
  lemma BracketInTag(left: string, t: Tag, right: string, from: nat)
    requires |left| <= from < |left| + |TagText(t)|
    ensures from < Find(left + TagText(t) + right, ">", from) + 1 <= |left| + |TagText(t)|
  {
    var s, end := left + TagText(t) + right, |left| + |TagText(t)| - 1;
    assert s[end] == TagText(t)[|TagText(t)| - 1] == '>';
    assert s[end..end + 1] == ">";
    assert OccursAt(s, ">", end);
  }

  lemma FindSkip(s: string, p: string, from: nat, to: nat)
    requires from <= to && forall i | from <= i < to :: !OccursAt(s, p, i)
    ensures Find(s, p, from) == Find(s, p, to)
  {
  }

  /** Nothing that the loop looks for begins inside a tag, so from there it sees what it sees from behind. */
  lemma SameFindsInTag(left: string, t: Tag, right: string, p: nat, k: Kind)
    requires GoodTag(t) && |left| < p <= |left| + |TagText(t)|
    ensures var s := left + TagText(t) + right;
            Find(s, Pattern(k), p) == Find(s, Pattern(k), |left| + |TagText(t)|)
  {
    var s, m := left + TagText(t) + right, |left| + |TagText(t)|;
    Associate(left, TagText(t), right);
    forall i | p <= i < m ensures !OccursAt(s, Pattern(k), i) {
      OccursShift(left, TagText(t) + right, Pattern(k), i - |left|);
      NotInTag(t, right, k, i - |left|);
    }
    FindSkip(s, Pattern(k), p, m);
  }

  lemma SameFindsSameTurn(s: string, p: nat, m: nat, d: nat)
    requires p <= m && NextOpen(s, p) == NextOpen(s, m) && Find(s, "</node>", p) == Find(s, "</node>", m)
    ensures Turn(s, p, d) == Turn(s, m, d)
  {
  }

  /** The loop's view of the first tag. */
  lemma FirstTag(texts: seq<string>, tags: seq<Tag>)
    requires |texts| == |tags| + 1 && tags != []
    ensures var o, c := OpenAt(texts, tags), NextTag(texts, tags, Closing);
            var w := |texts[0]| + |TagText(tags[0])|;
            var o', c' := Later(w, OpenAt(texts[1..], tags[1..])), Later(w, NextTag(texts[1..], tags[1..], Closing));
            if tags[0].Close? then c == |texts[0]| && o == o' && (o == -1 || o > c)
            else if tags[0].Bare? && HasAttributed(tags[1..]) then c == c' && o == o'
            else o == |texts[0]| && c == c' && (c == -1 || c > o)
  {
    forall k: Kind ensures NextTag(texts[1..], tags[1..], k) >= -1 {
      NextTagIsNatural(texts[1..], tags[1..], k);
    }
    AttributedIsFound(texts[1..], tags[1..]);
    assert |TagText(tags[0])| >= 6;
  }

  /** The document split behind its first tag. */
  lemma SplitFirst(pre: string, texts: seq<string>, tags: seq<Tag>)
    requires |texts| == |tags| + 1 && tags != []
    ensures var behind := pre + texts[0] + TagText(tags[0]);
            && pre + Render(texts, tags) == behind + Render(texts[1..], tags[1..])
            && pre + Render(texts, tags) == pre + texts[0] + TagText(tags[0]) + Render(texts[1..], tags[1..])
            && |behind| == |pre| + |texts[0]| + |TagText(tags[0])|
  {
    var a, b, c := texts[0], TagText(tags[0]), Render(texts[1..], tags[1..]);
    assert pre + (a + b + c) == pre + a + b + c;
  }

  /** A turn depends on the text only through what is found. */
  ghost function Chosen(open: int, close: int, bracket: nat, d: nat): Move
    requires close >= -1 && d >= 1
  {
    if close == -1 then Stop
    else if open != -1 && open < close then GoOn(bracket, d + 1)
    else if d <= 1 then CutTo(close + 7)
    else GoOn(close + 7, d - 1)
  }

  ghost function Bracket(content: string, open: int): nat {
    if open < 0 then 0 else Find(content, ">", open) + 1
  }

  lemma TurnIsChosen(content: string, pos: nat, d: nat)
    requires d >= 1
    ensures var open := NextOpen(content, pos);
            Turn(content, pos, d) == Chosen(open, Find(content, "</node>", pos), Bracket(content, open), d)
  {
  }

  ghost function TurnAt(content: string, n: nat, texts: seq<string>, tags: seq<Tag>, d: nat): Move
    requires |texts| == |tags| + 1 && NextTag(texts, tags, Closing) >= -1 && d >= 1
  {
    var open := Later(n, OpenAt(texts, tags));
    Chosen(open, Later(n, NextTag(texts, tags, Closing)), Bracket(content, open), d)
  }

  lemma TurnOn(content: string, n: nat, pre: string, texts: seq<string>, tags: seq<Tag>, d: nat)
    requires WellFormed(texts, tags) && d >= 1 && content == pre + Render(texts, tags) && n == |pre|
    ensures NextTag(texts, tags, Closing) >= -1
    ensures Turn(content, n, d) == TurnAt(content, n, texts, tags, d)
  {
    NextTagIsNatural(texts, tags, Closing);
    OpensAndCloses(pre, texts, tags);
    TurnIsChosen(content, |pre|, d);
  }

  /** The document seen from in front of its first tag, and from behind it. */
  ghost predicate Around(content: string, n: nat, m: nat, pre: string, next: string,
                         texts: seq<string>, tags: seq<Tag>) {
    && WellFormed(texts, tags) && tags != []
    && content == pre + Render(texts, tags) && n == |pre|
    && content == next + Render(texts[1..], tags[1..]) && m == |next|
    && m == n + |texts[0]| + |TagText(tags[0])|
  }

  // One turn of the loop on a document, by its first tag.

  lemma NoCloseTurn(content: string, n: nat, m: nat, pre: string, next: string,
                    texts: seq<string>, tags: seq<Tag>, d: nat)
    requires Around(content, n, m, pre, next, texts, tags) && d >= 1
    requires NextTag(texts, tags, Closing) == -1
    ensures Turn(content, n, d) == Stop
  {
    TurnOn(content, n, pre, texts, tags, d);
  }

  lemma CloseTurn(content: string, n: nat, m: nat, pre: string, next: string,
                  texts: seq<string>, tags: seq<Tag>, d: nat)
    requires Around(content, n, m, pre, next, texts, tags) && d >= 1
    requires tags[0].Close?
    ensures Turn(content, n, d) == if d == 1 then CutTo(m) else GoOn(m, d - 1)
  {
    TurnOn(content, n, pre, texts, tags, d);
    FirstTag(texts, tags);
    assert |TagText(tags[0])| == 7;
  }

  /** A counted tag takes the loop to a place in it, from where it sees what it sees from behind it. */
  lemma CountedTurn(content: string, n: nat, m: nat, pre: string, next: string,
                    texts: seq<string>, tags: seq<Tag>, d: nat) returns (b: nat)
    requires Around(content, n, m, pre, next, texts, tags) && d >= 1
    requires !tags[0].Close? && !(tags[0].Bare? && HasAttributed(tags[1..]))
    requires NextTag(texts, tags, Closing) != -1
    ensures Turn(content, n, d) == GoOn(b, d + 1) && SeesTheSame(content, b, m)
  {
    b := BehindFirstBracket(content, n + |texts[0]|, m, pre, texts, tags);
    FrontTurn(content, n, m, pre, next, texts, tags, d);
    CountedTurnAt(content, n, b, texts, tags, d);
  }

  lemma BehindFirstBracket(content: string, at: nat, m: nat, pre: string, texts: seq<string>, tags: seq<Tag>)
    returns (b: nat)
    requires WellFormed(texts, tags) && tags != [] && content == pre + Render(texts, tags)
    requires at == |pre| + |texts[0]| && m == at + |TagText(tags[0])|
    ensures b == Find(content, ">", at) + 1 && SeesTheSame(content, b, m)
  {
    SplitFirst(pre, texts, tags);
    b := BehindBracket(content, pre + texts[0], tags[0], Render(texts[1..], tags[1..]), at, m);
  }

  /** From both places the loop finds the same. */
  ghost predicate SeesTheSame(content: string, p: nat, m: nat) {
    && NextOpen(content, p) == NextOpen(content, m) && Find(content, "</node>", p) == Find(content, "</node>", m)
    && p <= m
  }

  lemma BehindBracket(content: string, left: string, t: Tag, right: string, from: nat, m: nat)
    returns (b: nat)
    requires GoodTag(t) && content == left + TagText(t) + right && m == |left| + |TagText(t)|
    requires |left| <= from < m
    ensures b == Find(content, ">", from) + 1 && SeesTheSame(content, b, m)
  {
    BracketInTag(left, t, right, from);
    b := Find(content, ">", from) + 1;
    SameFindsInTag(left, t, right, b, Attributed);
    SameFindsInTag(left, t, right, b, Plain);
    SameFindsInTag(left, t, right, b, Closing);
  }

  lemma SameSightSameText(content: string, tagStart: nat, p: nat, m: nat, d: nat)
    requires tagStart <= |content| && SeesTheSame(content, p, m)
    ensures StripFrom(content, tagStart, p, d) == StripFrom(content, tagStart, m, d)
  {
    SameFindsSameTurn(content, p, m, d);
    SameTurnSameText(content, tagStart, p, m, d);
  }

  lemma CountedTurnAt(content: string, n: nat, b: nat, texts: seq<string>, tags: seq<Tag>, d: nat)
    requires |texts| == |tags| + 1 && tags != [] && d >= 1
    requires !tags[0].Close? && !(tags[0].Bare? && HasAttributed(tags[1..]))
    requires NextTag(texts, tags, Closing) >= 0
    requires Find(content, ">", n + |texts[0]|) + 1 == b
    ensures TurnAt(content, n, texts, tags, d) == GoOn(b, d + 1)
  {
    FirstTag(texts, tags);
  }

  lemma OverlookedTurn(content: string, n: nat, m: nat, pre: string, next: string,
                       texts: seq<string>, tags: seq<Tag>, d: nat)
    requires Around(content, n, m, pre, next, texts, tags) && d >= 1
    requires tags[0].Bare? && HasAttributed(tags[1..])
    ensures Turn(content, n, d) == Turn(content, m, d)
  {
    FrontTurn(content, n, m, pre, next, texts, tags, d);
    BackTurn(content, n, m, pre, next, texts, tags, d);
    SameTurn(content, n, m, texts, tags, d);
  }

  lemma FrontTurn(content: string, n: nat, m: nat, pre: string, next: string,
                  texts: seq<string>, tags: seq<Tag>, d: nat)
    requires Around(content, n, m, pre, next, texts, tags) && d >= 1
    ensures NextTag(texts, tags, Closing) >= -1
    ensures Turn(content, n, d) == TurnAt(content, n, texts, tags, d)
  {
    TurnOn(content, n, pre, texts, tags, d);
  }

  lemma BackTurn(content: string, n: nat, m: nat, pre: string, next: string,
                 texts: seq<string>, tags: seq<Tag>, d: nat)
    requires Around(content, n, m, pre, next, texts, tags) && d >= 1
    ensures NextTag(texts[1..], tags[1..], Closing) >= -1
    ensures Turn(content, m, d) == TurnAt(content, m, texts[1..], tags[1..], d)
  {
    TurnBehind(content, m, next, texts, tags, d);
  }

  /** The document up to the end of its first tag. */
  ghost function Before(pre: string, texts: seq<string>, tags: seq<Tag>): (next: string)
    requires |texts| == |tags| + 1 && tags != []
    ensures pre + Render(texts, tags) == next + Render(texts[1..], tags[1..])
    ensures |next| == |pre| + |texts[0]| + |TagText(tags[0])|
  {
    SplitFirst(pre, texts, tags);
    pre + texts[0] + TagText(tags[0])
  }

  lemma TurnBehind(content: string, n: nat, next: string, texts: seq<string>, tags: seq<Tag>, d: nat)
    requires WellFormed(texts, tags) && tags != [] && d >= 1
    requires content == next + Render(texts[1..], tags[1..]) && n == |next|
    ensures NextTag(texts[1..], tags[1..], Closing) >= -1
    ensures Turn(content, n, d) == TurnAt(content, n, texts[1..], tags[1..], d)
  {
    TailIsWellFormed(texts, tags);
    TurnOn(content, n, next, texts[1..], tags[1..], d);
  }

  lemma TailIsWellFormed(texts: seq<string>, tags: seq<Tag>)
    requires WellFormed(texts, tags) && tags != []
    ensures WellFormed(texts[1..], tags[1..])
  {
  }

  lemma SameTurn(content: string, n: nat, m: nat, texts: seq<string>, tags: seq<Tag>, d: nat)
    requires |texts| == |tags| + 1 && tags != [] && d >= 1
    requires m == n + |texts[0]| + |TagText(tags[0])|
    requires tags[0].Bare? && HasAttributed(tags[1..])
    requires NextTag(texts, tags, Closing) >= -1 && NextTag(texts[1..], tags[1..], Closing) >= -1
    ensures TurnAt(content, n, texts, tags, d) == TurnAt(content, m, texts[1..], tags[1..], d)
  {
    FirstTag(texts, tags);
    OpenIsNatural(texts[1..], tags[1..]);
    var w := |texts[0]| + |TagText(tags[0])|;
    LaterTwice(n, w, OpenAt(texts[1..], tags[1..]));
    LaterTwice(n, w, NextTag(texts[1..], tags[1..], Closing));
  }

  lemma LaterTwice(a: nat, b: nat, i: int)
    requires i >= -1
    ensures Later(a, Later(b, i)) == Later(a + b, i)
  {
  }

  lemma OpenIsNatural(texts: seq<string>, tags: seq<Tag>)
    requires |texts| == |tags| + 1
    ensures OpenAt(texts, tags) >= -1
  {
    NextTagIsNatural(texts, tags, Attributed);
    NextTagIsNatural(texts, tags, Plain);
  }

  /** What is left when the loop has taken this many tags. */
  ghost function Outcome(content: string, tagStart: nat, texts: seq<string>, tags: seq<Tag>, taken: Option<nat>): string
    requires |texts| == |tags| + 1 && tagStart <= |content|
  {
    match taken
    case None => content
    case Some(n) => if n > |tags| then content else content[..tagStart] + LStrip(Render(texts[n..], tags[n..]))
  }

  lemma OutcomeStep(content: string, tagStart: nat, texts: seq<string>, tags: seq<Tag>, n: nat)
    requires |texts| == |tags| + 1 && tagStart <= |content| && tags != []
    ensures Outcome(content, tagStart, texts, tags, Some(n + 1)) ==
            Outcome(content, tagStart, texts[1..], tags[1..], Some(n))
  {
    if n + 1 <= |tags| {
      assert texts[1..][n..] == texts[n + 1..] && tags[1..][n..] == tags[n + 1..];
    }
  }

  lemma StripFromFollows(content: string, tagStart: nat, pos: nat, d: nat)
    requires tagStart <= |content|
    ensures match Turn(content, pos, d)
            case Stop => StripFrom(content, tagStart, pos, d) == content
            case CutTo(end) => StripFrom(content, tagStart, pos, d) == content[..tagStart] + LStrip(content[end..])
            case GoOn(pos', d') => StripFrom(content, tagStart, pos, d) == StripFrom(content, tagStart, pos', d')
  {
  }

  lemma SameTurnSameText(content: string, tagStart: nat, n: nat, m: nat, d: nat)
    requires tagStart <= |content| && Turn(content, n, d) == Turn(content, m, d)
    ensures StripFrom(content, tagStart, n, d) == StripFrom(content, tagStart, m, d)
  {
    StripFromFollows(content, tagStart, n, d);
    StripFromFollows(content, tagStart, m, d);
  }

  /** The loop's depth behind the first tag. */
  ghost function NextDepth(tags: seq<Tag>, d: nat): nat
    requires tags != [] && d >= 1
  {
    d + SeenStep(tags)
  }

  lemma LoopPassesTag(content: string, n: nat, m: nat, tagStart: nat, pre: string, next: string,
                      texts: seq<string>, tags: seq<Tag>, d: nat)
    requires Around(content, n, m, pre, next, texts, tags) && d >= 1 && tagStart <= |content|
    requires NextTag(texts, tags, Closing) != -1 && NextDepth(tags, d) >= 1
    ensures StripFrom(content, tagStart, n, d) == StripFrom(content, tagStart, m, NextDepth(tags, d))
  {
    if tags[0].Close? {
      LoopPassesClose(content, n, m, tagStart, pre, next, texts, tags, d, NextDepth(tags, d));
    } else if tags[0].Bare? && HasAttributed(tags[1..]) {
      LoopPassesOverlooked(content, n, m, tagStart, pre, next, texts, tags, d, NextDepth(tags, d));
    } else {
      LoopPassesCounted(content, n, m, tagStart, pre, next, texts, tags, d, NextDepth(tags, d));
    }
  }

  lemma LoopPassesClose(content: string, n: nat, m: nat, tagStart: nat, pre: string, next: string,
                        texts: seq<string>, tags: seq<Tag>, d: nat, d': nat)
    requires Around(content, n, m, pre, next, texts, tags) && d >= 2 && tagStart <= |content|
    requires tags[0].Close? && d' == d - 1
    ensures StripFrom(content, tagStart, n, d) == StripFrom(content, tagStart, m, d')
  {
    CloseTurn(content, n, m, pre, next, texts, tags, d);
    GoesOnAt(content, tagStart, n, d, m, d');
  }

  lemma LoopPassesOverlooked(content: string, n: nat, m: nat, tagStart: nat, pre: string, next: string,
                             texts: seq<string>, tags: seq<Tag>, d: nat, d': nat)
    requires Around(content, n, m, pre, next, texts, tags) && d >= 1 && tagStart <= |content|
    requires tags[0].Bare? && HasAttributed(tags[1..]) && d' == d
    ensures StripFrom(content, tagStart, n, d) == StripFrom(content, tagStart, m, d')
  {
    OverlookedTurn(content, n, m, pre, next, texts, tags, d);
    SameTurnSameText(content, tagStart, n, m, d);
  }

  lemma LoopPassesCounted(content: string, n: nat, m: nat, tagStart: nat, pre: string, next: string,
                          texts: seq<string>, tags: seq<Tag>, d: nat, d': nat)
    requires Around(content, n, m, pre, next, texts, tags) && d >= 1 && tagStart <= |content|
    requires !tags[0].Close? && !(tags[0].Bare? && HasAttributed(tags[1..])) && d' == d + 1
    requires NextTag(texts, tags, Closing) != -1
    ensures StripFrom(content, tagStart, n, d) == StripFrom(content, tagStart, m, d')
  {
    var b := CountedTurn(content, n, m, pre, next, texts, tags, d);
    GoesOnAt(content, tagStart, n, d, b, d');
    SameSightSameText(content, tagStart, b, m, d');
  }

  lemma GoesOnAt(content: string, tagStart: nat, n: nat, d: nat, b: nat, d': nat)
    requires tagStart <= |content| && Turn(content, n, d) == GoOn(b, d')
    ensures StripFrom(content, tagStart, n, d) == StripFrom(content, tagStart, b, d')
  {
  }

  lemma LoopEnds(content: string, n: nat, m: nat, tagStart: nat, pre: string, next: string,
                 texts: seq<string>, tags: seq<Tag>, d: nat)
    requires Around(content, n, m, pre, next, texts, tags) && d >= 1 && tagStart <= |content|
    requires NextTag(texts, tags, Closing) == -1 || NextDepth(tags, d) == 0
    ensures StripFrom(content, tagStart, n, d) == Outcome(content, tagStart, texts, tags, Taken(tags, d))
  {
    StripFromFollows(content, tagStart, n, d);
    if NextTag(texts, tags, Closing) == -1 {
      NoCloseTurn(content, n, m, pre, next, texts, tags, d);
      NothingTakenWithoutClose(texts, tags, d);
    } else {
      CloseTurn(content, n, m, pre, next, texts, tags, d);
      assert content[m..] == Render(texts[1..], tags[1..]);
    }
  }

  /** Started behind `pre`, the loop takes the tags that Taken says. */
  lemma {:induction false} LoopTakes(content: string, n: nat, tagStart: nat, pre: string,
                                     texts: seq<string>, tags: seq<Tag>, d: nat)
    requires WellFormed(texts, tags) && d >= 1 && tagStart <= |content|
    requires content == pre + Render(texts, tags) && n == |pre|
    ensures StripFrom(content, tagStart, n, d) == Outcome(content, tagStart, texts, tags, Taken(tags, d))
    decreases |tags|
  {
    if tags == [] {
      NothingLeft(content, n, tagStart, pre, texts, tags, d);
    } else {
      var next := Before(pre, texts, tags);
      var m := |next|;
      TailIsWellFormed(texts, tags);
      if NextTag(texts, tags, Closing) == -1 || NextDepth(tags, d) == 0 {
        LoopEnds(content, n, m, tagStart, pre, next, texts, tags, d);
      } else {
        LoopPassesTag(content, n, m, tagStart, pre, next, texts, tags, d);
        LoopTakes(content, m, tagStart, next, texts[1..], tags[1..], NextDepth(tags, d));
        TakenStep(content, tagStart, texts, tags, d, NextDepth(tags, d));
      }
    }
  }

  lemma NothingLeft(content: string, n: nat, tagStart: nat, pre: string,
                    texts: seq<string>, tags: seq<Tag>, d: nat)
    requires WellFormed(texts, tags) && d >= 1 && tagStart <= |content| && tags == []
    requires content == pre + Render(texts, tags) && n == |pre|
    ensures StripFrom(content, tagStart, n, d) == content
  {
    TurnOn(content, n, pre, texts, tags, d);
    StripFromFollows(content, tagStart, n, d);
  }

  lemma TakenStep(content: string, tagStart: nat, texts: seq<string>, tags: seq<Tag>, d: nat, d': nat)
    requires |texts| == |tags| + 1 && tagStart <= |content| && tags != [] && !(tags[0].Close? && d <= 1)
    requires d' == d + SeenStep(tags)
    ensures Outcome(content, tagStart, texts, tags, Taken(tags, d)) ==
            Outcome(content, tagStart, texts[1..], tags[1..], Taken(tags[1..], d'))
  {
    TakenShifts(tags, d, d');
    match Taken(tags[1..], d')
    case None =>
    case Some(n) => OutcomeStep(content, tagStart, texts, tags, n);
  }

  lemma TakenShifts(tags: seq<Tag>, d: nat, d': nat)
    requires tags != [] && !(tags[0].Close? && d <= 1) && d' == d + SeenStep(tags)
    ensures Taken(tags, d) == match Taken(tags[1..], d') case None => None case Some(n) => Some(n + 1)
  {
  }

  // ---- Cutting an element out of a document ----

  /** The document without tags k up to k + n, and without the newlines that follow them. */
  function Removed(texts: seq<string>, tags: seq<Tag>, k: nat, n: nat): Document
    requires |texts| == |tags| + 1 && k + n < |tags|
  {
    Document(texts[..k] + [texts[k] + LStrip(texts[k + n + 1])] + texts[k + n + 2..],
             tags[..k] + tags[k + n + 1..])
  }

  /** The texts of two documents that are put together: the last of one and the first of the other join. */
  function Joined(texts: seq<string>, more: seq<string>): seq<string>
    requires texts != [] && more != []
  {
    texts[..|texts| - 1] + [texts[|texts| - 1] + more[0]] + more[1..]
  }

  lemma JoinedTail(texts: seq<string>, more: seq<string>)
    requires |texts| > 1 && more != []
    ensures Joined(texts, more)[0] == texts[0] && Joined(texts, more)[1..] == Joined(texts[1..], more)
  {
  }

  lemma {:induction false} RenderJoin(texts: seq<string>, tags: seq<Tag>, more: seq<string>, moreTags: seq<Tag>)
    requires |texts| == |tags| + 1 && |more| == |moreTags| + 1
    ensures |Joined(texts, more)| == |tags + moreTags| + 1
    ensures Render(Joined(texts, more), tags + moreTags) == Render(texts, tags) + Render(more, moreTags)
  {
    if tags == [] {
      JoinAtEnd(texts[0], more, moreTags);
      assert Joined(texts, more) == [texts[0] + more[0]] + more[1..];
      assert tags + moreTags == moreTags;
    } else {
      RenderJoin(texts[1..], tags[1..], more, moreTags);
      JoinFirst(texts, tags, more, moreTags);
    }
  }

  lemma JoinFirst(texts: seq<string>, tags: seq<Tag>, more: seq<string>, moreTags: seq<Tag>)
    requires |texts| == |tags| + 1 && |more| == |moreTags| + 1 && tags != []
    requires |Joined(texts[1..], more)| == |tags[1..] + moreTags| + 1
    requires Render(Joined(texts[1..], more), tags[1..] + moreTags) ==
             Render(texts[1..], tags[1..]) + Render(more, moreTags)
    ensures |Joined(texts, more)| == |tags + moreTags| + 1
    ensures Render(Joined(texts, more), tags + moreTags) == Render(texts, tags) + Render(more, moreTags)
  {
    JoinedTail(texts, more);
    JoinedTags(tags, moreTags);
    RenderFirst(Joined(texts, more), tags + moreTags, texts[0], tags[0]);
    Associate(texts[0] + TagText(tags[0]), Render(texts[1..], tags[1..]), Render(more, moreTags));
  }

  lemma JoinedTags(tags: seq<Tag>, moreTags: seq<Tag>)
    requires tags != []
    ensures (tags + moreTags)[0] == tags[0] && (tags + moreTags)[1..] == tags[1..] + moreTags
  {
  }

  lemma RenderFirst(texts: seq<string>, tags: seq<Tag>, text: string, tag: Tag)
    requires |texts| == |tags| + 1 && tags != [] && texts[0] == text && tags[0] == tag
    ensures Render(texts, tags) == text + TagText(tag) + Render(texts[1..], tags[1..])
  {
  }

  lemma JoinAtEnd(text: string, more: seq<string>, moreTags: seq<Tag>)
    requires |more| == |moreTags| + 1
    ensures Render([text + more[0]] + more[1..], moreTags) == text + Render(more, moreTags)
  {
    var all := [text + more[0]] + more[1..];
    RenderShape(more, moreTags);
    RenderShape(all, moreTags);
    assert all[1..] == more[1..];
    assert AfterText(all, moreTags) == AfterText(more, moreTags);
    Associate(text, more[0], AfterText(more, moreTags));
  }

  lemma {:induction false} LStripStops(a: string, b: string)
    requires b == [] || (b[0] != '\r' && b[0] != '\n')
    ensures LStrip(a + b) == LStrip(a) + b
  {
    if a == [] {
      assert a + b == b;
    } else {
      assert (a + b)[0] == a[0] && (a + b)[1..] == a[1..] + b;
      if a[0] == '\r' || a[0] == '\n' {
        LStripStops(a[1..], b);
      }
    }
  }

  lemma LStripRender(texts: seq<string>, tags: seq<Tag>)
    requires WellFormed(texts, tags)
    ensures LStrip(Render(texts, tags)) == LStrip(texts[0]) + AfterText(texts, tags)
    ensures LStrip(Render(texts, tags)) == Render([LStrip(texts[0])] + texts[1..], tags)
  {
    RenderShape(texts, tags);
    AfterTextStarts(texts, tags);
    LStripStops(texts[0], AfterText(texts, tags));
    var other := [LStrip(texts[0])] + texts[1..];
    assert other[1..] == texts[1..];
    RenderShape(other, tags);
  }

  lemma RemovedRenders(texts: seq<string>, tags: seq<Tag>, k: nat, n: nat)
    requires WellFormed(texts, tags) && k + n < |tags|
    ensures var r := Removed(texts, tags, k, n);
            |r.texts| == |r.tags| + 1 &&
            Render(r.texts, r.tags) ==
            Render(texts[..k + 1], tags[..k]) + LStrip(Render(texts[k + n + 1..], tags[k + n + 1..]))
  {
    var j := k + n + 1;
    SuffixIsWellFormed(texts, tags, j);
    LStripRender(texts[j..], tags[j..]);
    var more := [LStrip(texts[j])] + texts[j..][1..];
    RenderJoin(texts[..k + 1], tags[..k], more, tags[j..]);
    RemovedTexts(texts, k, j);
  }

  lemma RemovedTexts(texts: seq<string>, k: nat, j: nat)
    requires k < j < |texts|
    ensures Joined(texts[..k + 1], [LStrip(texts[j])] + texts[j..][1..]) ==
            texts[..k] + [texts[k] + LStrip(texts[j])] + texts[j + 1..]
  {
  }

  lemma {:induction false} LStripShortens(s: string)
    ensures |LStrip(s)| <= |s|
  {
    if s != [] && (s[0] == '\r' || s[0] == '\n') {
      LStripShortens(s[1..]);
    }
  }

  lemma {:induction false} RenderShortens(texts: seq<string>, tags: seq<Tag>, j: nat)
    requires |texts| == |tags| + 1 && j <= |tags|
    ensures |Render(texts[j..], tags[j..])| <= |Render(texts, tags)|
  {
    if j > 0 {
      RenderShortens(texts[1..], tags[1..], j - 1);
      assert texts[1..][j - 1..] == texts[j..] && tags[1..][j - 1..] == tags[j..];
    } else {
      assert texts[j..] == texts && tags[j..] == tags;
    }
  }

  /** Stopping at an earlier tag keeps more text. */
  lemma EarlierIsLonger(texts: seq<string>, tags: seq<Tag>, i: nat, j: nat)
    requires WellFormed(texts, tags) && i < j <= |tags|
    ensures |LStrip(Render(texts[i..], tags[i..]))| > |LStrip(Render(texts[j..], tags[j..]))|
  {
    var from, fromTags := texts[i..], tags[i..];
    LStripRender(from, fromTags);
    RenderShape(from, fromTags);
    TagShape(fromTags[0]);
    RenderShortens(from[1..], fromTags[1..], j - i - 1);
    assert from[1..][j - i - 1..] == texts[j..] && fromTags[1..][j - i - 1..] == tags[j..];
    LStripShortens(Render(texts[j..], tags[j..]));
  }

  lemma {:induction false} RenderSplit(texts: seq<string>, tags: seq<Tag>, k: nat)
    requires |texts| == |tags| + 1 && k < |tags|
    ensures Render(texts, tags) ==
            Render(texts[..k + 1], tags[..k]) + TagText(tags[k]) + Render(texts[k + 1..], tags[k + 1..])
  {
    if k > 0 {
      RenderSplit(texts[1..], tags[1..], k - 1);
      assert texts[..k + 1][1..] == texts[1..][..k] && tags[..k][1..] == tags[1..][..k - 1];
      assert texts[1..][k..] == texts[k + 1..] && tags[1..][k..] == tags[k + 1..];
      FourParts(texts[0] + TagText(tags[0]), Render(texts[1..][..k], tags[1..][..k - 1]),
                TagText(tags[k]), Render(texts[k + 1..], tags[k + 1..]));
    }
  }

  lemma FourParts(a: string, b: string, c: string, d: string)
    ensures a + (b + c + d) == a + b + c + d
  {
  }

  /** Where tag k begins in the text. */
  function Offset(texts: seq<string>, tags: seq<Tag>, k: nat): nat
    requires |texts| == |tags| + 1 && k < |tags|
  {
    |Render(texts[..k + 1], tags[..k])|
  }

  /** The marker occurs first within the attributes of tag k. */
  ghost predicate MarkedAt(texts: seq<string>, tags: seq<Tag>, k: nat)
    requires |texts| == |tags| + 1 && k < |tags|
  {
    var at, start := Offset(texts, tags, k), Find(Render(texts, tags), MARKER, 0);
    KindOf(tags[k]).Attributed? && at + 6 <= start < at + 6 + |tags[k].attributes|
  }

  /** From inside a tag, the search backwards finds its start. */
  lemma FoundInTag(left: string, t: Tag, right: string, start: nat)
    requires GoodTag(t) && KindOf(t).Attributed? && |left| + 6 <= start < |left| + |TagText(t)|
    ensures FindLast(left + TagText(t) + right, "<node ", start) == |left|
  {
    var tag, n := TagText(t), |left|;
    var s := left + tag + right;
    TagMatches(t, right, Attributed);
    OccursShift(left, tag + right, "<node ", 0);
    Associate(left, tag, right);
    forall i | n < i && i + 6 <= start ensures !OccursAt(s, "<node ", i) {
      OccursShift(left, tag + right, "<node ", i - n);
      NotInTag(t, right, Attributed, i - n);
    }
    FindLastIs(s, "<node ", start, n);
  }

  lemma FindLastIs(s: string, p: string, end: nat, i: nat)
    requires end <= |s| && OccursAt(s, p, i) && i + |p| <= end
    requires forall k | i < k && k + |p| <= end :: !OccursAt(s, p, k)
    ensures FindLast(s, p, end) == i
  {
  }

  lemma StrippedFrom(content: string, start: nat, tagStart: nat, pos: nat)
    requires Find(content, MARKER, 0) == start && start <= |content|
    requires FindLast(content, "<node ", start) == tagStart && Find(content, ">", start) + 1 == pos
    ensures tagStart <= |content| && Stripped(content) == StripFrom(content, tagStart, pos, 1)
  {
  }

  lemma MarkedElement(content: string, left: string, t: Tag, texts: seq<string>, tags: seq<Tag>)
    requires GoodTag(t) && KindOf(t).Attributed? && WellFormed(texts, tags)
    requires content == left + TagText(t) + Render(texts, tags)
    requires |left| + 6 <= Find(content, MARKER, 0) < |left| + |TagText(t)|
    ensures Stripped(content) == Outcome(content, |left|, texts, tags, Taken(tags, 1))
  {
    var start, pre := Find(content, MARKER, 0), left + TagText(t);
    FoundInTag(left, t, Render(texts, tags), start);
    MarkedAsBehind(content, start, left, |pre|, t, Render(texts, tags));
    LoopTakes(content, |pre|, |left|, pre, texts, tags, 1);
  }

  /** Started in the marked tag, the loop does what it would do behind it. */
  lemma MarkedAsBehind(content: string, start: nat, left: string, m: nat, t: Tag, right: string)
    requires GoodTag(t) && content == left + TagText(t) + right && m == |left| + |TagText(t)|
    requires Find(content, MARKER, 0) == start && |left| <= start < m
    requires FindLast(content, "<node ", start) == |left|
    ensures Stripped(content) == StripFrom(content, |left|, m, 1)
  {
    var b := BehindBracket(content, left, t, right, start, m);
    StrippedFrom(content, start, |left|, b);
    SameSightSameText(content, |left|, b, m, 1);
  }

  /** The text left is that without the first n tags behind the marked one exactly when the loop
      takes n of them. */
  lemma MarkedElementCompares(content: string, left: string, t: Tag, texts: seq<string>, tags: seq<Tag>, n: nat)
    requires GoodTag(t) && KindOf(t).Attributed? && WellFormed(texts, tags)
    requires content == left + TagText(t) + Render(texts, tags)
    requires |left| + 6 <= Find(content, MARKER, 0) < |left| + |TagText(t)|
    requires n <= |tags|
    ensures (Stripped(content) == left + LStrip(Render(texts[n..], tags[n..]))) <==> Taken(tags, 1) == Some(n)
  {
    MarkedElement(content, left, t, texts, tags);
    PrefixOf(left, TagText(t), Render(texts, tags));
    TakenStaysInside(tags, 1);
    CutsCompare(content, left, TagText(t), texts, tags, Taken(tags, 1), n);
  }

  lemma TakenStaysInside(tags: seq<Tag>, d: nat)
    ensures Taken(tags, d).Some? ==> Taken(tags, d).value <= |tags|
  {
    if Taken(tags, d).Some? {
      TakenIsInside(tags, d);
    }
  }

  lemma SuffixIsWellFormed(texts: seq<string>, tags: seq<Tag>, k: nat)
    requires WellFormed(texts, tags) && k <= |tags|
    ensures WellFormed(texts[k..], tags[k..])
  {
  }

  lemma StrippedCompares(texts: seq<string>, tags: seq<Tag>, k: nat, n: nat)
    requires WellFormed(texts, tags) && k + n < |tags| && MarkedAt(texts, tags, k)
    ensures
      (Stripped(Render(texts, tags)) ==
       Render(texts[..k + 1], tags[..k]) + LStrip(Render(texts[k + n + 1..], tags[k + n + 1..])))
      <==> Taken(tags[k + 1..], 1) == Some(n)
  {
    RenderSplit(texts, tags, k);
    SuffixIsWellFormed(texts, tags, k + 1);
    MarkedElementCompares(Render(texts, tags), Render(texts[..k + 1], tags[..k]), tags[k],
                          texts[k + 1..], tags[k + 1..], n);
    Behind(texts, k + 1, n);
    Behind(tags, k + 1, n);
  }

  // ---- The theorem ----

  lemma {:induction false} BalancedCloses(tags: seq<Tag>, d: nat, e: nat)
    requires Balanced(tags, d + e) && d >= 1
    ensures Match(tags, d).Some? && Match(tags, d).value <= |tags| && Balanced(tags[Match(tags, d).value..], e)
  {
    if !(tags[0].Close? && d == 1) {
      var d' := d + Step(tags[0]);
      BalancedCloses(tags[1..], d', e);
      var n := Match(tags[1..], d').value;
      assert tags[1..][n..] == tags[n + 1..];
    }
  }

  /** How many tags belong to the element that tag k begins, besides that tag. */
  function Length(tags: seq<Tag>, k: nat): Option<nat>
    requires k < |tags|
  {
    if tags[k].SelfClosed? then Some(0) else Match(tags[k + 1..], 1)
  }

  /** A balanced document is balanced without one of its elements. */
  lemma {:induction false} RemovalKeepsBalance(tags: seq<Tag>, d: nat, k: nat)
    requires Balanced(tags, d) && k < |tags| && !tags[k].Close?
    ensures var m := Length(tags, k);
            m.Some? && k + m.value < |tags| && Balanced(tags[..k] + tags[k + m.value + 1..], d)
  {
    if k == 0 {
      if !tags[0].SelfClosed? {
        BalancedCloses(tags[1..], 1, d);
      }
      var n := Length(tags, 0).value;
      assert tags[1..][n..] == tags[n + 1..] && tags[..0] + tags[n + 1..] == tags[n + 1..];
    } else {
      RemovalKeepsBalance(tags[1..], d + Step(tags[0]), k - 1);
      assert tags[1..][k..] == tags[k + 1..];
      var n := Length(tags, k).value;
      assert (tags[..k] + tags[k + n + 1..])[1..] == tags[1..][..k - 1] + tags[1..][k + n..];
    }
  }

  lemma GoodTexts(a: string, b: string)
    requires GoodText(a) && GoodText(b)
    ensures GoodText(a + b)
  {
    var s := a + b;
    forall i | 0 <= i < |s| && s[i] == '<' ensures exists j :: i < j < |s| && s[j] == '>' {
      if i < |a| {
        var j :| i < j < |a| && a[j] == '>';
        assert s[j] == '>';
      } else {
        assert b[i - |a|] == '<';
        var j :| i - |a| < j < |b| && b[j] == '>';
        assert s[|a| + j] == '>';
      }
    }
    forall k: Kind ensures Without(s, Pattern(k)) {
      forall i ensures !OccursAt(s, Pattern(k), i) {
        if 0 <= i {
          NotInJoin(a, b, k, i);
        }
      }
    }
  }

  lemma NotInJoin(a: string, b: string, k: Kind, i: nat)
    requires GoodText(a) && GoodText(b)
    ensures !OccursAt(a + b, Pattern(k), i)
  {
    var s, p := a + b, Pattern(k);
    PatternShape(k);
    if i >= |a| {
      OccursShift(a, b, p, i - |a|);
      assert !OccursAt(b, p, i - |a|);
    } else if i + |p| <= |a| {
      assert a[i..i + |p|] == s[i..i + |p|];
      assert !OccursAt(a, p, i);
    } else {
      OccursChar(s, p, i, 0);
      if a[i] == '<' {
        var j :| i < j < |a| && a[j] == '>';
        OccursChar(s, p, i, j - i);
        BracketIsLast(k);
      }
    }
  }

  lemma BracketIsLast(k: Kind)
    ensures forall j | 0 <= j < |Pattern(k)| - 1 :: Pattern(k)[j] != '>'
  {
  }

  lemma GoodSuffix(s: string)
    requires GoodText(s) && s != []
    ensures GoodText(s[1..])
  {
    var t := s[1..];
    assert [s[0]] + t == s;
    forall k: Kind, i: int ensures !OccursAt(t, Pattern(k), i) {
      if 0 <= i {
        OccursShift([s[0]], t, Pattern(k), i);
        assert !OccursAt(s, Pattern(k), 1 + i);
      }
    }
    forall i | 0 <= i < |t| && t[i] == '<' ensures exists j :: i < j < |t| && t[j] == '>' {
      assert s[i + 1] == '<';
      var j :| i + 1 < j < |s| && s[j] == '>';
      assert t[j - 1] == '>';
    }
  }

  lemma {:induction false} GoodStripped(s: string)
    requires GoodText(s)
    ensures GoodText(LStrip(s))
  {
    if s != [] && (s[0] == '\r' || s[0] == '\n') {
      GoodSuffix(s);
      GoodStripped(s[1..]);
    }
  }

  lemma RemovedIsWellFormed(texts: seq<string>, tags: seq<Tag>, k: nat, n: nat)
    requires WellFormed(texts, tags) && k + n < |tags|
    ensures var r := Removed(texts, tags, k, n); WellFormed(r.texts, r.tags)
  {
    GoodStripped(texts[k + n + 1]);
    GoodTexts(texts[k], LStrip(texts[k + n + 1]));
  }

  /** On a balanced document whose marker is in tag k, what is cut out is exactly that element, with
      all that is in it and the newlines behind it, if and only if the tag is not self-closed and the
      loop counts right in it: it counts self-closed tags as opening, and overlooks bare ones that an
      attributed one follows, inside the element or behind it. */
  lemma StrippingIsExact(texts: seq<string>, tags: seq<Tag>, k: nat)
    requires WellFormed(texts, tags) && Balanced(tags, 0)
    requires k < |tags| && MarkedAt(texts, tags, k)
    ensures Length(tags, k).Some? && k + Length(tags, k).value < |tags|
    ensures var n := Length(tags, k).value;
            var rest := Removed(texts, tags, k, n);
            && WellFormed(rest.texts, rest.tags) && Balanced(rest.tags, 0)
            && (Stripped(Render(texts, tags)) == Render(rest.texts, rest.tags)
                <==> !tags[k].SelfClosed? && CountsRight(tags[k + 1..], n))
  {
    RemovalKeepsBalance(tags, 0, k);
    var n := Length(tags, k).value;
    RemovedIsWellFormed(texts, tags, k, n);
    StrippedCompares(texts, tags, k, n);
    RemovedRenders(texts, tags, k, n);
    if tags[k].SelfClosed? {
      TakenIsFirstZero(tags[k + 1..], 1, 0);
    } else {
      TakenIsMatch(tags[k + 1..], n);
    }
  }

  lemma PrefixOf(a: string, b: string, c: string)
    ensures |a| <= |a + b + c| && (a + b + c)[..|a|] == a
  {
  }

  lemma Behind<T>(s: seq<T>, k: nat, n: nat)
    requires k + n <= |s|
    ensures s[k..][n..] == s[k + n..]
  {
  }

  lemma CutsCompare(content: string, left: string, tag: string, texts: seq<string>, tags: seq<Tag>,
                    taken: Option<nat>, n: nat)
    requires WellFormed(texts, tags) && n <= |tags| && (taken.Some? ==> taken.value <= |tags|)
    requires content == left + tag + Render(texts, tags) && tag != []
    requires |left| <= |content| && content[..|left|] == left
    ensures
      (Outcome(content, |left|, texts, tags, taken) == left + LStrip(Render(texts[n..], tags[n..])))
      <==> taken == Some(n)
  {
    match taken
    case None =>
      LStripShortens(Render(texts[n..], tags[n..]));
      RenderShortens(texts, tags, n);
    case Some(m) =>
      if m < n {
        EarlierIsLonger(texts, tags, m, n);
      } else if n < m {
        EarlierIsLonger(texts, tags, n, m);
      }
  }

  /** With attributed tags only, as in the shipped menu file, the element is cut out exactly if and only
      if neither it nor anything in it is self-closed. */
  lemma AttributedTagsAreSafe(texts: seq<string>, tags: seq<Tag>, k: nat)
    requires WellFormed(texts, tags) && Balanced(tags, 0)
    requires k < |tags| && MarkedAt(texts, tags, k) && forall t | t in tags :: !t.Bare?
    ensures Length(tags, k).Some? && k + Length(tags, k).value < |tags|
    ensures var n := Length(tags, k).value;
            var rest := Removed(texts, tags, k, n);
            Stripped(Render(texts, tags)) == Render(rest.texts, rest.tags)
            <==> !tags[k].SelfClosed? && SelfClosing(tags[k + 1..], n) == 0
  {
    StrippingIsExact(texts, tags, k);
    if !tags[k].SelfClosed? {
      NoBareNothingOverlooked(tags[k + 1..], Length(tags, k).value);
      OneErrorAlone(tags[k + 1..], Length(tags, k).value);
    }
  }

  lemma {:induction false} NoBareNothingOverlooked(tags: seq<Tag>, n: nat)
    requires n <= |tags| && forall t | t in tags :: !t.Bare?
    ensures Overlooked(tags, n) == 0
  {
    if n > 0 {
      assert tags[0] in tags && forall t | t in tags[1..] :: t in tags;
      NoBareNothingOverlooked(tags[1..], n - 1);
    }
  }

  /** A bare child of the marked element, and an attributed tag anywhere behind: the loop stops at the
      child's closing tag. */
  lemma BareChildIsOverlooked(texts: seq<string>, tags: seq<Tag>)
    requires tags == [Open(MARKER), Bare, Close, Close, Open("x"), Close]
    requires texts == ["", "", "", "", "", "", ""]
    ensures WellFormed(texts, tags) && Balanced(tags, 0) && MarkedAt(texts, tags, 0)
    ensures Match(tags[1..], 1) == Some(3)
    ensures Stripped(Render(texts, tags)) !=
            (var rest := Removed(texts, tags, 0, 3); Render(rest.texts, rest.tags))
  {
    SmallBalance();
    SmallIsWellFormed(texts, tags);
    MarkerIsFirst(texts, tags);
    BareChildMissed(texts, tags);
  }

  lemma BareChildMissed(texts: seq<string>, tags: seq<Tag>)
    requires WellFormed(texts, tags) && Balanced(tags, 0) && |tags| > 4 && MarkedAt(texts, tags, 0)
    requires tags[0].Open? && tags[1].Bare? && tags[2].Close? && tags[3].Close? && tags[4].Open?
    requires Match(tags[1..], 1) == Some(3)
    ensures Stripped(Render(texts, tags)) !=
            (var rest := Removed(texts, tags, 0, 3); Render(rest.texts, rest.tags))
  {
    var inner := tags[1..];
    assert inner[1..][2] == tags[4];
    assert HasAttributed(inner[1..]) by {
      assert inner[1..][2] in inner[1..];
    }
    assert Overlooked(inner, 3) >= 1;
    assert inner[1..][0] == tags[2] && inner[1..][1..][0] == tags[3];
    assert SelfClosing(inner[1..][1..], 1) == SelfClosing(inner[1..][1..][1..], 0) == 0;
    assert SelfClosing(inner[1..], 2) == 0;
    assert SelfClosing(inner, 3) == 0;
    StrippingIsExact(texts, tags, 0);
  }

  /** A self-closed child of the marked element: the loop counts it as open, and stops behind the next
      element or not at all. */
  lemma SelfClosedChildIsCounted(texts: seq<string>, tags: seq<Tag>)
    requires tags == [Open(MARKER), SelfClosed("x"), Close] && texts == ["", "", "", ""]
    ensures WellFormed(texts, tags) && Balanced(tags, 0) && MarkedAt(texts, tags, 0)
    ensures Match(tags[1..], 1) == Some(2)
    ensures Stripped(Render(texts, tags)) !=
            (var rest := Removed(texts, tags, 0, 2); Render(rest.texts, rest.tags))
  {
    ThreeTagsAreWellFormed(texts, tags);
    MarkerIsFirst(texts, tags);
    var inner, last := [SelfClosed("x"), Close], [Close];
    assert tags[1..] == inner && inner[1..] == last && last[1..] == [];
    assert Balanced(last, 1) && Balanced(inner, 1) && Balanced(tags, 0);
    assert Match(last, 1) == Some(1) && Match(inner, 1) == Some(2);
    NoBareNothingOverlooked(inner, 2);
    assert SelfClosing(inner, 2) == 1 + SelfClosing(last, 1);
    StrippingIsExact(texts, tags, 0);
  }

  lemma ThreeTagsAreWellFormed(texts: seq<string>, tags: seq<Tag>)
    requires tags == [Open(MARKER), SelfClosed("x"), Close] && texts == ["", "", "", ""]
    ensures WellFormed(texts, tags)
  {
    assert GoodText("");
    assert '<' !in MARKER && MARKER[|MARKER| - 1] == '\"';
    assert GoodTag(tags[0]) && GoodTag(tags[1]) && GoodTag(tags[2]);
  }

  lemma SmallIsWellFormed(texts: seq<string>, tags: seq<Tag>)
    requires tags == [Open(MARKER), Bare, Close, Close, Open("x"), Close]
    requires texts == ["", "", "", "", "", "", ""]
    ensures WellFormed(texts, tags)
  {
    assert forall i | 0 <= i < 7 :: texts[i] == "";
    assert GoodText("");
    assert '<' !in MARKER;
    assert MARKER[|MARKER| - 1] == '\"';
    assert GoodTag(tags[0]) && GoodTag(tags[4]);
  }

  lemma SmallBalance()
    ensures var tags := [Open(MARKER), Bare, Close, Close, Open("x"), Close];
            Balanced(tags, 0) && Match(tags[1..], 1) == Some(3)
  {
    var t5 := [Close];
    var t4, t3 := [Open("x")] + t5, [Close, Open("x")] + t5;
    var t2, t1 := [Close] + t3, [Bare, Close] + t3;
    var tags := [Open(MARKER), Bare, Close, Close, Open("x"), Close];
    assert t5[1..] == [] && t4[1..] == t5 && t3[1..] == t4 && t2[1..] == t3 && t1[1..] == t2 && tags[1..] == t1;
    assert Balanced(t5, 1) && Balanced(t4, 0) && Balanced(t3, 1) && Balanced(t2, 2) && Balanced(t1, 1);
    assert Match(t3, 1) == Some(1) && Match(t2, 2) == Some(2) && Match(t1, 1) == Some(3);
  }

  lemma MarkerIsFirst(texts: seq<string>, tags: seq<Tag>)
    requires |texts| == |tags| + 1 && tags != [] && tags[0] == Open(MARKER) && texts[0] == ""
    ensures MarkedAt(texts, tags, 0)
  {
    var content, rest := Render(texts, tags), Render(texts[1..], tags[1..]);
    var tag := TagText(tags[0]);
    assert content == tag + rest by {
      assert "" + tag == tag;
    }
    assert tag == "<node " + MARKER + ">";
    MarkerIsSixth(content, ">", rest);
    assert Offset(texts, tags, 0) == 0;
  }

  lemma MarkerIsSixth(content: string, end: string, rest: string)
    requires content == "<node " + MARKER + end + rest
    ensures Find(content, MARKER, 0) == 6
  {
    var front := "<node ";
    assert content == front + (MARKER + (end + rest));
    OccursShift(front, MARKER + (end + rest), MARKER, 0);
    assert (MARKER + (end + rest))[0..0 + |MARKER|] == MARKER;
    forall i | 0 <= i < 6 ensures !OccursAt(content, MARKER, i) {
      NotBeforeSixth(content, i);
    }
    FindIs(content, MARKER, 0, 6);
  }

  lemma NotBeforeSixth(content: string, i: nat)
    requires i < 6 < |content| && content[..6] == "<node "
    ensures !OccursAt(content, MARKER, i)
  {
    assert content[i] == content[..6][i];
    assert i == 2 ==> content[3] == content[..6][3];
    OccursChar(content, MARKER, i, 0);
    OccursChar(content, MARKER, i, 1);
  }
}
