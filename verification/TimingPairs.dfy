/** The pairing of scripts/analyze_tool_call_timing.py: each send of a tool loop round is matched
    with the stream end that closes it, in one pass over both lists. */
module TimingPairs {
  import opened Sets

  datatype Event = Send(time: real, round: int) | Done(time: real)

  /** The sort key (time, is it a send): at equal times a stream end sorts before a send. */
  predicate KeyLe(a: Event, b: Event) {
    a.time < b.time || (a.time == b.time && (a.Send? ==> b.Send?))
  }

  ghost predicate SortedEvents(events: seq<Event>) {
    forall i, j | 0 <= i < j < |events| :: KeyLe(events[i], events[j])
  }

  /** events.sort with that key: a later event goes behind all earlier ones that are not after it. */
  function SortLog(events: seq<Event>): seq<Event> {
    if events == [] then [] else PutInto(SortLog(events[..|events| - 1]), events[|events| - 1])
  }

  function PutInto(sorted: seq<Event>, e: Event): seq<Event> {
    if sorted == [] || !KeyLe(sorted[0], e) then [e] + sorted else [sorted[0]] + PutInto(sorted[1..], e)
  }

  lemma {:induction false} PutIntoAdds(sorted: seq<Event>, e: Event)
    ensures multiset(PutInto(sorted, e)) == multiset(sorted) + multiset{e}
    ensures forall x :: x in PutInto(sorted, e) <==> x in sorted || x == e
  {
    if sorted != [] && KeyLe(sorted[0], e) {
      PutIntoAdds(sorted[1..], e);
      assert sorted == [sorted[0]] + sorted[1..];
    }
  }

  lemma {:induction false} PutIntoSorts(sorted: seq<Event>, e: Event)
    requires SortedEvents(sorted)
    ensures SortedEvents(PutInto(sorted, e))
  {
    if sorted != [] && KeyLe(sorted[0], e) {
      PutIntoSorts(sorted[1..], e);
      PutIntoAdds(sorted[1..], e);
      var rest := PutInto(sorted[1..], e);
      forall i | 0 <= i < |rest| ensures KeyLe(sorted[0], rest[i]) {
        assert rest[i] in rest;
      }
    }
  }

  /** The sort puts exactly the events of the log in order. */
  lemma {:induction false} SortLogSorts(events: seq<Event>)
    ensures SortedEvents(SortLog(events)) && multiset(SortLog(events)) == multiset(events)
  {
    if events != [] {
      var front, last := events[..|events| - 1], events[|events| - 1];
      assert events == front + [last];
      SortLogSorts(front);
      PutIntoSorts(SortLog(front), last);
      PutIntoAdds(SortLog(front), last);
    }
  }

  ghost predicate Ascending(times: seq<real>) {
    forall i, j | 0 <= i < j < |times| :: times[i] <= times[j]
  }

  /** The times of one kind of event, in the order of the log. */
  function Times(events: seq<Event>, sends: bool): seq<real> {
    if events == [] then []
    else
      var last := events[|events| - 1];
      Times(events[..|events| - 1], sends) + if last.Send? == sends then [last.time] else []
  }

  lemma {:induction false} TimesAreAscending(events: seq<Event>, sends: bool)
    requires SortedEvents(events)
    ensures Ascending(Times(events, sends))
    ensures forall t | t in Times(events, sends) :: exists e :: e in events && e.time == t && e.Send? == sends
  {
    if events != [] {
      var front, last := events[..|events| - 1], events[|events| - 1];
      TimesAreAscending(front, sends);
      forall t | t in Times(front, sends) ensures t <= last.time {
        var e :| e in front && e.time == t && e.Send? == sends;
        var k :| 0 <= k < |front| && front[k] == e;
        assert KeyLe(events[k], events[|events| - 1]);
      }
      assert forall e | e in front :: e in events;
      var init, all := Times(front, sends), Times(events, sends);
      forall a, b | 0 <= a < b < |all| ensures all[a] <= all[b] {
        assert init[a] in init;
      }
    }
  }

  /** A way to pair sends with stream ends: each at most once, no end before its send. */
  ghost predicate IsMatching(m: map<int, int>, sends: seq<real>, dones: seq<real>) {
    && (forall i | i in m :: 0 <= i < |sends| && 0 <= m[i] < |dones| && dones[m[i]] >= sends[i])
    && (forall i, j | i in m && j in m && i != j :: m[i] != m[j])
  }

  /** Index k is not used by the first n pairs. */
  predicate Unused(pairs: seq<int>, n: nat, k: int)
    requires n <= |pairs|
  {
    k !in pairs[..n]
  }

  /** pairs[i] is the end for send i: ends are used in increasing order, each send has the
      earliest unused end that is not before it, and the pairing stops only at a send that has none. */
  ghost predicate IsGreedy(pairs: seq<int>, sends: seq<real>, dones: seq<real>) {
    && |pairs| <= |sends|
    && (forall i | 0 <= i < |pairs| :: 0 <= pairs[i] < |dones| && dones[pairs[i]] >= sends[i])
    && (forall i, j | 0 <= i < j < |pairs| :: pairs[i] < pairs[j])
    && (forall i, k | 0 <= i < |pairs| && 0 <= k < pairs[i] && Unused(pairs, i, k) :: dones[k] < sends[i])
    && (|pairs| < |sends| ==>
          forall k | 0 <= k < |dones| && Unused(pairs, |pairs|, k) :: dones[k] < sends[|pairs|])
  }

  /** The inner loop: the first index from j on whose end is not before the send. */
  method SkipBefore(dones: seq<real>, from: nat, sendTime: real) returns (j: nat)
    requires from <= |dones|
    ensures from <= j <= |dones| && (j < |dones| ==> dones[j] >= sendTime)
    ensures forall k | from <= k < j :: dones[k] < sendTime
  {
    j := from;
    while j < |dones| && dones[j] < sendTime
      invariant from <= j <= |dones| && forall k | from <= k < j :: dones[k] < sendTime
    {
      j := j + 1;
    }
  }

  /** The pairs so far are right, and every end before j is used or before all sends to come. */
  ghost predicate PairedSoFar(pairs: seq<int>, sends: seq<real>, dones: seq<real>, j: nat)
    requires |pairs| <= |sends| && j <= |dones|
  {
    && (forall a | 0 <= a < |pairs| :: 0 <= pairs[a] < j && dones[pairs[a]] >= sends[a])
    && (forall a, b | 0 <= a < b < |pairs| :: pairs[a] < pairs[b])
    && (forall a, k | 0 <= a < |pairs| && 0 <= k < pairs[a] && Unused(pairs, a, k) :: dones[k] < sends[a])
    && (|pairs| < |sends| ==>
          forall k | 0 <= k < j && Unused(pairs, |pairs|, k) :: dones[k] < sends[|pairs|])
  }

  lemma OneMorePair(pairs: seq<int>, sends: seq<real>, dones: seq<real>, j: nat, j': nat)
    requires Ascending(sends) && |pairs| < |sends| && j <= j' < |dones| && PairedSoFar(pairs, sends, dones, j)
    requires dones[j'] >= sends[|pairs|] && forall k | j <= k < j' :: dones[k] < sends[|pairs|]
    ensures PairedSoFar(pairs + [j'], sends, dones, j' + 1)
  {
    var more := pairs + [j'];
    assert pairs[..|pairs|] == pairs;
    forall a, k | 0 <= a < |more| && 0 <= k < more[a] && Unused(more, a, k) ensures dones[k] < sends[a] {
      assert more[..a] == pairs[..a];
    }
    if |more| < |sends| {
      forall k | 0 <= k < j' + 1 && Unused(more, |more|, k) ensures dones[k] < sends[|more|] {
        assert more[|pairs|] in more[..|more|];
        assert forall x | x in pairs :: x in more[..|more|];
        assert Unused(pairs, |pairs|, k);
      }
    }
  }

  method Pair(sends: seq<real>, dones: seq<real>) returns (pairs: seq<int>)
    requires Ascending(sends) && Ascending(dones)
    ensures IsGreedy(pairs, sends, dones)
    ensures forall m | IsMatching(m, sends, dones) :: |m| <= |pairs|
  {
    pairs := [];
    var j := 0;
    for i := 0 to |sends|
      invariant |pairs| == i && 0 <= j <= |dones| && PairedSoFar(pairs, sends, dones, j)
    {
      var next := SkipBefore(dones, j, sends[i]);
      if next >= |dones| {
        break;
      }
      OneMorePair(pairs, sends, dones, j, next);
      pairs := pairs + [next];
      j := next + 1;
    }
    forall m | IsMatching(m, sends, dones) ensures |m| <= |pairs| {
      GreedyIsMaximum(pairs, sends, dones, m);
    }
  }

  // ---------- Maximality ----------

  ghost function Interval(lo: int, hi: int): (s: set<int>)
    ensures forall x :: x in s <==> lo <= x < hi
    ensures lo <= hi ==> |s| == hi - lo
    decreases hi - lo
  {
    if lo >= hi then {} else {lo} + Interval(lo + 1, hi)
  }

  /** An injective map from keys into [lo, hi) has at most hi - lo keys. */
  lemma {:induction false} InjectionSize<K>(m: map<K, int>, keys: set<K>, lo: int, hi: int)
    requires keys <= m.Keys && lo <= hi && forall i | i in keys :: lo <= m[i] < hi
    requires forall i, j | i in keys && j in keys && i != j :: m[i] != m[j]
    ensures |keys| <= hi - lo
  {
    SubsetSize(set i | i in keys :: m[i], Interval(lo, hi));
    ImageSize(m, keys);
  }

  lemma {:induction false} ImageSize<K, V>(m: map<K, V>, keys: set<K>)
    requires keys <= m.Keys && forall i, j | i in keys && j in keys && i != j :: m[i] != m[j]
    ensures |set i | i in keys :: m[i]| == |keys|
  {
    if keys != {} {
      var x :| x in keys;
      ImageSize(m, keys - {x});
      assert (set i | i in keys :: m[i]) == {m[x]} + set i | i in keys - {x} :: m[i];
    } else {
      assert (set i | i in keys :: m[i]) == {};
    }
  }

  lemma KeysBelow(m: map<int, int>, n: nat)
    requires forall i | i in m :: 0 <= i < n
    ensures |m| <= n
  {
    SubsetSize(m.Keys, Interval(0, n));
  }

  /** Sends from index s on can only be matched beyond end `cut`, and the greedy pairing uses all of those. */
  lemma MatchingAroundCut(m: map<int, int>, sends: seq<real>, dones: seq<real>, s: nat, cut: int)
    requires Ascending(sends) && Ascending(dones) && IsMatching(m, sends, dones)
    requires s < |sends| && 0 <= cut < |dones| && dones[cut] < sends[s]
    ensures |m| <= s + (|dones| - cut - 1)
  {
    var low := set i | i in m && i < s;
    var high := set i | i in m && i >= s;
    assert m.Keys == low + high;
    SubsetSize(low, Interval(0, s));
    forall i | i in high ensures cut < m[i] {
      assert sends[s] <= sends[i] <= dones[m[i]];
    }
    InjectionSize(m, high, cut + 1, |dones|);
  }

  /** The last end that is left over, if any. */
  lemma {:induction false} LastUnused(pairs: seq<int>, n: nat) returns (cut: int)
    ensures -1 <= cut < n && (cut >= 0 ==> cut !in pairs)
    ensures forall k | cut < k < n :: k in pairs
  {
    if n == 0 {
      cut := -1;
    } else if n - 1 !in pairs {
      cut := n - 1;
    } else {
      cut := LastUnused(pairs, n - 1);
    }
  }

  /** How many pairs lie before the cut. */
  lemma {:induction false} PairsBefore(pairs: seq<int>, cut: int, n: nat) returns (s: nat)
    requires n <= |pairs| && forall i, j | 0 <= i < j < |pairs| :: pairs[i] < pairs[j]
    requires cut !in pairs && forall i | n <= i < |pairs| :: pairs[i] > cut
    ensures s <= |pairs|
    ensures forall i | 0 <= i < |pairs| :: pairs[i] < cut <==> i < s
  {
    if n == 0 || pairs[n - 1] < cut {
      s := n;
    } else {
      s := PairsBefore(pairs, cut, n - 1);
    }
  }

  lemma NoMoreThanEnds(m: map<int, int>, sends: seq<real>, dones: seq<real>)
    requires IsMatching(m, sends, dones)
    ensures |m| <= |dones|
  {
    assert forall i | i in m.Keys :: 0 <= m[i] < |dones|;
    assert forall i, j | i in m.Keys && j in m.Keys && i != j :: m[i] != m[j];
    InjectionSize(m, m.Keys, 0, |dones|);
  }

  lemma GreedyIsMaximum(pairs: seq<int>, sends: seq<real>, dones: seq<real>, m: map<int, int>)
    requires Ascending(sends) && Ascending(dones) && IsGreedy(pairs, sends, dones) && IsMatching(m, sends, dones)
    ensures |m| <= |pairs|
  {
    if |pairs| == |sends| {
      KeysBelow(m, |sends|);
      return;
    }
    var cut := LastUnused(pairs, |dones|);
    if cut < 0 {
      NoMoreThanEnds(m, sends, dones);
      AllUsed(pairs, -1, 0, |dones|);
    } else {
      var s := PairsBefore(pairs, cut, |pairs|);
      assert dones[cut] < sends[s] by {
        if s < |pairs| {
          assert Unused(pairs, s, cut);
        } else {
          assert Unused(pairs, |pairs|, cut);
        }
      }
      MatchingAroundCut(m, sends, dones, s, cut);
      AllUsed(pairs, cut, s, |dones|);
    }
  }

  /** If every end after the cut is used, there are as many pairs from s on as such ends. */
  lemma AllUsed(pairs: seq<int>, cut: int, s: nat, n: nat)
    requires -1 <= cut < n || (n == 0 && cut == -1)
    requires s <= |pairs| && forall i | 0 <= i < |pairs| :: 0 <= pairs[i] < n && (pairs[i] > cut <==> i >= s)
    requires forall i, j | 0 <= i < j < |pairs| :: pairs[i] < pairs[j]
    requires forall k | cut < k < n :: k in pairs
    ensures |pairs| - s >= n - cut - 1
  {
    var ends := Interval(cut + 1, n);
    var at := map k | k in ends :: IndexOf(pairs, k);
    forall k | k in ends ensures s <= at[k] < |pairs| {
      assert k in pairs;
    }
    InjectionSize(at, ends, s, |pairs|);
  }

  ghost function IndexOf(pairs: seq<int>, k: int): int
    ensures k in pairs ==> 0 <= IndexOf(pairs, k) < |pairs| && pairs[IndexOf(pairs, k)] == k
  {
    if k in pairs then var i :| 0 <= i < |pairs| && pairs[i] == k; i else 0
  }

  // ---------- The events of the log themselves ----------

  ghost predicate IsPair(events: seq<Event>, i: int, j: int) {
    && 0 <= i < |events| && 0 <= j < |events|
    && events[i].Send? && events[j].Done? && events[j].time >= events[i].time
  }

  /** A way to pair the log's own sends with its own stream ends. */
  ghost predicate IsPairing(events: seq<Event>, m: map<int, int>) {
    && (forall i | i in m :: IsPair(events, i, m[i]))
    && (forall i, j | i in m && j in m && i != j :: m[i] != m[j])
  }

  /** The sequence lists exactly this set, each element once. */
  ghost predicate Lists(at: seq<int>, s: set<int>) {
    && (forall x :: x in at <==> x in s)
    && (forall k, l | 0 <= k < l < |at| :: at[k] != at[l])
  }

  ghost function OfKind(events: seq<Event>, sends: bool): set<int> {
    set i | 0 <= i < |events| && events[i].Send? == sends
  }

  /** A sequence with one more element at j. */
  ghost function Inserted<T>(s: seq<T>, j: nat, x: T): seq<T>
    requires j <= |s|
  {
    seq(|s| + 1, k requires 0 <= k <= |s| => if k < j then s[k] else if k == j then x else s[k - 1])
  }

  lemma {:induction false} PutIntoInserts(sorted: seq<Event>, e: Event) returns (j: nat)
    ensures j <= |sorted| && PutInto(sorted, e) == Inserted(sorted, j, e)
  {
    j := 0;
    if sorted != [] && KeyLe(sorted[0], e) {
      var k := PutIntoInserts(sorted[1..], e);
      j := k + 1;
    }
  }

  /** Where the events of the sorted log stood before. */
  lemma {:induction false} PlacesInLog(events: seq<Event>) returns (at: seq<int>)
    ensures |at| == |SortLog(events)| && Lists(at, Interval(0, |events|))
    ensures forall k | 0 <= k < |at| :: 0 <= at[k] < |events| && events[at[k]] == SortLog(events)[k]
  {
    if events == [] {
      at := [];
    } else {
      var n := |events| - 1;
      var before := PlacesInLog(events[..n]);
      var j := PutIntoInserts(SortLog(events[..n]), events[n]);
      at := Inserted(before, j, n);
      InsertedLists(before, j, n);
    }
  }

  lemma InsertedHas(before: seq<int>, j: nat, n: int, i: int)
    requires j <= |before|
    ensures i in Inserted(before, j, n) <==> i in before || i == n
  {
    var at := Inserted(before, j, n);
    if k :| 0 <= k < |before| && before[k] == i {
      assert at[if k < j then k else k + 1] == i;
    }
    assert at[j] == n;
  }

  lemma InsertedLists(before: seq<int>, j: nat, n: nat)
    requires j <= |before| && Lists(before, Interval(0, n))
    ensures Lists(Inserted(before, j, n), Interval(0, n + 1))
  {
    forall i ensures i in Inserted(before, j, n) <==> i in Interval(0, n + 1) {
      InsertedHas(before, j, n, i);
    }
    assert n !in before;
    InsertedOnce(before, j, n);
  }

  lemma InsertedOnce(before: seq<int>, j: nat, n: int)
    requires j <= |before| && n !in before && forall k, l | 0 <= k < l < |before| :: before[k] != before[l]
    ensures var at := Inserted(before, j, n); forall k, l | 0 <= k < l < |at| :: at[k] != at[l]
  {
  }

  /** Times goes through all events of one kind. */
  lemma {:induction false} TimesAreAll(events: seq<Event>, sends: bool) returns (at: seq<int>)
    ensures |at| == |Times(events, sends)| && Lists(at, OfKind(events, sends))
    ensures forall k | 0 <= k < |at| :: 0 <= at[k] < |events| && events[at[k]].time == Times(events, sends)[k]
  {
    if events == [] {
      at := [];
    } else {
      var n := |events| - 1;
      at := TimesAreAll(events[..n], sends);
      assert forall k | 0 <= k < |at| :: at[k] in at;
      if events[n].Send? == sends {
        at := at + [n];
      }
    }
  }

  /** Where the times that PairLog pairs come from in the log as it was read. */
  lemma SortedTimesAreAll(events: seq<Event>, sends: bool) returns (at: seq<int>)
    ensures |at| == |Times(SortLog(events), sends)| && Lists(at, OfKind(events, sends))
    ensures forall k | 0 <= k < |at| ::
              0 <= at[k] < |events| && events[at[k]].time == Times(SortLog(events), sends)[k]
  {
    var log := SortLog(events);
    var places := PlacesInLog(events);
    var kind := TimesAreAll(log, sends);
    at := seq(|kind|, k requires 0 <= k < |kind| => if 0 <= kind[k] < |places| then places[kind[k]] else 0);
    assert forall k | 0 <= k < |kind| :: kind[k] in kind && at[k] == places[kind[k]];
    forall i | i in OfKind(events, sends) ensures i in at {
      assert i in places;
      var l :| 0 <= l < |places| && places[l] == i;
      assert l in kind;
      var k :| 0 <= k < |kind| && kind[k] == l;
      assert at[k] == i;
    }
  }

  /** No pairing of the log's events has more pairs than the greedy one of its times. */
  lemma NoBetterPairing(events: seq<Event>, pairs: seq<int>, m: map<int, int>)
    requires var log := SortLog(events); IsGreedy(pairs, Times(log, true), Times(log, false))
    requires IsPairing(events, m)
    ensures |m| <= |pairs|
  {
    var log := SortLog(events);
    var sends := SortedTimesAreAll(events, true);
    var dones := SortedTimesAreAll(events, false);
    var times := map k | 0 <= k < |sends| && sends[k] in m :: IndexOf(dones, m[sends[k]]);
    forall k | k in times
      ensures 0 <= times[k] < |dones| && dones[times[k]] == m[sends[k]]
    {
      assert m[sends[k]] in OfKind(events, false);
    }
    assert IsMatching(times, Times(log, true), Times(log, false));
    SortLogSorts(events);
    TimesAreAscending(log, true);
    TimesAreAscending(log, false);
    GreedyIsMaximum(pairs, Times(log, true), Times(log, false), times);
    forall i | i in m.Keys ensures exists k :: k in times.Keys && 0 <= k < |sends| && sends[k] == i {
      assert i in OfKind(events, true);
      var k :| 0 <= k < |sends| && sends[k] == i;
      assert k in times;
    }
    KeysFrom(m.Keys, times.Keys, sends);
  }

  /** No more keys than places to find them at. */
  lemma {:induction false} KeysFrom<K>(keys: set<K>, places: set<int>, at: seq<K>)
    requires forall i | i in keys :: exists k :: k in places && 0 <= k < |at| && at[k] == i
    ensures |keys| <= |places|
  {
    if keys != {} {
      var i :| i in keys;
      var k :| k in places && 0 <= k < |at| && at[k] == i;
      forall i' | i' in keys - {i} ensures exists k' :: k' in places - {k} && 0 <= k' < |at| && at[k'] == i' {
        var k' :| k' in places && 0 <= k' < |at| && at[k'] == i';
        assert k' in places - {k};
      }
      KeysFrom(keys - {i}, places - {k}, at);
    }
  }

  /** The greedy pairing of the times is one of the log's events. */
  lemma PairsAreAPairing(events: seq<Event>, pairs: seq<int>) returns (m: map<int, int>)
    requires var log := SortLog(events); IsGreedy(pairs, Times(log, true), Times(log, false))
    ensures IsPairing(events, m) && |m| == |pairs|
  {
    var sends := SortedTimesAreAll(events, true);
    var dones := SortedTimesAreAll(events, false);
    assert forall k | 0 <= k < |sends| :: sends[k] in sends;
    assert forall k | 0 <= k < |dones| :: dones[k] in dones;
    m := PairsUpTo(events, pairs, sends, dones, |pairs|);
  }

  lemma {:induction false} PairsUpTo(events: seq<Event>, pairs: seq<int>, sends: seq<int>, dones: seq<int>, n: nat)
    returns (m: map<int, int>)
    requires n <= |pairs| <= |sends|
    requires forall i | 0 <= i < |pairs| :: 0 <= pairs[i] < |dones|
    requires forall i, j | 0 <= i < j < |pairs| :: pairs[i] < pairs[j]
    requires forall k, l | 0 <= k < l < |sends| :: sends[k] != sends[l]
    requires forall k, l | 0 <= k < l < |dones| :: dones[k] != dones[l]
    requires forall k | 0 <= k < |pairs| :: IsPair(events, sends[k], dones[pairs[k]])
    ensures IsPairing(events, m) && |m| == n
    ensures forall i :: i in m <==> i in sends[..n]
    ensures forall i | i in m :: exists k :: 0 <= k < n && m[i] == dones[pairs[k]]
  {
    m := map[];
    if n > 0 {
      m := PairsUpTo(events, pairs, sends, dones, n - 1);
      m := m[sends[n - 1] := dones[pairs[n - 1]]];
    }
  }

  /** The report of a log: what analyze prints, as pairs of a send and its stream end. */
  method PairLog(events: seq<Event>) returns (pairs: seq<int>)
    ensures var log := SortLog(events);
            && IsGreedy(pairs, Times(log, true), Times(log, false))
            && forall m | IsMatching(m, Times(log, true), Times(log, false)) :: |m| <= |pairs|
    ensures forall m | IsPairing(events, m) :: |m| <= |pairs|
    ensures exists m :: IsPairing(events, m) && |m| == |pairs|
  {
    var log := SortLog(events);
    SortLogSorts(events);
    TimesAreAscending(log, true);
    TimesAreAscending(log, false);
    pairs := Pair(Times(log, true), Times(log, false));
    forall m | IsPairing(events, m) ensures |m| <= |pairs| {
      NoBetterPairing(events, pairs, m);
    }
    ghost var m := PairsAreAPairing(events, pairs);
  }
}
