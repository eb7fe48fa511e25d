/** The search of scripts/analyze_thread_deadlocks.py: from each synchronous entrypoint, a
    depth-first walk over the call graph with an explicit stack, a visited set and a bound on
    the length of the path, that reports every call of a blocking operation. */
module DeadlockSearch {
  import opened Sets
  import opened Strings

  const BLOCKING: set<string> := {"execute_on_main_thread"}
  const MAX_PATH := 15

  datatype Site = Site(file: string, line: int)
  datatype Edge = Edge(callee: string, site: Site)
  datatype Hazard = Hazard(entrypoint: string, chain: seq<string>, op: string, site: Site)

  type Graph = map<string, seq<Edge>>

  /** Nodes to visit, each with a call path that leads to it. */
  type Stack = seq<(string, seq<string>)>

  function Edges(g: Graph, node: string): seq<Edge> {
    if node in g then g[node] else []
  }

  /** The part of a dotted name after its last dot. */
  function Bare(name: string): string {
    if name == "" then ""
    else if name[|name| - 1] == '.' then ""
    else Bare(name[..|name| - 1]) + [name[|name| - 1]]
  }

  /** The node that a call leads to, or "" for none. */
  function Resolve(g: Graph, callee: string): string {
    if callee in g then callee else if Bare(callee) in g then Bare(callee) else ""
  }

  /** The node that the k-th name of a call chain stands for. */
  function NodeAt(g: Graph, chain: seq<string>, k: nat): string
    requires k < |chain|
  {
    if k == 0 then chain[0] else Resolve(g, chain[k])
  }

  function Last(g: Graph, chain: seq<string>): string
    requires chain != []
  {
    NodeAt(g, chain, |chain| - 1)
  }

  /** The step from the k-th name of a chain to the next is a call that the search may follow. */
  ghost predicate FollowsCall(g: Graph, chain: seq<string>, k: nat)
    requires k + 1 < |chain|
  {
    && chain[k + 1] !in BLOCKING && Resolve(g, chain[k + 1]) != ""
    && exists e :: e in Edges(g, NodeAt(g, chain, k)) && e.callee == chain[k + 1]
  }

  /** A call path from the entrypoint in the resolved call graph. */
  ghost predicate IsPath(g: Graph, entry: string, chain: seq<string>) {
    chain != [] && chain[0] == entry && forall k: nat | k + 1 < |chain| :: FollowsCall(g, chain, k)
  }

  /** A true report: a call path, followed by a blocking call at the reported place. */
  ghost predicate IsHazard(g: Graph, entry: string, h: Hazard) {
    && h.entrypoint == entry && |h.chain| >= 2 && h.op in BLOCKING
    && h.chain[|h.chain| - 1] == h.op
    && IsPath(g, entry, h.chain[..|h.chain| - 1])
    && Edge(h.op, h.site) in Edges(g, Last(g, h.chain[..|h.chain| - 1]))
  }

  /** A report for the blocking call e of the given node, from this entrypoint. */
  ghost predicate Reports(g: Graph, entry: string, h: Hazard, node: string, e: Edge) {
    && h.entrypoint == entry && |h.chain| >= 2 && Last(g, h.chain[..|h.chain| - 1]) == node
    && h.op == e.callee && h.site == e.site
  }

  ghost predicate Reported(g: Graph, entry: string, hazards: seq<Hazard>, node: string, e: Edge) {
    exists h :: h in hazards && Reports(g, entry, h, node, e)
  }

  /** Every blocking call of every node on some call path is reported. */
  ghost predicate AllReported(g: Graph, entry: string, hazards: seq<Hazard>) {
    forall chain, e | InReach(g, entry, chain, e) && e.callee in BLOCKING ::
      Reported(g, entry, hazards, Last(g, chain), e)
  }

  /** Some call path that visits no node twice is longer than the bound. */
  ghost predicate Deep(g: Graph, entry: string) {
    exists chain :: IsPath(g, entry, chain) && Distinct(Nodes(g, chain)) && |chain| > MAX_PATH
  }

  /** No call path that leads to the node without visiting any twice is longer than the bound. */
  ghost predicate Near(g: Graph, entry: string, node: string) {
    forall chain | IsPath(g, entry, chain) && Distinct(Nodes(g, chain)) && Last(g, chain) == node ::
      |chain| <= MAX_PATH
  }

  /** Every blocking call of every node in reach that is near is reported, whatever else the graph holds. */
  ghost predicate NearReported(g: Graph, entry: string, hazards: seq<Hazard>) {
    forall chain, e | InReach(g, entry, chain, e) && e.callee in BLOCKING && Near(g, entry, Last(g, chain)) ::
      Reported(g, entry, hazards, Last(g, chain), e)
  }

  /** What a search from one entrypoint promises of its reports. */
  ghost predicate IsSearchResult(g: Graph, entry: string, hazards: seq<Hazard>) {
    && (forall h | h in hazards && h.entrypoint == entry :: IsHazard(g, entry, h) && |h.chain| <= MAX_PATH + 1)
    && NearReported(g, entry, hazards)
  }

  /** Edge e can be reached from the entrypoint through the given chain. */
  ghost predicate InReach(g: Graph, entry: string, chain: seq<string>, e: Edge) {
    IsPath(g, entry, chain) && e in Edges(g, Last(g, chain))
  }

  /** A set of nodes that no followed call leaves. */
  ghost predicate Closed(g: Graph, entry: string, r: set<string>) {
    && entry in r
    && forall n, e | n in r && e in Edges(g, n) && e.callee !in BLOCKING && Resolve(g, e.callee) != "" ::
         Resolve(g, e.callee) in r
  }

  // ---------- The loop ----------

  /** The nodes of a chain are pairwise different, and all but the last are visited. */
  ghost predicate Simple(g: Graph, chain: seq<string>, visited: set<string>) {
    && (forall i, j | 0 <= i < j < |chain| :: NodeAt(g, chain, i) != NodeAt(g, chain, j))
    && (forall i | 0 <= i < |chain| - 1 :: NodeAt(g, chain, i) in visited)
  }

  ghost predicate ItemOk(g: Graph, entry: string, item: (string, seq<string>), visited: set<string>) {
    && IsPath(g, entry, item.1) && Last(g, item.1) == item.0 && |item.1| <= MAX_PATH
    && Simple(g, item.1, visited)
    && (item.0 in g || item.0 == entry)
  }

  ghost predicate OnStack(stack: Stack, node: string) {
    exists i :: 0 <= i < |stack| && stack[i].0 == node
  }

  /** The search has gone through a call path to this node that is as long as the bound allows. */
  ghost predicate IsLongPath(g: Graph, entry: string, visited: set<string>, node: string, p: seq<string>) {
    && IsPath(g, entry, p) && Last(g, p) == node && Distinct(Nodes(g, p)) && |p| >= MAX_PATH
    && forall n | n in Nodes(g, p) :: n in visited
  }

  ghost predicate CutAt(g: Graph, entry: string, visited: set<string>, node: string) {
    exists p :: IsLongPath(g, entry, visited, node, p)
  }

  /** Edge e of a visited node has been dealt with, or cut off. */
  ghost predicate Done(g: Graph, entry: string, hazards: seq<Hazard>, visited: set<string>, stack: Stack,
                       node: string, e: Edge) {
    if e.callee in BLOCKING then Reported(g, entry, hazards, node, e)
    else
      || Resolve(g, e.callee) == "" || Resolve(g, e.callee) in visited || OnStack(stack, Resolve(g, e.callee))
      || CutAt(g, entry, visited, node)
  }

  lemma {:induction false} PathStaysInside(g: Graph, entry: string, chain: seq<string>, r: set<string>, k: nat)
    requires IsPath(g, entry, chain) && Closed(g, entry, r) && k < |chain|
    ensures NodeAt(g, chain, k) in r
  {
    if k > 0 {
      PathStaysInside(g, entry, chain, r, k - 1);
      assert FollowsCall(g, chain, k - 1);
    }
  }

  ghost function Nodes(g: Graph, chain: seq<string>): seq<string> {
    seq(|chain|, k requires 0 <= k < |chain| => NodeAt(g, chain, k))
  }

  ghost function Elements(nodes: seq<string>): set<string> {
    set n | n in nodes
  }

  ghost predicate Distinct(nodes: seq<string>) {
    forall i, j | 0 <= i < j < |nodes| :: nodes[i] != nodes[j]
  }

  lemma {:induction false} DistinctElements(nodes: seq<string>)
    requires Distinct(nodes)
    ensures |Elements(nodes)| == |nodes|
  {
    if nodes != [] {
      var front, last := nodes[..|nodes| - 1], nodes[|nodes| - 1];
      DistinctElements(front);
      assert last !in Elements(front);
      assert nodes == front + [last];
      assert Elements(nodes) == Elements(front) + {last};
    }
  }

  /** Following a call to a new node from a simple path makes a longer simple path. */
  lemma Extend(g: Graph, entry: string, path: seq<string>, e: Edge, visited: set<string>)
    requires IsPath(g, entry, path) && Simple(g, path, visited) && Last(g, path) in visited
    requires e in Edges(g, Last(g, path)) && e.callee !in BLOCKING
    requires Resolve(g, e.callee) != "" && Resolve(g, e.callee) !in visited
    ensures var p := path + [e.callee];
            IsPath(g, entry, p) && Last(g, p) == Resolve(g, e.callee) && Simple(g, p, visited)
  {
    var p := path + [e.callee];
    assert forall k | 0 <= k < |path| :: NodeAt(g, p, k) == NodeAt(g, path, k);
    forall k: nat | k + 1 < |p| ensures FollowsCall(g, p, k) {
      if k + 1 < |path| {
        assert FollowsCall(g, path, k);
      }
    }
  }

  /** With at most MAX_PATH nodes in reach no path without repetition is longer than that. */
  lemma SmallIsNotDeep(g: Graph, entry: string, r: set<string>)
    requires Closed(g, entry, r) && |r| <= MAX_PATH
    ensures !Deep(g, entry)
  {
    forall chain | IsPath(g, entry, chain) && Distinct(Nodes(g, chain)) ensures |chain| <= MAX_PATH {
      var nodes := Nodes(g, chain);
      DistinctElements(nodes);
      forall n | n in Elements(nodes) ensures n in r {
        var k :| 0 <= k < |nodes| && n == nodes[k];
        PathStaysInside(g, entry, chain, r, k);
      }
      SubsetSize(Elements(nodes), r);
    }
  }

  /** If nothing is far, all is reported. */
  lemma NotDeepReportsAll(g: Graph, entry: string, hazards: seq<Hazard>)
    requires IsSearchResult(g, entry, hazards) && !Deep(g, entry)
    ensures AllReported(g, entry, hazards)
  {
    forall chain, e | InReach(g, entry, chain, e) && e.callee in BLOCKING
      ensures Reported(g, entry, hazards, Last(g, chain), e)
    {
      assert Near(g, entry, Last(g, chain));
    }
  }

  // ---------- What is not visited is far ----------

  /** The last visited node on a path that ends in an unvisited one. */
  lemma {:induction false} LastVisited(g: Graph, chain: seq<string>, visited: set<string>, k: nat) returns (j: nat)
    requires k < |chain| && NodeAt(g, chain, 0) in visited
    requires forall i | k < i < |chain| :: NodeAt(g, chain, i) !in visited
    ensures j < |chain| && NodeAt(g, chain, j) in visited
    ensures forall i | j < i < |chain| :: NodeAt(g, chain, i) !in visited
  {
    if NodeAt(g, chain, k) in visited {
      j := k;
    } else {
      j := LastVisited(g, chain, visited, k - 1);
    }
  }

  /** A path that goes on from p through these names. */
  ghost predicate GoesOn(g: Graph, entry: string, p: seq<string>, w: seq<string>) {
    p != [] && w != [] && IsPath(g, entry, p + w)
  }

  /** Instead of coming back to a node, the path can stay there. */
  lemma SkipLoop(g: Graph, entry: string, p: seq<string>, w: seq<string>, i: nat, j: nat)
    requires GoesOn(g, entry, p, w) && i < j < |w| && Resolve(g, w[i]) == Resolve(g, w[j])
    ensures var w' := w[..i + 1] + w[j + 1..];
            GoesOn(g, entry, p, w') && |w'| < |w| && Last(g, p + w') == Last(g, p + w)
            && forall x | x in w' :: x in w
  {
    var w' := w[..i + 1] + w[j + 1..];
    var long, short := p + w, p + w';
    forall k: nat | k + 1 < |short| ensures FollowsCall(g, short, k) {
      var from: nat := if k < |p| + i then k else k + (j - i);
      assert FollowsCall(g, long, from);
      assert short[k + 1] == long[from + 1];
      SameNodeAfterSkip(g, p, w, i, j, k);
    }
  }

  lemma SameNodeAfterSkip(g: Graph, p: seq<string>, w: seq<string>, i: nat, j: nat, k: nat)
    requires p != [] && i < j < |w| && Resolve(g, w[i]) == Resolve(g, w[j])
    requires k < |p| + |w| - (j - i)
    ensures NodeAt(g, p + (w[..i + 1] + w[j + 1..]), k) ==
            NodeAt(g, p + w, if k < |p| + i then k else k + (j - i))
  {
  }

  ghost function Resolved(g: Graph, w: seq<string>): seq<string> {
    seq(|w|, k requires 0 <= k < |w| => Resolve(g, w[k]))
  }

  /** Loops taken out, the path goes on through different nodes. */
  lemma {:induction false} Shorten(g: Graph, entry: string, p: seq<string>, w: seq<string>) returns (w': seq<string>)
    requires GoesOn(g, entry, p, w)
    ensures GoesOn(g, entry, p, w') && Last(g, p + w') == Last(g, p + w) && Distinct(Resolved(g, w'))
    ensures forall x | x in w' :: x in w
    decreases |w|
  {
    if Distinct(Resolved(g, w)) {
      w' := w;
    } else {
      var nodes := Resolved(g, w);
      var i, j :| 0 <= i < j < |nodes| && nodes[i] == nodes[j];
      SkipLoop(g, entry, p, w, i, j);
      w' := Shorten(g, entry, p, w[..i + 1] + w[j + 1..]);
    }
  }

  /** A long path through visited nodes, continued through unvisited ones, shows that its end is far. */
  lemma ContinuedIsFar(g: Graph, entry: string, visited: set<string>, node: string, p: seq<string>, w: seq<string>)
    requires IsLongPath(g, entry, visited, node, p) && GoesOn(g, entry, p, w)
    requires forall x | x in w :: Resolve(g, x) !in visited
    ensures !Near(g, entry, Last(g, p + w))
  {
    var w' := Shorten(g, entry, p, w);
    var chain := p + w';
    forall i, j | 0 <= i < j < |chain| ensures Nodes(g, chain)[i] != Nodes(g, chain)[j] {
      assert i < |p| ==> Nodes(g, chain)[i] == Nodes(g, p)[i] && Nodes(g, p)[i] in Nodes(g, p);
      assert j < |p| ==> Nodes(g, chain)[j] == Nodes(g, p)[j];
      assert j >= |p| ==> Nodes(g, chain)[j] == Resolved(g, w')[j - |p|] && w'[j - |p|] in w';
      assert i >= |p| ==> Nodes(g, chain)[i] == Resolved(g, w')[i - |p|];
    }
    assert Distinct(Nodes(g, chain)) && |chain| > MAX_PATH;
  }

  /** The tail of a path can be continued from any other path to the node before it. */
  lemma TailGoesOn(g: Graph, entry: string, chain: seq<string>, j: nat, p: seq<string>)
    requires IsPath(g, entry, chain) && IsPath(g, entry, p) && j + 1 < |chain|
    requires Last(g, p) == NodeAt(g, chain, j)
    ensures GoesOn(g, entry, p, chain[j + 1..]) && Last(g, p + chain[j + 1..]) == Last(g, chain)
  {
    var w := chain[j + 1..];
    forall k: nat | k + 1 < |p + w| ensures FollowsCall(g, p + w, k) {
      if k + 1 < |p| {
        assert FollowsCall(g, p, k);
      } else {
        assert FollowsCall(g, chain, j + (k + 1 - |p|));
        assert NodeAt(g, p + w, k) == NodeAt(g, chain, j + (k + 1 - |p|));
      }
    }
  }

  /** All edges of all visited nodes are done or cut off. */
  ghost predicate SearchIsOver(g: Graph, entry: string, hazards: seq<Hazard>, visited: set<string>) {
    && entry in visited
    && forall v, e {:trigger Done(g, entry, hazards, visited, [], v, e)} | v in visited && e in Edges(g, v) ::
         Done(g, entry, hazards, visited, [], v, e)
  }

  /** When the search is over every node in reach that is near has been visited. */
  lemma NearIsVisited(g: Graph, entry: string, hazards: seq<Hazard>, visited: set<string>, chain: seq<string>)
    requires SearchIsOver(g, entry, hazards, visited)
    requires IsPath(g, entry, chain) && Near(g, entry, Last(g, chain))
    ensures Last(g, chain) in visited
  {
    if Last(g, chain) !in visited {
      var j := LastVisited(g, chain, visited, |chain| - 1);
      BehindVisitedIsFar(g, entry, hazards, visited, chain, j);
    }
  }

  lemma BehindVisitedIsFar(g: Graph, entry: string, hazards: seq<Hazard>, visited: set<string>,
                           chain: seq<string>, j: nat)
    requires SearchIsOver(g, entry, hazards, visited) && IsPath(g, entry, chain) && j + 1 < |chain|
    requires NodeAt(g, chain, j) in visited && forall i | j < i < |chain| :: NodeAt(g, chain, i) !in visited
    ensures !Near(g, entry, Last(g, chain))
  {
    CutBehind(g, entry, hazards, visited, chain, j);
    CutIsFar(g, entry, visited, chain, j);
  }

  /** Where a path goes on through unvisited nodes from one at which the search was cut off, its end is far. */
  lemma CutIsFar(g: Graph, entry: string, visited: set<string>, chain: seq<string>, j: nat)
    requires IsPath(g, entry, chain) && j + 1 < |chain| && CutAt(g, entry, visited, NodeAt(g, chain, j))
    requires forall i | j < i < |chain| :: NodeAt(g, chain, i) !in visited
    ensures !Near(g, entry, Last(g, chain))
  {
    var p :| IsLongPath(g, entry, visited, NodeAt(g, chain, j), p);
    TailGoesOn(g, entry, chain, j, p);
    TailIsUnvisited(g, chain, visited, j);
    ContinuedIsFar(g, entry, visited, NodeAt(g, chain, j), p, chain[j + 1..]);
  }

  /** Where a path leaves the visited nodes, the search was cut off. */
  lemma CutBehind(g: Graph, entry: string, hazards: seq<Hazard>, visited: set<string>, chain: seq<string>, j: nat)
    requires SearchIsOver(g, entry, hazards, visited) && IsPath(g, entry, chain) && j + 1 < |chain|
    requires NodeAt(g, chain, j) in visited && NodeAt(g, chain, j + 1) !in visited
    ensures CutAt(g, entry, visited, NodeAt(g, chain, j))
  {
    assert FollowsCall(g, chain, j);
    var e :| e in Edges(g, NodeAt(g, chain, j)) && e.callee == chain[j + 1];
    assert Done(g, entry, hazards, visited, [], NodeAt(g, chain, j), e);
  }

  lemma TailIsUnvisited(g: Graph, chain: seq<string>, visited: set<string>, j: nat)
    requires j < |chain| && forall i | j < i < |chain| :: NodeAt(g, chain, i) !in visited
    ensures forall x | x in chain[j + 1..] :: Resolve(g, x) !in visited
  {
    forall x | x in chain[j + 1..] ensures Resolve(g, x) !in visited {
      var i :| j < i < |chain| && chain[i] == x;
      assert NodeAt(g, chain, i) == Resolve(g, x);
    }
  }

  lemma VisitedMeansReported(g: Graph, entry: string, hazards: seq<Hazard>, visited: set<string>)
    requires SearchIsOver(g, entry, hazards, visited)
    ensures NearReported(g, entry, hazards)
  {
    forall chain, e | InReach(g, entry, chain, e) && e.callee in BLOCKING && Near(g, entry, Last(g, chain))
      ensures Reported(g, entry, hazards, Last(g, chain), e)
    {
      NearIsVisited(g, entry, hazards, visited, chain);
      assert Done(g, entry, hazards, visited, [], Last(g, chain), e);
    }
  }

  ghost predicate StackOk(g: Graph, entry: string, stack: Stack, visited: set<string>) {
    forall i | 0 <= i < |stack| :: ItemOk(g, entry, stack[i], visited)
  }

  ghost predicate ReportsOk(g: Graph, entry: string, hazards: seq<Hazard>) {
    forall h | h in hazards :: IsHazard(g, entry, h) && |h.chain| <= MAX_PATH + 1
  }

  /** Nothing was forgotten: the edges of these nodes are dealt with. */
  ghost predicate AllDone(g: Graph, entry: string, hazards: seq<Hazard>, visited: set<string>, stack: Stack,
                          nodes: set<string>) {
    forall v, e | v in nodes && e in Edges(g, v) :: Done(g, entry, hazards, visited, stack, v, e)
  }

  /** The same for the first n edges of the node that is being expanded. */
  ghost predicate SomeDone(g: Graph, entry: string, hazards: seq<Hazard>, visited: set<string>, stack: Stack,
                           node: string, n: nat) {
    n <= |Edges(g, node)| &&
    forall k | 0 <= k < n :: Done(g, entry, hazards, visited, stack, node, Edges(g, node)[k])
  }

  // ---------- In terms of the calls ----------

  ghost predicate IsQualified(name: string, prefix: string, node: string) {
    name == prefix + "." + node
  }

  /** The node that a call leads to: the one of its name, or else the one of the part of its name behind
      the last dot. */
  ghost predicate LeadsTo(g: Graph, callee: string, node: string) {
    && node != "" && node in g
    && (callee == node || (callee !in g && '.' !in node && exists prefix :: IsQualified(callee, prefix, node)))
  }

  ghost predicate Calls(g: Graph, caller: string, callee: string) {
    caller in g && exists e :: e in g[caller] && e.callee == callee
  }

  /** The k-th node of a path calls the next by the name that the chain has for it, and that does not block. */
  ghost predicate CallAt(g: Graph, chain: seq<string>, nodes: seq<string>, k: nat)
    requires k + 1 < |chain| == |nodes|
  {
    chain[k + 1] !in BLOCKING && Calls(g, nodes[k], chain[k + 1]) && LeadsTo(g, chain[k + 1], nodes[k + 1])
  }

  /** Calls from node to node; `chain` has the names as they are called. */
  ghost predicate IsCallPath(g: Graph, entry: string, chain: seq<string>, nodes: seq<string>) {
    && chain != [] && |nodes| == |chain| && chain[0] == entry && nodes[0] == entry
    && forall k: nat | k + 1 < |chain| :: CallAt(g, chain, nodes, k)
  }

  /** A report at the end of a call path to this node. */
  ghost predicate ReportsFor(g: Graph, entry: string, h: Hazard, node: string, nodes: seq<string>) {
    && h.entrypoint == entry && |h.chain| == |nodes| + 1 && h.chain[|nodes|] == h.op
    && IsCallPath(g, entry, h.chain[..|nodes|], nodes) && nodes[|nodes| - 1] == node
  }

  ghost predicate IsReportFor(g: Graph, entry: string, h: Hazard, node: string) {
    exists nodes :: ReportsFor(g, entry, h, node, nodes)
  }

  /** No call path to the node that visits none twice is longer than the bound. */
  ghost predicate IsNear(g: Graph, entry: string, node: string) {
    forall chain, nodes | IsCallPath(g, entry, chain, nodes) && Distinct(nodes) && nodes[|nodes| - 1] == node ::
      |chain| <= MAX_PATH
  }

  /** Every report is of a blocking call behind a call path. */
  ghost predicate ReportsAreCalls(g: Graph, entry: string, hazards: seq<Hazard>) {
    forall h | h in hazards && h.entrypoint == entry ::
      && h.op in BLOCKING && |h.chain| <= MAX_PATH + 1
      && exists node :: node in g && Edge(h.op, h.site) in g[node] && IsReportFor(g, entry, h, node)
  }

  /** Every blocking call of a near node behind a call path is reported. */
  ghost predicate CallsAreReported(g: Graph, entry: string, hazards: seq<Hazard>) {
    forall chain, nodes, e | IsCallPath(g, entry, chain, nodes) && e in Edges(g, nodes[|nodes| - 1])
                             && e.callee in BLOCKING && IsNear(g, entry, nodes[|nodes| - 1]) ::
      exists h :: h in hazards && h.op == e.callee && h.site == e.site && IsReportFor(g, entry, h, nodes[|nodes| - 1])
  }

  lemma {:induction false} BareSplits(name: string) returns (prefix: string)
    ensures '.' !in Bare(name)
    ensures Bare(name) == name || IsQualified(name, prefix, Bare(name))
  {
    prefix := "";
    if name != "" {
      var front, last := name[..|name| - 1], name[|name| - 1];
      assert name == front + [last];
      if last == '.' {
        prefix := front;
      } else {
        prefix := BareSplits(front);
      }
    }
  }

  lemma ResolveIsLead(g: Graph, callee: string, node: string)
    ensures LeadsTo(g, callee, node) <==> node != "" && Resolve(g, callee) == node
  {
    var prefix := BareSplits(callee);
    if prefix' :| IsQualified(callee, prefix', node) && '.' !in node {
      BareOf(prefix', node);
    }
  }

  lemma CallsFollow(g: Graph, entry: string, chain: seq<string>, nodes: seq<string>)
    requires IsCallPath(g, entry, chain, nodes)
    ensures IsPath(g, entry, chain) && nodes == Nodes(g, chain)
  {
    forall k | 0 <= k < |chain| ensures nodes[k] == NodeAt(g, chain, k) && (k > 0 ==> nodes[k] != "") {
      if k > 0 {
        var j: nat := k - 1;
        assert CallAt(g, chain, nodes, j);
        ResolveIsLead(g, chain[k], nodes[k]);
      }
    }
    forall k: nat | k + 1 < |chain| ensures FollowsCall(g, chain, k) {
      assert CallAt(g, chain, nodes, k) && nodes[k + 1] != "";
    }
  }

  lemma FollowingCalls(g: Graph, entry: string, chain: seq<string>)
    requires IsPath(g, entry, chain)
    ensures IsCallPath(g, entry, chain, Nodes(g, chain))
  {
    var nodes := Nodes(g, chain);
    forall k: nat | k + 1 < |chain| ensures CallAt(g, chain, nodes, k) {
      assert FollowsCall(g, chain, k);
      ResolveIsLead(g, chain[k + 1], nodes[k + 1]);
    }
  }

  lemma NearInCalls(g: Graph, entry: string, node: string)
    requires Near(g, entry, node)
    ensures IsNear(g, entry, node)
  {
    forall chain, nodes | IsCallPath(g, entry, chain, nodes) && Distinct(nodes) && nodes[|nodes| - 1] == node
      ensures |chain| <= MAX_PATH
    {
      NearBounds(g, entry, chain, nodes);
    }
  }

  lemma NearBounds(g: Graph, entry: string, chain: seq<string>, nodes: seq<string>)
    requires IsCallPath(g, entry, chain, nodes) && Distinct(nodes) && Near(g, entry, nodes[|nodes| - 1])
    ensures |chain| <= MAX_PATH
  {
    CallsFollow(g, entry, chain, nodes);
    assert Last(g, chain) == nodes[|nodes| - 1];
  }

  lemma CallsAreNear(g: Graph, entry: string, node: string)
    requires IsNear(g, entry, node)
    ensures Near(g, entry, node)
  {
    forall chain | IsPath(g, entry, chain) && Distinct(Nodes(g, chain)) && Last(g, chain) == node
      ensures |chain| <= MAX_PATH
    {
      FollowingCalls(g, entry, chain);
      assert Nodes(g, chain)[|chain| - 1] == node;
    }
  }

  /** What a search result says of the calls. */
  lemma ResultInCalls(g: Graph, entry: string, hazards: seq<Hazard>)
    requires IsSearchResult(g, entry, hazards)
    ensures ReportsAreCalls(g, entry, hazards) && CallsAreReported(g, entry, hazards)
  {
    forall h | h in hazards && h.entrypoint == entry
      ensures h.op in BLOCKING && |h.chain| <= MAX_PATH + 1
              && exists node :: node in g && Edge(h.op, h.site) in g[node] && IsReportFor(g, entry, h, node)
    {
      HazardIsReport(g, entry, h);
    }
    forall chain, nodes, e | IsCallPath(g, entry, chain, nodes) && e in Edges(g, nodes[|nodes| - 1])
                             && e.callee in BLOCKING && IsNear(g, entry, nodes[|nodes| - 1])
      ensures exists h :: h in hazards && h.op == e.callee && h.site == e.site
                          && IsReportFor(g, entry, h, nodes[|nodes| - 1])
    {
      CallsFollow(g, entry, chain, nodes);
      CallsAreNear(g, entry, Last(g, chain));
      assert InReach(g, entry, chain, e) && Reported(g, entry, hazards, Last(g, chain), e);
      var h :| h in hazards && Reports(g, entry, h, Last(g, chain), e);
      HazardIsReport(g, entry, h);
    }
  }

  lemma HazardIsReport(g: Graph, entry: string, h: Hazard)
    requires IsHazard(g, entry, h)
    ensures var node := Last(g, h.chain[..|h.chain| - 1]);
            node in g && Edge(h.op, h.site) in g[node] && IsReportFor(g, entry, h, node)
  {
    var path := h.chain[..|h.chain| - 1];
    FollowingCalls(g, entry, path);
    assert ReportsFor(g, entry, h, Last(g, path), Nodes(g, path));
  }

  /** Method prompt of class C calls a helper on self, whose node has the bare name and blocks. */
  function HelperGraph(helper: Site, blocks: Site): Graph {
    map["C.prompt" := [Edge("C.helper", helper)], "helper" := [Edge("execute_on_main_thread", blocks)]]
  }

  /** What the helper blocks on is found. */
  lemma HelperIsFound(helper: Site, blocks: Site, hazards: seq<Hazard>)
    requires IsSearchResult(HelperGraph(helper, blocks), "C.prompt", hazards)
    ensures exists h :: h in hazards && h.op == "execute_on_main_thread" && h.site == blocks
  {
    var g := HelperGraph(helper, blocks);
    HelperPath(helper, blocks);
    HelperIsNear(helper, blocks);
    ResultInCalls(g, "C.prompt", hazards);
    var chain, nodes := ["C.prompt", "C.helper"], ["C.prompt", "helper"];
    assert nodes[|nodes| - 1] == "helper" && Edges(g, "helper")[0] == Edge("execute_on_main_thread", blocks);
    assert CallsAreReported(g, "C.prompt", hazards) && IsCallPath(g, "C.prompt", chain, nodes);
  }

  lemma HelperIsNear(helper: Site, blocks: Site)
    ensures IsNear(HelperGraph(helper, blocks), "C.prompt", "helper")
  {
    var g := HelperGraph(helper, blocks);
    var all := {"C.prompt", "helper"};
    assert Closed(g, "C.prompt", all);
    SmallIsNotDeep(g, "C.prompt", all);
    NearInCalls(g, "C.prompt", "helper");
  }

  lemma HelperPath(helper: Site, blocks: Site)
    ensures IsCallPath(HelperGraph(helper, blocks), "C.prompt", ["C.prompt", "C.helper"], ["C.prompt", "helper"])
  {
    var g := HelperGraph(helper, blocks);
    var callee := "C.helper";
    assert callee[2] == 'h' && "C.prompt"[2] == 'p' && |callee| != |"helper"|;
    assert callee[0] == 'C' && "execute_on_main_thread"[0] == 'e';
    assert IsQualified(callee, "C", "helper");
    assert LeadsTo(g, callee, "helper");
    assert g["C.prompt"][0] == Edge(callee, helper);
    assert Calls(g, "C.prompt", callee);
  }

  /** The search from one entrypoint. */
  method SearchFrom(g: Graph, entry: string) returns (hazards: seq<Hazard>)
    ensures IsSearchResult(g, entry, hazards) && forall h | h in hazards :: h.entrypoint == entry
    ensures ReportsAreCalls(g, entry, hazards) && CallsAreReported(g, entry, hazards)
  {
    hazards := [];
    var visited: set<string> := {};
    var stack: Stack := [(entry, [entry])];
    ghost var all := g.Keys + {entry};
    while stack != []
      invariant visited <= all
      invariant StackOk(g, entry, stack, visited) && ReportsOk(g, entry, hazards)
      invariant entry in visited || stack == [(entry, [entry])]
      invariant AllDone(g, entry, hazards, visited, stack, visited)
      decreases all - visited, |stack|
    {
      var (curr, path) := stack[|stack| - 1];
      assert ItemOk(g, entry, stack[|stack| - 1], visited);
      ghost var before := stack;
      stack := stack[..|stack| - 1];
      if curr in visited {
        PoppedStaysDone(g, entry, hazards, visited, before);
        continue;
      }
      PopKeepsDone(g, entry, hazards, visited, before);
      PopKeepsOk(g, entry, before, visited);
      ghost var seen := visited;
      visited := visited + {curr};
      stack, hazards := Expand(g, entry, curr, path, visited, stack, hazards, seen);
      AllOfNodeDone(g, entry, hazards, visited, stack, seen, curr);
    }
    VisitedMeansReported(g, entry, hazards, visited);
    ResultInCalls(g, entry, hazards);
  }

  /** The inner loop, over the calls of the node that was just visited. */
  method Expand(g: Graph, entry: string, curr: string, path: seq<string>, visited: set<string>,
                stack: Stack, hazards: seq<Hazard>, ghost seen: set<string>)
    returns (stack': Stack, hazards': seq<Hazard>)
    requires curr in visited && IsPath(g, entry, path) && Last(g, path) == curr && Simple(g, path, visited)
    requires |path| <= MAX_PATH
    requires StackOk(g, entry, stack, visited) && ReportsOk(g, entry, hazards)
    requires AllDone(g, entry, hazards, visited, stack, seen)
    ensures StackOk(g, entry, stack', visited) && ReportsOk(g, entry, hazards')
    ensures AllDone(g, entry, hazards', visited, stack', seen)
    ensures SomeDone(g, entry, hazards', visited, stack', curr, |Edges(g, curr)|)
  {
    stack', hazards' := stack, hazards;
    for i := 0 to |Edges(g, curr)|
      invariant StackOk(g, entry, stack', visited) && ReportsOk(g, entry, hazards')
      invariant AllDone(g, entry, hazards', visited, stack', seen)
      invariant SomeDone(g, entry, hazards', visited, stack', curr, i)
    {
      var e := Edges(g, curr)[i];
      if e.callee in BLOCKING {
        var h := Hazard(entry, path + [e.callee], e.callee, e.site);
        ReportStep(g, entry, curr, path, visited, stack', hazards', seen, i, h);
        hazards' := hazards' + [h];
      } else {
        var target := Resolve(g, e.callee);
        if target != "" && target !in visited {
          if |path| < MAX_PATH {
            PushStep(g, entry, curr, path, visited, stack', hazards', seen, i, e);
            stack' := stack' + [(target, path + [e.callee])];
          } else {
            CutStep(g, entry, curr, path, visited, stack', hazards', i);
          }
        } else {
          SkipStep(g, entry, curr, visited, stack', hazards', i);
        }
      }
    }
  }

  lemma CutStep(g: Graph, entry: string, curr: string, path: seq<string>, visited: set<string>, stack: Stack,
                hazards: seq<Hazard>, i: nat)
    requires IsPath(g, entry, path) && Last(g, path) == curr && Simple(g, path, visited) && curr in visited
    requires |path| >= MAX_PATH
    requires SomeDone(g, entry, hazards, visited, stack, curr, i) && i < |Edges(g, curr)|
    requires Edges(g, curr)[i].callee !in BLOCKING
    ensures SomeDone(g, entry, hazards, visited, stack, curr, i + 1)
  {
    assert IsLongPath(g, entry, visited, curr, path);
  }

  lemma SkipStep(g: Graph, entry: string, curr: string, visited: set<string>, stack: Stack,
                 hazards: seq<Hazard>, i: nat)
    requires SomeDone(g, entry, hazards, visited, stack, curr, i) && i < |Edges(g, curr)|
    requires var e := Edges(g, curr)[i];
             e.callee !in BLOCKING && (Resolve(g, e.callee) == "" || Resolve(g, e.callee) in visited)
    ensures SomeDone(g, entry, hazards, visited, stack, curr, i + 1)
  {
  }

  lemma ReportStep(g: Graph, entry: string, curr: string, path: seq<string>, visited: set<string>,
                   stack: Stack, hazards: seq<Hazard>, seen: set<string>, i: nat, h: Hazard)
    requires IsPath(g, entry, path) && Last(g, path) == curr && |path| <= MAX_PATH
    requires ReportsOk(g, entry, hazards) && AllDone(g, entry, hazards, visited, stack, seen)
    requires SomeDone(g, entry, hazards, visited, stack, curr, i) && i < |Edges(g, curr)|
    requires Edges(g, curr)[i].callee in BLOCKING
    requires var e := Edges(g, curr)[i]; h == Hazard(entry, path + [e.callee], e.callee, e.site)
    ensures ReportsOk(g, entry, hazards + [h]) && AllDone(g, entry, hazards + [h], visited, stack, seen)
    ensures SomeDone(g, entry, hazards + [h], visited, stack, curr, i + 1)
  {
    var e := Edges(g, curr)[i];
    assert h.chain[..|h.chain| - 1] == path;
    MoreHazardsKeepDone(g, entry, hazards, h, visited, stack);
    assert IsHazard(g, entry, h);
    assert h in hazards + [h] && Reports(g, entry, h, curr, e);
  }

  lemma PushStep(g: Graph, entry: string, curr: string, path: seq<string>, visited: set<string>,
                 stack: Stack, hazards: seq<Hazard>, seen: set<string>, i: nat, e: Edge)
    requires IsPath(g, entry, path) && Last(g, path) == curr && Simple(g, path, visited)
    requires |path| < MAX_PATH && curr in visited
    requires StackOk(g, entry, stack, visited) && AllDone(g, entry, hazards, visited, stack, seen)
    requires SomeDone(g, entry, hazards, visited, stack, curr, i) && i < |Edges(g, curr)|
    requires e == Edges(g, curr)[i] && e.callee !in BLOCKING
    requires Resolve(g, e.callee) != "" && Resolve(g, e.callee) !in visited
    ensures var more := stack + [(Resolve(g, e.callee), path + [e.callee])];
            && StackOk(g, entry, more, visited) && AllDone(g, entry, hazards, visited, more, seen)
            && SomeDone(g, entry, hazards, visited, more, curr, i + 1)
  {
    var item := (Resolve(g, e.callee), path + [e.callee]);
    Extend(g, entry, path, e, visited);
    MoreStackKeepsDone(g, entry, hazards, visited, stack, item);
    assert (stack + [item])[|stack|].0 == Resolve(g, e.callee);
  }

  lemma PopKeepsOk(g: Graph, entry: string, stack: Stack, visited: set<string>)
    requires stack != [] && StackOk(g, entry, stack, visited)
    ensures StackOk(g, entry, stack[..|stack| - 1], visited + {stack[|stack| - 1].0})
  {
  }

  lemma AllOfNodeDone(g: Graph, entry: string, hazards: seq<Hazard>, visited: set<string>, stack: Stack,
                      seen: set<string>, node: string)
    requires AllDone(g, entry, hazards, visited, stack, seen)
    requires SomeDone(g, entry, hazards, visited, stack, node, |Edges(g, node)|)
    ensures AllDone(g, entry, hazards, visited, stack, seen + {node})
  {
  }

  lemma PoppedStaysDone(g: Graph, entry: string, hazards: seq<Hazard>, visited: set<string>,
                        stack: Stack)
    requires stack != [] && stack[|stack| - 1].0 in visited
    ensures forall v, e | Done(g, entry, hazards, visited, stack, v, e) ::
              Done(g, entry, hazards, visited, stack[..|stack| - 1], v, e)
  {
    forall n | OnStack(stack, n) && n !in visited ensures OnStack(stack[..|stack| - 1], n) {
      var i :| 0 <= i < |stack| && stack[i].0 == n;
      assert stack[..|stack| - 1][i].0 == n;
    }
  }

  lemma PopKeepsDone(g: Graph, entry: string, hazards: seq<Hazard>, visited: set<string>,
                     stack: Stack)
    requires stack != []
    ensures forall v, e | Done(g, entry, hazards, visited, stack, v, e) ::
              Done(g, entry, hazards, visited + {stack[|stack| - 1].0}, stack[..|stack| - 1], v, e)
  {
    var more := visited + {stack[|stack| - 1].0};
    forall n | OnStack(stack, n) && n != stack[|stack| - 1].0 ensures OnStack(stack[..|stack| - 1], n) {
      var i :| 0 <= i < |stack| && stack[i].0 == n;
      assert stack[..|stack| - 1][i].0 == n;
    }
    forall v | CutAt(g, entry, visited, v) ensures CutAt(g, entry, more, v) {
      var p :| IsLongPath(g, entry, visited, v, p);
      assert IsLongPath(g, entry, more, v, p);
    }
  }

  lemma MoreStackKeepsDone(g: Graph, entry: string, hazards: seq<Hazard>, visited: set<string>,
                           stack: Stack, item: (string, seq<string>))
    ensures forall v, e | Done(g, entry, hazards, visited, stack, v, e) ::
              Done(g, entry, hazards, visited, stack + [item], v, e)
  {
    forall n | OnStack(stack, n) ensures OnStack(stack + [item], n) {
      var i :| 0 <= i < |stack| && stack[i].0 == n;
      assert (stack + [item])[i].0 == n;
    }
  }

  lemma MoreHazardsKeepDone(g: Graph, entry: string, hazards: seq<Hazard>, h: Hazard, visited: set<string>,
                            stack: Stack)
    ensures forall v, e | Done(g, entry, hazards, visited, stack, v, e) ::
              Done(g, entry, hazards + [h], visited, stack, v, e)
  {
    forall v, e | Reported(g, entry, hazards, v, e) ensures Reported(g, entry, hazards + [h], v, e) {
      var x :| x in hazards && Reports(g, entry, x, v, e);
      assert x in hazards + [h];
    }
  }

  /** Nodes of the graph that are, or end in a dot and, the name of a synchronous entrypoint. */
  function EntryNodes(g: Graph, names: set<string>): set<string> {
    set n | n in g && (n in names || exists m | m in names :: EndsWith(n, "." + m))
  }

  /** find_deadlock_hazards: the reports of all searches, one for each entry node. */
  method FindDeadlockHazards(g: Graph, names: set<string>) returns (hazards: seq<Hazard>)
    ensures forall h | h in hazards :: h.entrypoint in EntryNodes(g, names)
    ensures forall n | n in EntryNodes(g, names) :: IsSearchResult(g, n, hazards)
    ensures forall n | IsEntryNode(g, names, n) :: ReportsAreCalls(g, n, hazards) && CallsAreReported(g, n, hazards)
  {
    hazards := [];
    var todo := EntryNodes(g, names);
    while todo != {}
      invariant todo <= EntryNodes(g, names)
      invariant forall h | h in hazards :: h.entrypoint in EntryNodes(g, names) - todo
      invariant forall n | n in EntryNodes(g, names) - todo :: IsSearchResult(g, n, hazards)
    {
      var entry :| entry in todo;
      todo := todo - {entry};
      var found := SearchFrom(g, entry);
      forall n | n in EntryNodes(g, names) - todo ensures IsSearchResult(g, n, hazards + found) {
        if n == entry {
          ResultAmongOthers(g, n, hazards, found, hazards + found);
        } else {
          ResultAmongOthers(g, n, found, hazards, hazards + found);
        }
      }
      hazards := hazards + found;
    }
    forall n | IsEntryNode(g, names, n) ensures ReportsAreCalls(g, n, hazards) && CallsAreReported(g, n, hazards) {
      EntryNodesAre(g, names, n);
      ResultInCalls(g, n, hazards);
    }
  }

  /** A node is an entry if it is the name of a synchronous entrypoint, qualified or not. */
  ghost predicate IsEntryNode(g: Graph, names: set<string>, node: string) {
    node in g && (node in names || exists prefix, name :: name in names && IsQualified(node, prefix, name))
  }

  lemma EntryNodesAre(g: Graph, names: set<string>, node: string)
    ensures node in EntryNodes(g, names) <==> IsEntryNode(g, names, node)
  {
    if m :| m in names && EndsWith(node, "." + m) {
      var prefix := node[..|node| - |m| - 1];
      assert node == prefix + ("." + m) == prefix + "." + m;
      assert IsQualified(node, prefix, m);
    }
    if prefix, name :| name in names && IsQualified(node, prefix, name) {
      assert node[|prefix|..] == "." + name;
      assert EndsWith(node, "." + name);
    }
  }

  /** Reports for other entrypoints do not matter. */
  lemma ResultAmongOthers(g: Graph, entry: string, others: seq<Hazard>, hazards: seq<Hazard>, all: seq<Hazard>)
    requires IsSearchResult(g, entry, hazards) && forall h | h in others :: h.entrypoint != entry
    requires forall h :: h in all <==> h in others || h in hazards
    ensures IsSearchResult(g, entry, all)
  {
    forall chain, e | InReach(g, entry, chain, e) && e.callee in BLOCKING && Near(g, entry, Last(g, chain))
      ensures Reported(g, entry, all, Last(g, chain), e)
    {
      assert Reported(g, entry, hazards, Last(g, chain), e);
      var h :| h in hazards && Reports(g, entry, h, Last(g, chain), e);
      assert h in all;
    }
  }

  // ---------- What the search does not find ----------

  /** A node that every call path reaches late: none of its blocking calls is reported. */
  lemma LateCallsAreNotReported(g: Graph, entry: string, hazards: seq<Hazard>, node: string, e: Edge)
    requires IsSearchResult(g, entry, hazards)
    requires forall chain | IsPath(g, entry, chain) && Last(g, chain) == node :: |chain| > MAX_PATH
    ensures !Reported(g, entry, hazards, node, e)
  {
    forall h | h in hazards && h.entrypoint == entry ensures !Reports(g, entry, h, node, e) {
      assert IsHazard(g, entry, h);
    }
  }

  /** The test by which _build_graph keeps a call. */
  predicate Kept(defined: set<string>, callee: string) {
    KeptAsBlocking(callee) || callee in defined || Bare(callee) in defined
  }

  predicate KeptAsBlocking(callee: string) {
    callee in BLOCKING || Bare(callee) in BLOCKING
  }

  /** A reachable call that is blocking only by the part of its name after the last dot. */
  ghost predicate HasQualifiedCall(g: Graph, entry: string) {
    exists chain, e :: InReach(g, entry, chain, e) && e.callee !in BLOCKING && Bare(e.callee) in BLOCKING
  }

  /** Complete in the plain sense, every reachable call that was kept as blocking is reported, the
      search is exactly where no reachable call is blocking by its bare name only. */
  lemma CompleteUnlessQualified(g: Graph, entry: string, hazards: seq<Hazard>)
    requires IsSearchResult(g, entry, hazards) && AllReported(g, entry, hazards)
    ensures (forall chain, e | InReach(g, entry, chain, e) && KeptAsBlocking(e.callee) ::
               Reported(g, entry, hazards, Last(g, chain), e))
            <==> !HasQualifiedCall(g, entry)
  {
    forall chain, e | InReach(g, entry, chain, e) && e.callee !in BLOCKING
      ensures !Reported(g, entry, hazards, Last(g, chain), e)
    {
      forall h | h in hazards && h.entrypoint == entry ensures !Reports(g, entry, h, Last(g, chain), e) {
        assert IsHazard(g, entry, h);
      }
    }
    forall chain, e | InReach(g, entry, chain, e) && e.callee in BLOCKING
      ensures Reported(g, entry, hazards, Last(g, chain), e)
    {
    }
  }

  /** A graph that is one call, from a node of this name. */
  function OneCall(caller: string, callee: string, site: Site): Graph {
    map[caller := [Edge(callee, site)]]
  }

  /** Such a call: method prompt of class C calls execute_on_main_thread on self. */
  lemma QualifiedBlockingCallIsMissed(site: Site, defined: set<string>, hazards: seq<Hazard>)
    requires IsSearchResult(OneCall("C.prompt", "C.execute_on_main_thread", site), "C.prompt", hazards)
    ensures Kept(defined, "C.execute_on_main_thread") && forall h | h in hazards :: h.entrypoint != "C.prompt"
    ensures HasQualifiedCall(OneCall("C.prompt", "C.execute_on_main_thread", site), "C.prompt")
  {
    NameIsQualified();
    OneCallIsInReach("C.prompt", "C.execute_on_main_thread", site);
    NoBlockingEdgeNoHazard("C.prompt", "C.execute_on_main_thread", site);
  }

  lemma NameIsQualified()
    ensures "C.execute_on_main_thread" !in BLOCKING && Bare("C.execute_on_main_thread") in BLOCKING
  {
    BareOf("C", "execute_on_main_thread");
    assert "C.execute_on_main_thread" == "C" + "." + "execute_on_main_thread";
    assert |"C.execute_on_main_thread"| != |"execute_on_main_thread"|;
  }

  lemma OneCallIsInReach(caller: string, callee: string, site: Site)
    ensures InReach(OneCall(caller, callee, site), caller, [caller], Edge(callee, site))
  {
    assert Last(OneCall(caller, callee, site), [caller]) == caller;
  }

  lemma NoBlockingEdgeNoHazard(caller: string, callee: string, site: Site)
    requires callee !in BLOCKING
    ensures forall h :: !IsHazard(OneCall(caller, callee, site), caller, h)
  {
    assert forall m, x | x in Edges(OneCall(caller, callee, site), m) :: x == Edge(callee, site);
  }

  lemma {:induction false} BareOf(prefix: string, name: string)
    requires '.' !in name
    ensures Bare(prefix + "." + name) == name
    decreases |name|
  {
    var s := prefix + "." + name;
    if name == "" {
      assert s[|s| - 1] == '.';
    } else {
      var shorter := name[..|name| - 1];
      assert s[..|s| - 1] == prefix + "." + shorter;
      BareOf(prefix, shorter);
      assert s[|s| - 1] == name[|name| - 1];
      assert name[|name| - 1] in name;
    }
  }

  function Name(k: nat): string {
    seq(k + 1, _ => 'a')
  }

  /** A straight chain of n functions, the last of which blocks. */
  function Chain(n: nat): Graph {
    map s | s in (set k | 0 <= k < n :: Name(k)) ::
      [Edge(if |s| < n then Name(|s|) else "execute_on_main_thread", Site("m.py", |s| - 1))]
  }

  lemma ChainEdges(n: nat, k: nat)
    requires k < n
    ensures Edges(Chain(n), Name(k)) ==
            [Edge(if k + 1 < n then Name(k + 1) else "execute_on_main_thread", Site("m.py", k))]
    ensures Name(k) in Chain(n)
  {
    assert |Name(k)| == k + 1;
  }

  /** What matters about Chain(n): each name calls the next, and the last one blocks. */
  ghost predicate IsChain(g: Graph, n: nat) {
    forall k: nat | k < n :: Name(k) in g && |g[Name(k)]| == 1
                             && g[Name(k)][0].callee == if k + 1 < n then Name(k + 1) else "execute_on_main_thread"
  }

  lemma ChainIsChain(n: nat)
    ensures IsChain(Chain(n), n)
  {
    var g: Graph := Chain(n);
    forall k: nat | k < n
      ensures Name(k) in g && |g[Name(k)]| == 1
              && g[Name(k)][0].callee == if k + 1 < n then Name(k + 1) else "execute_on_main_thread"
    {
      ChainEdges(n, k);
    }
  }

  lemma ChainStep(g: Graph, n: nat, chain: seq<string>, k: nat)
    requires IsChain(g, n) && 0 < k < |chain| && k <= n && FollowsCall(g, chain, k - 1)
    requires NodeAt(g, chain, k - 1) == Name(k - 1)
    ensures k < n && chain[k] == Name(k) && NodeAt(g, chain, k) == Name(k)
  {
    assert chain[k - 1 + 1] !in BLOCKING;
    var e :| e in Edges(g, Name(k - 1)) && e.callee == chain[k];
    var j: nat := k - 1;
    assert g[Name(j)][0].callee == if j + 1 < n then Name(j + 1) else "execute_on_main_thread";
    assert e == g[Name(j)][0] && j + 1 == k;
  }

  lemma {:induction false} ChainNode(g: Graph, n: nat, chain: seq<string>, k: nat)
    requires n > 0 && IsChain(g, n) && IsPath(g, Name(0), chain) && k < |chain|
    ensures k < n && NodeAt(g, chain, k) == Name(k)
  {
    if k > 0 {
      ChainNode(g, n, chain, k - 1);
      assert FollowsCall(g, chain, k - 1);
      ChainStep(g, n, chain, k);
    }
  }

  /** The bound is tight: of a straight chain of n functions, the last of which blocks, the search
      misses the call exactly if n is more than the bound. */
  lemma LongChainsAreMissed(n: nat, hazards: seq<Hazard>)
    requires n > 0 && IsSearchResult(Chain(n), Name(0), hazards)
    ensures AllReported(Chain(n), Name(0), hazards) <==> n <= MAX_PATH
  {
    if n <= MAX_PATH {
      ShortChainIsNotDeep(n);
      NotDeepReportsAll(Chain(n), Name(0), hazards);
    } else {
      EndIsMissed(n, hazards);
    }
  }

  lemma ShortChainIsNotDeep(n: nat)
    requires 0 < n <= MAX_PATH
    ensures !Deep(Chain(n), Name(0))
  {
    ChainIsChain(n);
    forall chain | IsPath(Chain(n), Name(0), chain) ensures |chain| <= n {
      ChainNode(Chain(n), n, chain, |chain| - 1);
    }
  }

  lemma EndIsMissed(n: nat, hazards: seq<Hazard>)
    requires n > MAX_PATH && IsSearchResult(Chain(n), Name(0), hazards)
    ensures !AllReported(Chain(n), Name(0), hazards)
  {
    EndIsLate(n);
    ChainHasItsPath(n);
    var e := Edge("execute_on_main_thread", Site("m.py", n - 1));
    LateCallsAreNotReported(Chain(n), Name(0), hazards, Name(n - 1), e);
    assert InReach(Chain(n), Name(0), Names(n), e);
  }

  lemma EndIsLate(n: nat)
    requires n > 0
    ensures forall chain | IsPath(Chain(n), Name(0), chain) && Last(Chain(n), chain) == Name(n - 1) :: |chain| == n
  {
    ChainIsChain(n);
    forall chain | IsPath(Chain(n), Name(0), chain) && Last(Chain(n), chain) == Name(n - 1) ensures |chain| == n {
      ChainNode(Chain(n), n, chain, |chain| - 1);
      assert |Name(|chain| - 1)| == |Name(n - 1)|;
    }
  }

  lemma ChainHasItsPath(n: nat)
    requires n > 0
    ensures IsPath(Chain(n), Name(0), Names(n)) && Last(Chain(n), Names(n)) == Name(n - 1)
    ensures Edge("execute_on_main_thread", Site("m.py", n - 1)) in Edges(Chain(n), Name(n - 1))
  {
    var g, path := Chain(n), Names(n);
    forall k: nat | k < n ensures NodeAt(g, path, k) == Name(k) {
      ChainEdges(n, k);
    }
    forall k: nat | k + 1 < n ensures FollowsCall(g, path, k) {
      ChainFollows(n, k);
    }
    ChainEdges(n, n - 1);
    assert Edges(g, Name(n - 1))[0] == Edge("execute_on_main_thread", Site("m.py", n - 1));
  }

  lemma ChainFollows(n: nat, k: nat)
    requires k + 1 < n
    ensures FollowsCall(Chain(n), Names(n), k)
  {
    ChainEdges(n, k);
    ChainEdges(n, k + 1);
    NotBlocking(k + 1);
    var e := Edge(Name(k + 1), Site("m.py", k));
    assert NodeAt(Chain(n), Names(n), k) == Name(k);
    assert Edges(Chain(n), Name(k))[0] == e && e.callee == Names(n)[k + 1];
  }

  function Names(n: nat): seq<string> {
    seq(n, k requires 0 <= k < n => Name(k))
  }

  lemma NotBlocking(k: nat)
    ensures Name(k) !in BLOCKING
  {
    assert Name(k)[0] == 'a' && "execute_on_main_thread"[0] == 'e';
  }
}
