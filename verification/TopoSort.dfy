/** The module ordering of scripts/generate_manifest.py: a depth-first walk that emits a module
    after the providers of the services it requires. */
module TopoSort {
  datatype Module = Module(name: string, services: seq<string>, needs: seq<string>)

  /** Modules by name; of two modules with one name the later one counts. */
  function ByName(modules: seq<Module>): map<string, Module> {
    if modules == [] then map[]
    else
      var m := modules[|modules| - 1];
      ByName(modules[..|modules| - 1])[m.name := m]
  }

  function Providing(services: seq<string>, name: string): map<string, string> {
    map s | s in services :: name
  }

  /** The module that provides each service; of two providers the later one counts. */
  function Providers(modules: seq<Module>): map<string, string> {
    if modules == [] then map[]
    else
      var m := modules[|modules| - 1];
      Providers(modules[..|modules| - 1]) + Providing(m.services, m.name)
  }

  lemma {:induction false} ByNameKeepsNames(modules: seq<Module>)
    ensures forall n | n in ByName(modules) :: ByName(modules)[n].name == n
    ensures forall n :: n in ByName(modules) <==> exists m :: m in modules && m.name == n
  {
    if modules != [] {
      var last, front := modules[|modules| - 1], modules[..|modules| - 1];
      assert modules == front + [last];
      ByNameKeepsNames(front);
    }
  }

  /** What the two dictionaries of topo_sort say. */
  datatype Services = Services(byName: map<string, Module>, providers: map<string, string>)
  {
    ghost predicate Valid() {
      forall n | n in byName :: byName[n].name == n
    }

    function ProviderOf(req: string): string {
      if req in providers then providers[req] else req
    }

    /** Module a requires something that module b provides. */
    ghost predicate Edge(a: string, b: string) {
      a in byName && b in byName && exists req :: req in byName[a].needs && ProviderOf(req) == b
    }

    ghost predicate IsWalk(w: seq<string>) {
      forall i, j | 0 <= i && j == i + 1 < |w| :: Edge(w[i], w[j])
    }

    ghost predicate Cyclic() {
      exists w :: |w| >= 2 && w[0] == w[|w| - 1] && IsWalk(w)
    }

    ghost predicate Reaches(a: string, b: string) {
      exists w :: w != [] && w[0] == a && w[|w| - 1] == b && IsWalk(w)
    }

    ghost predicate Before(list: seq<Module>, i: nat, b: string)
      requires i <= |list|
    {
      exists k :: 0 <= k < i && list[k].name == b
    }

    /** Everything that the i-th module of a list requires comes before it, but for what in turn
        leads back to that module. */
    ghost predicate NeedsBefore(list: seq<Module>, i: nat)
      requires i < |list|
    {
      forall b | Edge(list[i].name, b) && !Reaches(b, list[i].name) :: Before(list, i, b)
    }

    /** From position `from` on, the list holds modules that `name` reaches, each after what it
        requires. */
    ghost predicate GrownFor(list: seq<Module>, name: string, from: nat) {
      forall i | from <= i < |list| :: Reaches(name, list[i].name) && NeedsBefore(list, i)
    }

    lemma SelfReach(name: string)
      ensures Reaches(name, name)
    {
      assert IsWalk([name]);
    }

    lemma EdgeThenReach(a: string, b: string, c: string)
      requires Edge(a, b) && Reaches(b, c)
      ensures Reaches(a, c)
    {
      var w :| w != [] && w[0] == b && w[|w| - 1] == c && IsWalk(w);
      assert IsWalk([a] + w);
    }

    lemma PrefixNeeds(list: seq<Module>, more: seq<Module>, k: nat)
      requires k < |list| && list <= more
      ensures NeedsBefore(list, k) ==> NeedsBefore(more, k)
    {
      assert forall i | 0 <= i < |list| :: more[i] == list[i];
      forall b | Before(list, k, b) ensures Before(more, k, b) {
      }
    }

    lemma GrownByOne(list: seq<Module>, m: Module, name: string, from: nat)
      requires from <= |list| && GrownFor(list, name, from) && Reaches(name, m.name)
      requires NeedsBefore(list + [m], |list|)
      ensures GrownFor(list + [m], name, from)
    {
      forall i | from <= i < |list| ensures NeedsBefore(list + [m], i) {
        PrefixNeeds(list, list + [m], i);
      }
    }

    /** The visit of a provider extends what was grown for its requirer. */
    lemma Extended(list: seq<Module>, more: seq<Module>, name: string, provider: string, from: nat)
      requires Edge(name, provider) && list <= more && from <= |list|
      requires GrownFor(list, name, from) && GrownFor(more, provider, |list|)
      ensures GrownFor(more, name, from)
    {
      forall i | from <= i < |more| ensures Reaches(name, more[i].name) && NeedsBefore(more, i) {
        if i < |list| {
          assert more[i] == list[i];
          PrefixNeeds(list, more, i);
        } else {
          EdgeThenReach(name, provider, more[i].name);
        }
      }
    }

    /** A name on a walk reaches the walk's end. */
    lemma ReachesEnd(inner: seq<string>, name: string, b: string)
      requires inner != [] && inner[|inner| - 1] == name && IsWalk(inner) && b in inner
      ensures Reaches(b, name)
    {
      var i :| 0 <= i < |inner| && inner[i] == b;
      assert IsWalk(inner[i..]);
    }

    lemma MutualMeansCyclic(a: string, b: string)
      requires Edge(a, b) && Reaches(b, a)
      ensures Cyclic()
    {
      var w :| w != [] && w[0] == b && w[|w| - 1] == a && IsWalk(w);
      assert IsWalk([a] + w);
    }

    /** What requires nothing but itself reaches nothing else. */
    lemma ReachesOnlyItself(a: string, b: string)
      requires (forall c | Edge(a, c) :: c == a) && Reaches(a, b)
      ensures b == a
    {
      var w :| w != [] && w[0] == a && w[|w| - 1] == b && IsWalk(w);
      StaysAtStart(w, |w| - 1);
    }

    lemma {:induction false} StaysAtStart(w: seq<string>, k: nat)
      requires k < |w| && IsWalk(w) && forall c | Edge(w[0], c) :: c == w[0]
      ensures w[k] == w[0]
    {
      if k > 0 {
        StaysAtStart(w, k - 1);
        assert Edge(w[k - 1], w[k]);
      }
    }
  }

  class Sorter {
    const g: Services
    var visited: set<string>
    var order: seq<Module>

    ghost function Emitted(): set<string>
      reads this
    {
      set i | 0 <= i < |order| :: order[i].name
    }

    /** Names that are being visited: known, but not yet emitted. */
    ghost function Open(): set<string>
      reads this
    {
      visited * g.byName.Keys - Emitted()
    }

    ghost predicate Valid()
      reads this
    {
      && g.Valid()
      && (forall i | 0 <= i < |order| :: order[i].name in g.byName && order[i] == g.byName[order[i].name])
      && (forall i, j | 0 <= i < j < |order| :: order[i].name != order[j].name)
      && Emitted() <= visited
    }

    constructor (g: Services)
      requires g.Valid()
      ensures Valid() && visited == {} && order == [] && this.g == g
    {
      this.g := g;
      visited, order := {}, [];
    }

    /** The inner function `visit`.  `stack` is the walk of names whose visits are under way. */
    method Visit(name: string, ghost stack: seq<string>)
      requires Valid() && g.IsWalk(stack) && (set n | n in stack) == Open()
      requires stack != [] ==> g.Edge(stack[|stack| - 1], name)
      modifies this
      ensures Valid() && visited >= old(visited) + {name} && Open() == old(Open())
      ensures old(order) <= order && g.GrownFor(order, name, |old(order)|)
      ensures name in g.byName ==> name in Emitted() || name in stack
      ensures name in g.byName && name !in old(visited) ==> EndsWith(name, stack)
      decreases g.byName.Keys - visited, |g.byName| + 1
    {
      if name in visited {
        return;
      }
      visited := visited + {name};
      if name !in g.byName {
        assert Open() == old(Open());
        return;
      }
      assert Open() == old(Open()) + {name};
      VisitNeeds(name, stack + [name]);
      ghost var before := order;
      EmittedOrOpen(name, stack + [name]);
      Emit(name, stack + [name]);
      assert Open() == old(Open());
      EndsWithNew(before, name, stack);
    }

    /** The last module is this one, after everything it requires that is not under way. */
    ghost predicate EndsWith(name: string, stack: seq<string>)
      reads this
    {
      && order != [] && order[|order| - 1].name == name
      && forall b | g.Edge(name, b) && b != name && b !in stack :: g.Before(order, |order| - 1, b)
    }

    /** The loop over what a module requires. */
    method VisitNeeds(name: string, ghost inner: seq<string>)
      requires Valid() && name in g.byName && g.IsWalk(inner) && (set n | n in inner) == Open()
      requires inner != [] && inner[|inner| - 1] == name
      modifies this
      ensures Valid() && visited >= old(visited) && Open() == old(Open())
      ensures old(order) <= order && g.GrownFor(order, name, |old(order)|)
      ensures NeedsMet(name, inner, |g.byName[name].needs|)
      decreases g.byName.Keys - visited, |g.byName| + 3
    {
      var m := g.byName[name];
      for i := 0 to |m.needs|
        invariant Valid() && visited >= old(visited) && Open() == old(Open())
        invariant old(order) <= order && g.GrownFor(order, name, |old(order)|)
        invariant NeedsMet(name, inner, i)
      {
        VisitNeed(name, inner, i, |old(order)|);
      }
    }

    /** The loop's body: visit the provider of the i-th requirement, if it is a known module. */
    method VisitNeed(name: string, ghost inner: seq<string>, i: nat, ghost from: nat)
      requires Valid() && name in g.byName && g.IsWalk(inner) && (set n | n in inner) == Open()
      requires inner != [] && inner[|inner| - 1] == name && i < |g.byName[name].needs| && from <= |order|
      requires g.GrownFor(order, name, from) && NeedsMet(name, inner, i)
      modifies this
      ensures Valid() && visited >= old(visited) && Open() == old(Open())
      ensures old(order) <= order && g.GrownFor(order, name, from) && NeedsMet(name, inner, i + 1)
      decreases g.byName.Keys - visited, |g.byName| + 2
    {
      var provider := g.ProviderOf(g.byName[name].needs[i]);
      if provider in g.byName {
        assert g.Edge(name, provider);
        Visit(provider, inner);
        KeepsEmitted(old(order));
        g.Extended(old(order), order, name, provider, from);
      }
    }

    /** The first n requirements of a module are emitted, or under way. */
    ghost predicate NeedsMet(name: string, inner: seq<string>, n: nat)
      reads this
      requires name in g.byName && n <= |g.byName[name].needs|
    {
      forall k | 0 <= k < n && g.ProviderOf(g.byName[name].needs[k]) in g.byName ::
        g.ProviderOf(g.byName[name].needs[k]) in Emitted() || g.ProviderOf(g.byName[name].needs[k]) in inner
    }

    method Emit(name: string, ghost inner: seq<string>)
      requires Valid() && name in g.byName && name in Open()
      requires inner != [] && inner[|inner| - 1] == name && g.IsWalk(inner)
      requires NeedsMet(name, inner, |g.byName[name].needs|)
      modifies this`order
      ensures Valid() && order == old(order) + [g.byName[name]]
      ensures Emitted() == old(Emitted()) + {name} && Open() == old(Open()) - {name}
      ensures forall from: nat | from <= |old(order)| && g.GrownFor(old(order), name, from) ::
                g.GrownFor(order, name, from)
    {
      ghost var before := order;
      ProvidersEmitted(inner, name);
      order := order + [g.byName[name]];
      assert forall k | 0 <= k < |before| :: order[k] == before[k];
      assert Emitted() == old(Emitted()) + {name} by {
        assert order[|before|].name == name;
      }
      g.SelfReach(name);
      NewNeedsBefore(before, name);
      forall from: nat | from <= |before| && g.GrownFor(before, name, from) ensures g.GrownFor(order, name, from) {
        g.GrownByOne(before, g.byName[name], name, from);
      }
    }

    lemma KeepsEmitted(before: seq<Module>)
      requires before <= order
      ensures forall i | 0 <= i < |before| :: before[i].name in Emitted()
    {
      assert forall i | 0 <= i < |before| :: order[i] == before[i];
    }

    lemma NewNeedsBefore(before: seq<Module>, name: string)
      requires name in g.byName && g.byName[name].name == name && order == before + [g.byName[name]]
      requires forall b | g.Edge(name, b) && !g.Reaches(b, name) :: exists k :: 0 <= k < |before| && before[k].name == b
      ensures g.NeedsBefore(order, |before|)
    {
      forall b | g.Edge(name, b) && !g.Reaches(b, name) ensures g.Before(order, |before|, b) {
        var k :| 0 <= k < |before| && before[k].name == b;
        assert order[k].name == b;
      }
    }

    /** A provider that is still open when its requirer is to be emitted leads back to it. */
    lemma ProvidersEmitted(inner: seq<string>, name: string)
      requires name in g.byName && NeedsMet(name, inner, |g.byName[name].needs|)
      requires inner != [] && inner[|inner| - 1] == name && g.IsWalk(inner)
      ensures forall b | g.Edge(name, b) && !g.Reaches(b, name) :: b in Emitted()
    {
      forall b | g.Edge(name, b) && !g.Reaches(b, name) ensures b in Emitted() {
        NeedIsMet(name, inner, b);
        if b in inner {
          g.ReachesEnd(inner, name, b);
        }
      }
    }

    lemma NeedIsMet(name: string, inner: seq<string>, b: string)
      requires name in g.byName && NeedsMet(name, inner, |g.byName[name].needs|) && g.Edge(name, b)
      ensures b in Emitted() || b in inner
    {
      var req :| req in g.byName[name].needs && g.ProviderOf(req) == b;
      var k :| 0 <= k < |g.byName[name].needs| && g.byName[name].needs[k] == req;
    }

    lemma EmittedOrOpen(name: string, inner: seq<string>)
      requires name in g.byName && NeedsMet(name, inner, |g.byName[name].needs|)
      ensures forall b | g.Edge(name, b) && b !in inner :: g.Before(order, |order|, b)
    {
      forall b | g.Edge(name, b) && b !in inner ensures g.Before(order, |order|, b) {
        NeedIsMet(name, inner, b);
      }
    }

    lemma EndsWithNew(before: seq<Module>, name: string, stack: seq<string>)
      requires name in g.byName && g.byName[name].name == name && order == before + [g.byName[name]]
      requires forall b | g.Edge(name, b) && b !in stack + [name] :: g.Before(before, |before|, b)
      ensures EndsWith(name, stack)
    {
      forall b | g.Edge(name, b) && b != name && b !in stack ensures g.Before(order, |order| - 1, b) {
        var k :| 0 <= k < |before| && before[k].name == b;
        assert order[k].name == b;
      }
    }
  }

  ghost function ServicesOf(modules: seq<Module>): (g: Services)
    ensures g.Valid()
  {
    ByNameKeepsNames(modules);
    Services(ByName(modules), Providers(modules))
  }

  /** Every provider in the list comes before everything that requires it. */
  ghost predicate Ordered(g: Services, list: seq<Module>) {
    forall i, b | 0 <= i < |list| && g.Edge(list[i].name, b) :: g.Before(list, i, b)
  }

  /** The same for every provider that does not, directly or not, require its requirer. */
  ghost predicate OneWayOrdered(g: Services, list: seq<Module>) {
    forall i | 0 <= i < |list| :: g.NeedsBefore(list, i)
  }

  lemma AcyclicIsOrdered(g: Services, list: seq<Module>)
    requires OneWayOrdered(g, list) && !g.Cyclic()
    ensures Ordered(g, list)
  {
    forall i, b | 0 <= i < |list| && g.Edge(list[i].name, b) ensures g.Before(list, i, b) {
      assert g.NeedsBefore(list, i);
      if g.Reaches(b, list[i].name) {
        g.MutualMeansCyclic(list[i].name, b);
      }
    }
  }

  /** The list holds each known name exactly once, with the module of that name. */
  ghost predicate EachOnce(g: Services, list: seq<Module>) {
    && (forall i | 0 <= i < |list| :: list[i].name in g.byName && list[i] == g.byName[list[i].name])
    && (forall i, j | 0 <= i < j < |list| :: list[i].name != list[j].name)
    && (forall n | n in g.byName :: exists i :: 0 <= i < |list| && list[i].name == n)
  }

  /** Position of a name in a list. */
  ghost function At(list: seq<Module>, n: string): nat
    requires exists i :: 0 <= i < |list| && list[i].name == n
    ensures At(list, n) < |list| && list[At(list, n)].name == n
  {
    var i :| 0 <= i < |list| && list[i].name == n;
    i
  }

  /** Along a walk of at least two names, positions in an ordered list go down. */
  lemma {:induction false} WalkGoesDown(g: Services, list: seq<Module>, w: seq<string>, k: nat)
    requires EachOnce(g, list) && Ordered(g, list) && g.IsWalk(w) && 0 < k < |w|
    ensures w[0] in g.byName && w[k] in g.byName && At(list, w[k]) < At(list, w[0])
  {
    assert g.Edge(w[k - 1], w[k]);
    var i := At(list, w[k - 1]);
    assert g.Before(list, i, w[k]);
    var j :| 0 <= j < i && list[j].name == w[k];
    assert At(list, w[k]) == j;
    if k > 1 {
      WalkGoesDown(g, list, w, k - 1);
    }
  }

  /** An order in which all providers come first exists only without cycles. */
  lemma OrderedMeansAcyclic(g: Services, list: seq<Module>)
    requires EachOnce(g, list) && Ordered(g, list)
    ensures !g.Cyclic()
  {
    forall w | |w| >= 2 && w[0] == w[|w| - 1] ensures !g.IsWalk(w) {
      if g.IsWalk(w) {
        WalkGoesDown(g, list, w, |w| - 1);
      }
    }
  }

  lemma OrderedExactlyIfAcyclic(g: Services, list: seq<Module>)
    requires EachOnce(g, list) && OneWayOrdered(g, list)
    ensures Ordered(g, list) <==> !g.Cyclic()
  {
    if Ordered(g, list) {
      OrderedMeansAcyclic(g, list);
    }
    if !g.Cyclic() {
      AcyclicIsOrdered(g, list);
    }
  }

  ghost predicate NeedsOnlyItself(g: Services, name: string) {
    forall b | g.Edge(name, b) :: b == name
  }

  /** If core is there, it is first exactly when it requires nothing else, and else right after modules
      that it reaches. */
  ghost predicate CoreIsEarly(g: Services, order: seq<Module>) {
    "core" in g.byName ==>
      && order != [] && (order[0].name == "core" <==> NeedsOnlyItself(g, "core"))
      && exists c :: 0 <= c < |order| && order[c].name == "core"
                     && forall i | 0 <= i <= c :: g.Reaches("core", order[i].name)
  }

  // ---------- In terms of the modules ----------

  /** Module i is the last of its name, which is the one that counts. */
  ghost predicate Counts(modules: seq<Module>, i: nat) {
    i < |modules| && forall j | i < j < |modules| :: modules[j].name != modules[i].name
  }

  /** Module i is the last that lists the service. */
  ghost predicate Supplies(modules: seq<Module>, i: nat, service: string) {
    && i < |modules| && service in modules[i].services
    && forall j | i < j < |modules| :: service !in modules[j].services
  }

  ghost predicate IsListed(modules: seq<Module>, service: string) {
    exists m :: m in modules && service in m.services
  }

  ghost predicate IsName(modules: seq<Module>, name: string) {
    exists m :: m in modules && m.name == name
  }

  /** A requirement is met by the module that supplies it, or, if none lists it, by the one of that name. */
  ghost predicate Meets(modules: seq<Module>, req: string, name: string) {
    if IsListed(modules, req) then exists i: nat :: Supplies(modules, i, req) && modules[i].name == name
    else req == name && IsName(modules, name)
  }

  /** The module that counts for name a requires something that name b meets. */
  ghost predicate NeedsModule(modules: seq<Module>, a: string, b: string) {
    exists i: nat :: Counts(modules, i) && modules[i].name == a && NeedsOne(modules, modules[i].needs, b)
  }

  ghost predicate NeedsOne(modules: seq<Module>, needs: seq<string>, b: string) {
    exists req :: req in needs && Meets(modules, req, b)
  }

  ghost predicate NeedsAlong(modules: seq<Module>, w: seq<string>) {
    forall i, j | 0 <= i && j == i + 1 < |w| :: NeedsModule(modules, w[i], w[j])
  }

  /** Name a requires name b, directly or through others, or is b. */
  ghost predicate LeadsTo(modules: seq<Module>, a: string, b: string) {
    exists w :: w != [] && w[0] == a && w[|w| - 1] == b && NeedsAlong(modules, w)
  }

  /** What meets a requirement comes before what requires it, unless it leads back there. */
  ghost predicate MetBefore(modules: seq<Module>, order: seq<Module>) {
    forall k, b | 0 <= k < |order| && NeedsModule(modules, order[k].name, b) && !LeadsTo(modules, b, order[k].name) ::
      exists j :: 0 <= j < k && order[j].name == b
  }

  /** The order is made of the modules that count, each once. */
  ghost predicate IsOrderOf(modules: seq<Module>, order: seq<Module>) {
    && (forall i: nat | Counts(modules, i) :: modules[i] in order)
    && (forall m | m in order :: exists i: nat :: Counts(modules, i) && modules[i] == m)
    && (forall i, j | 0 <= i < j < |order| :: order[i].name != order[j].name)
  }

  lemma {:induction false} ProvidersAreLast(modules: seq<Module>, service: string) returns (i: nat)
    ensures service in Providers(modules) <==> IsListed(modules, service)
    ensures service in Providers(modules) ==>
              Supplies(modules, i, service) && modules[i].name == Providers(modules)[service]
  {
    i := 0;
    if modules != [] {
      var n := |modules| - 1;
      var front, last := modules[..n], modules[n];
      assert modules == front + [last];
      i := ProvidersAreLast(front, service);
      if service in last.services {
        i := n;
      }
    }
  }

  lemma {:induction false} NamesAreLast(modules: seq<Module>, name: string) returns (i: nat)
    ensures name in ByName(modules) <==> IsName(modules, name)
    ensures name in ByName(modules) ==>
              Counts(modules, i) && modules[i].name == name && modules[i] == ByName(modules)[name]
  {
    i := 0;
    if modules != [] {
      var n := |modules| - 1;
      var front, last := modules[..n], modules[n];
      assert modules == front + [last];
      i := NamesAreLast(front, name);
      if name == last.name {
        i := n;
      }
    }
  }

  lemma OneSupplies(modules: seq<Module>, i: nat, j: nat, service: string)
    requires Supplies(modules, i, service) && Supplies(modules, j, service)
    ensures i == j
  {
  }

  lemma OneCounts(modules: seq<Module>, i: nat, j: nat)
    requires Counts(modules, i) && Counts(modules, j) && modules[i].name == modules[j].name
    ensures i == j
  {
  }

  /** What the dictionaries make of a requirement. */
  lemma MeetsIsProvider(modules: seq<Module>, req: string, name: string)
    ensures var g := ServicesOf(modules);
            Meets(modules, req, name) <==> g.ProviderOf(req) == name && name in g.byName
  {
    var i := ProvidersAreLast(modules, req);
    var k := NamesAreLast(modules, name);
    if IsListed(modules, req) {
      assert modules[i] in modules;
      if j: nat :| Supplies(modules, j, req) && modules[j].name == name {
        OneSupplies(modules, i, j, req);
      }
    }
  }

  lemma EdgeIsNeed(modules: seq<Module>, a: string, b: string)
    ensures ServicesOf(modules).Edge(a, b) <==> NeedsModule(modules, a, b)
  {
    var g := ServicesOf(modules);
    var i := NamesAreLast(modules, a);
    forall req ensures Meets(modules, req, b) <==> g.ProviderOf(req) == b && b in g.byName {
      MeetsIsProvider(modules, req, b);
    }
    if j: nat :| Counts(modules, j) && modules[j].name == a && NeedsOne(modules, modules[j].needs, b) {
      assert modules[j] in modules;
      OneCounts(modules, i, j);
    }
    if a in g.byName {
      assert NeedsOne(modules, g.byName[a].needs, b) <==> g.Edge(a, b);
    }
  }

  lemma ReachIsLead(modules: seq<Module>, a: string, b: string)
    ensures ServicesOf(modules).Reaches(a, b) <==> LeadsTo(modules, a, b)
  {
    forall x, y ensures ServicesOf(modules).Edge(x, y) <==> NeedsModule(modules, x, y) {
      EdgeIsNeed(modules, x, y);
    }
    forall w ensures ServicesOf(modules).IsWalk(w) <==> NeedsAlong(modules, w) {
    }
  }

  /** What holds of the dictionaries holds of the modules. */
  lemma OrderOfModules(modules: seq<Module>, order: seq<Module>)
    requires EachOnce(ServicesOf(modules), order) && OneWayOrdered(ServicesOf(modules), order)
    ensures IsOrderOf(modules, order) && MetBefore(modules, order)
  {
    var g := ServicesOf(modules);
    forall i: nat | Counts(modules, i) ensures modules[i] in order {
      assert modules[i] in modules;
      var j := NamesAreLast(modules, modules[i].name);
      OneCounts(modules, i, j);
      var k :| 0 <= k < |order| && order[k].name == modules[i].name;
      assert order[k] == modules[i];
    }
    forall m | m in order ensures exists i: nat :: Counts(modules, i) && modules[i] == m {
      var i := NamesAreLast(modules, m.name);
    }
    OrderMeets(modules, order);
  }

  lemma OrderMeets(modules: seq<Module>, order: seq<Module>)
    requires OneWayOrdered(ServicesOf(modules), order)
    ensures MetBefore(modules, order)
  {
    var g := ServicesOf(modules);
    forall k, b | 0 <= k < |order| && NeedsModule(modules, order[k].name, b) && !LeadsTo(modules, b, order[k].name)
      ensures exists j :: 0 <= j < k && order[j].name == b
    {
      EdgeIsNeed(modules, order[k].name, b);
      ReachIsLead(modules, b, order[k].name);
      assert g.NeedsBefore(order, k) && g.Before(order, k, b);
    }
  }

  /** A module that lists several services supplies each of them: bus comes before app. */
  lemma EveryServiceCounts(app: Module, bus: Module, order: seq<Module>)
    requires app == Module("app", [], ["events"]) && bus == Module("bus", ["config", "events"], [])
    requires IsOrderOf([app, bus], order) && MetBefore([app, bus], order)
    ensures exists j, k :: 0 <= j < k < |order| && order[j] == bus && order[k] == app
  {
    var both := [app, bus];
    assert "app"[0] != "bus"[0];
    assert both[0] == app && both[1] == bus && Counts(both, 0) && Counts(both, 1);
    assert bus in both && Supplies(both, 1, "events") && Meets(both, "events", "bus");
    assert NeedsOne(both, app.needs, "bus") && NeedsModule(both, "app", "bus");
    BusNeedsNothing(app, bus);
    assert app in order;
    var k :| 0 <= k < |order| && order[k] == app;
    var j :| 0 <= j < k && order[j].name == "bus";
    assert order[j] in order;
  }

  lemma BusNeedsNothing(app: Module, bus: Module)
    requires app.name == "app" && bus.name == "bus" && bus.needs == []
    ensures !LeadsTo([app, bus], "bus", "app")
  {
    var both := [app, bus];
    assert "app"[0] != "bus"[0] && both[0] == app && both[1] == bus;
    var g := ServicesOf(both);
    forall b ensures !g.Edge("bus", b) {
      EdgeIsNeed(both, "bus", b);
    }
    ReachIsLead(both, "bus", "app");
    if g.Reaches("bus", "app") {
      g.ReachesOnlyItself("bus", "app");
    }
  }

  /** topo_sort: each name once and every one-way provider before its requirers, whatever the
      graph; all providers first exactly when there is no cycle; and core as early as can be. */
  method TopoSort(modules: seq<Module>) returns (order: seq<Module>)
    ensures IsOrderOf(modules, order) && MetBefore(modules, order)
    ensures EachOnce(ServicesOf(modules), order) && OneWayOrdered(ServicesOf(modules), order)
    ensures Ordered(ServicesOf(modules), order) <==> !ServicesOf(modules).Cyclic()
    ensures CoreIsEarly(ServicesOf(modules), order)
  {
    ByNameKeepsNames(modules);
    var g := Services(ByName(modules), Providers(modules));
    order := SortServices(g);
    OrderedExactlyIfAcyclic(g, order);
    OrderOfModules(modules, order);
  }

  /** The two visits from outside: core, then all names. */
  method SortServices(g: Services) returns (order: seq<Module>)
    requires g.Valid()
    ensures EachOnce(g, order) && OneWayOrdered(g, order) && CoreIsEarly(g, order)
  {
    var sorter := new Sorter(g);
    assert sorter.Open() == {};
    VisitCore(sorter);
    ghost var first := sorter.order;
    VisitAll(sorter);
    order := sorter.order;
    if "core" in g.byName {
      CoreFirst(g, first, order);
    }
  }

  /** The visit of core, if it is there, before all others. */
  method VisitCore(sorter: Sorter)
    requires Settled(sorter) && sorter.order == [] && sorter.visited == {}
    modifies sorter
    ensures Settled(sorter)
    ensures "core" in sorter.g.byName ==> IsCoreVisit(sorter.g, sorter.order)
  {
    if "core" in sorter.g.byName {
      sorter.Visit("core", []);
      StillOrdered(sorter.g, [], sorter.order, "core");
      CoreOrCoreNeeds(sorter.g, sorter.order);
    }
  }

  /** What the visit of core emits: it ends with core and begins with core exactly if core requires
      nothing else. */
  ghost predicate IsCoreVisit(g: Services, first: seq<Module>) {
    && first != [] && first[|first| - 1].name == "core" && g.GrownFor(first, "core", 0)
    && (first[0].name == "core" <==> NeedsOnlyItself(g, "core"))
  }

  /** Once core has been visited it is the first module exactly if it requires nothing else. */
  lemma CoreOrCoreNeeds(g: Services, first: seq<Module>)
    requires first != [] && first[|first| - 1].name == "core" && g.GrownFor(first, "core", 0)
    requires forall i, j | 0 <= i < j < |first| :: first[i].name != first[j].name
    requires forall b | g.Edge("core", b) && b != "core" :: g.Before(first, |first| - 1, b)
    ensures first[0].name == "core" <==> NeedsOnlyItself(g, "core")
  {
    if NeedsOnlyItself(g, "core") {
      g.ReachesOnlyItself("core", first[0].name);
    } else {
      var b :| g.Edge("core", b) && b != "core";
      assert g.Before(first, |first| - 1, b);
    }
  }

  lemma CoreFirst(g: Services, first: seq<Module>, order: seq<Module>)
    requires first <= order && IsCoreVisit(g, first)
    ensures CoreIsEarly(g, order)
  {
    var c := |first| - 1;
    assert forall i | 0 <= i <= c :: order[i] == first[i];
    assert order[c].name == "core";
  }

  /** Core is not always first: here it requires a service of another module. */
  lemma CoreMayNeedAnother(core: Module, other: Module)
    requires core == Module("core", [], ["log"]) && other == Module("journal", ["log"], [])
    ensures "core" in ByName([core, other]) && !NeedsOnlyItself(ServicesOf([core, other]), "core")
  {
    var both := [core, other];
    assert both[..1] == [core] && [core][..0] == [];
    assert ByName([core]) == map["core" := core];
    assert ByName(both) == map["core" := core, "journal" := other];
    assert "log" in Providers(both) && Providers(both)["log"] == "journal";
    var g := ServicesOf(both);
    assert g.ProviderOf("log") == "journal" && "log" in g.byName["core"].needs;
    assert g.Edge("core", "journal");
  }

  /** Two modules that require each other cannot both come after what they require. */
  lemma MutualNeedsAreCyclic(a: Module, b: Module)
    requires a == Module("a", [], ["b"]) && b == Module("b", [], ["a"])
    ensures ServicesOf([a, b]).Cyclic()
  {
    var both := [a, b];
    assert both[..1] == [a] && [a][..0] == [];
    assert ByName([a]) == map["a" := a];
    assert ByName(both) == map["a" := a, "b" := b];
    var g := ServicesOf(both);
    NoServicesNoProviders([a]);
    NoServicesNoProviders(both);
    assert "b" in g.byName["a"].needs && "a" in g.byName["b"].needs;
    assert g.Edge("a", "b") && g.Edge("b", "a");
    var w := ["a", "b", "a"];
    assert |w| == 3 && w[0] == "a" && w[1] == "b" && w[2] == "a";
    assert g.IsWalk(w);
  }

  lemma {:induction false} NoServicesNoProviders(modules: seq<Module>)
    requires forall m | m in modules :: m.services == []
    ensures forall s :: s !in Providers(modules)
  {
    if modules != [] {
      NoServicesNoProviders(modules[..|modules| - 1]);
      assert modules[|modules| - 1] in modules;
    }
  }

  /** What holds of a sorter between two visits from outside. */
  ghost predicate Settled(sorter: Sorter)
    reads sorter
  {
    && sorter.Valid() && sorter.Open() == {}
    && OneWayOrdered(sorter.g, sorter.order)
  }

  /** The body of the last loop of topo_sort. */
  method VisitNext(sorter: Sorter, name: string)
    requires Settled(sorter) && name in sorter.g.byName
    modifies sorter
    ensures Settled(sorter) && old(sorter.order) <= sorter.order
    ensures old(sorter.Emitted()) + {name} <= sorter.Emitted()
  {
    sorter.Visit(name, []);
    sorter.KeepsEmitted(old(sorter.order));
    StillOrdered(sorter.g, old(sorter.order), sorter.order, name);
  }

  method VisitAll(sorter: Sorter)
    requires Settled(sorter)
    modifies sorter
    ensures old(sorter.order) <= sorter.order && EachOnce(sorter.g, sorter.order)
    ensures OneWayOrdered(sorter.g, sorter.order)
  {
    var todo := sorter.g.byName.Keys;
    while todo != {}
      invariant todo <= sorter.g.byName.Keys && Settled(sorter)
      invariant sorter.g.byName.Keys - todo <= sorter.Emitted()
      invariant old(sorter.order) <= sorter.order
    {
      var name :| name in todo;
      todo := todo - {name};
      VisitNext(sorter, name);
    }
    AllEmitted(sorter);
  }

  lemma AllEmitted(sorter: Sorter)
    requires sorter.Valid() && sorter.g.byName.Keys <= sorter.Emitted()
    ensures EachOnce(sorter.g, sorter.order)
  {
    forall n | n in sorter.g.byName ensures exists i :: 0 <= i < |sorter.order| && sorter.order[i].name == n {
      assert n in sorter.Emitted();
    }
  }

  lemma StillOrdered(g: Services, list: seq<Module>, more: seq<Module>, name: string)
    requires list <= more && g.GrownFor(more, name, |list|) && OneWayOrdered(g, list)
    ensures OneWayOrdered(g, more)
  {
    forall i | 0 <= i < |more| ensures g.NeedsBefore(more, i) {
      if i < |list| {
        assert more[i] == list[i];
        g.PrefixNeeds(list, more, i);
      }
    }
  }
}
