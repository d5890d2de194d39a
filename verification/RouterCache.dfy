/**
 The Python router forest: every router memoises what it inherits from its
 ancestors, and every registration drops the memo of its whole subtree.
 */
module RouterCache {
  import opened Common
  import PriorityOrder

  type EventType = nat
  type Handle = nat

  /** The three inherited lists: router filters, inner and outer middleware. */
  datatype Layer = Filters | Inner | Outer

  /** `eventTypes` is None for an entry that applies to every event. */
  datatype Config = Config(entry: Handle, priority: int, eventTypes: Option<seq<EventType>>)

  predicate Applies(c: Config, eventType: EventType) {
    c.eventTypes.None? || eventType in c.eventTypes.value
  }

  /** The entries of a list that apply to one event type, in order. */
  function Select(s: seq<Config>, eventType: EventType): seq<Config> {
    if s == [] then []
    else (if Applies(s[0], eventType) then [s[0]] else []) + Select(s[1..], eventType)
  }

  lemma {:induction false} SelectAppend(a: seq<Config>, b: seq<Config>, e: EventType)
    ensures Select(a + b, e) == Select(a, e) + Select(b, e)
  {
    if a == [] {
      assert a + b == b;
    } else {
      SelectAppend(a[1..], b, e);
      assert (a + b)[1..] == a[1..] + b && (a + b)[0] == a[0];
      Assoc(if Applies(a[0], e) then [a[0]] else [], Select(a[1..], e), Select(b, e));
    }
  }

  lemma {:induction false} SelectTwice(s: seq<Config>, e: EventType)
    ensures Select(Select(s, e), e) == Select(s, e)
  {
    if s != [] {
      SelectTwice(s[1..], e);
      SelectAppend(if Applies(s[0], e) then [s[0]] else [], Select(s[1..], e), e);
    }
  }

  /** `out` is exactly the entries of `s` for every event or for this one, in their order. */
  ghost predicate Keeps(s: seq<Config>, e: EventType, out: seq<Config>) {
    exists places: seq<nat> :: KeepsAt(s, e, out, places)
  }

  ghost predicate KeepsAt(s: seq<Config>, e: EventType, out: seq<Config>, places: seq<nat>) {
    && |places| == |out|
    && (forall i, j | 0 <= i < j < |places| :: places[i] < places[j])
    && (forall i | 0 <= i < |places| :: places[i] < |s| && out[i] == s[places[i]])
    && (forall k: nat | k < |s| :: k in places <==> s[k].eventTypes == None || e in s[k].eventTypes.value)
  }

  lemma {:induction false} SelectKeeps(s: seq<Config>, e: EventType)
    ensures Keeps(s, e, Select(s, e))
  {
    if s == [] {
      assert KeepsAt(s, e, [], []);
    } else {
      var front, last := s[..|s| - 1], s[|s| - 1];
      SelectKeeps(front, e);
      var places :| KeepsAt(front, e, Select(front, e), places);
      SelectAppend(front, [last], e);
      assert s == front + [last] && [last][1..] == [];
      if Applies(last, e) {
        assert Select([last], e) == [last];
        KeepsOne(front, last, e, Select(front, e), places);
      } else {
        assert Select([last], e) == [];
        Assoc(Select(front, e), [], []);
        assert KeepsAt(s, e, Select(s, e), places);
      }
    }
  }

  lemma KeepsOne(s: seq<Config>, c: Config, e: EventType, out: seq<Config>, places: seq<nat>)
    requires KeepsAt(s, e, out, places) && (c.eventTypes == None || e in c.eventTypes.value)
    ensures KeepsAt(s + [c], e, out + [c], places + [|s|])
  {
  }

  /** Selecting at every level of the chain is selecting once at the end. */
  lemma SelectInherited(inherited: seq<Config>, own: seq<Config>, e: EventType)
    ensures Select(Select(inherited, e) + own, e) == Select(inherited + own, e)
  {
    SelectAppend(Select(inherited, e), own, e);
    SelectTwice(inherited, e);
    SelectAppend(inherited, own, e);
  }

  datatype IncludeError = IntoItself | AlreadyIncluded

  /** What one router holds besides its memos; `below` is what `routers` reaches, itself included. */
  datatype Node = Node(routers: seq<Router>, parent: Router?, dependencies: map<string, Handle>,
                       filters: seq<Config>, inner: seq<Config>, outer: seq<Config>, below: set<Router>)
  {
    function Own(layer: Layer): seq<Config> {
      match layer
      case Filters => filters
      case Inner => inner
      case Outer => outer
    }
  }

  /** Equal up to the children: what a walk from the root can see. */
  ghost predicate SameOwn(a: Node, b: Node) {
    && a.parent == b.parent && a.dependencies == b.dependencies
    && a.filters == b.filters && a.inner == b.inner && a.outer == b.outer
  }

  type Plan = map<Router, Node>

  /**
   Tree structure of a set of routers. `below` is exactly what `routers` reaches,
   and no router reaches itself again. A child may be listed without naming
   the lister as its parent, but a named parent always lists the child.
   */
  ghost predicate Shape(p: Plan) {
    forall r {:trigger Fits(p, r)} | r in p :: Fits(p, r)
  }

  ghost predicate Fits(p: Plan, r: Router)
    requires r in p
  {
    && r in p[r].below && p[r].below <= p.Keys
    && (forall x | x in p[r].below :: p[x].below <= p[r].below)
    && (forall c | c in p[r].routers :: c in p[r].below && r !in p[c].below)
    && (forall x {:trigger Via(p, r, x)} | x in p[r].below && x != r :: Via(p, r, x))
    && (p[r].parent != null ==> p[r].parent in p && r in p[p[r].parent].routers)
  }

  /** `x` is reached through some listed child of `r`. */
  ghost predicate Via(p: Plan, r: Router, x: Router)
    requires r in p
  {
    exists c :: c in p[r].routers && c in p && x in p[c].below
  }

  /** Going up the parent chain strictly shrinks what is left of the forest. */
  lemma Up(p: Plan, r: Router)
    requires r in p && Shape(p) && p[r].parent != null
    ensures p[r].parent in p
    ensures p.Keys - p[p[r].parent].below < p.Keys - p[r].below
  {
    var q := p[r].parent;
    assert Fits(p, r) && Fits(p, q);
    assert q in p.Keys - p[r].below;
  }

  lemma Children(p: Plan, r: Router)
    requires r in p && Shape(p)
    ensures r in p[r].below
    ensures forall c | c in p[r].routers :: c in p && p[c].below < p[r].below
  {
    assert Fits(p, r);
  }

  /** A router together with everything below its children is everything below it. */
  lemma Covered(p: Plan, r: Router, done: set<Router>)
    requires r in p && Shape(p) && r in done
    requires forall c | c in p[r].routers :: c in p && p[c].below <= done
    ensures p[r].below <= done
  {
    assert Fits(p, r);
    forall x | x in p[r].below
      ensures x in done
    {
      if x != r {
        assert Via(p, r, x);
      }
    }
  }

  /** Root-first list of everything registered on the way from the root to `r`. */
  ghost function Chain(p: Plan, r: Router, layer: Layer): seq<Config>
    requires r in p && Shape(p)
    decreases p.Keys - p[r].below
  {
    if p[r].parent == null then p[r].Own(layer)
    else
      Up(p, r);
      Chain(p, p[r].parent, layer) + p[r].Own(layer)
  }

  /** Dependencies seen from `r`; the nearest provider wins. */
  ghost function Provided(p: Plan, r: Router): map<string, Handle>
    requires r in p && Shape(p)
    decreases p.Keys - p[r].below
  {
    if p[r].parent == null then p[r].dependencies
    else
      Up(p, r);
      Provided(p, p[r].parent) + p[r].dependencies
  }

  /** The routers from `r` up to its root. */
  ghost function Lineage(p: Plan, r: Router): (chain: seq<Router>)
    requires r in p && Shape(p)
    ensures IsLineage(p, r, chain)
    decreases p.Keys - p[r].below
  {
    if p[r].parent == null then [r]
    else
      Up(p, r);
      [r] + Lineage(p, p[r].parent)
  }

  /** `chain` starts at `r`, goes from each router to its parent and ends at one that has none. */
  ghost predicate IsLineage(p: Plan, r: Router, chain: seq<Router>) {
    && chain != [] && chain[0] == r && (forall i | 0 <= i < |chain| :: chain[i] in p)
    && (forall i | 0 <= i < |chain| - 1 :: p[chain[i]].parent == chain[i + 1])
    && p[chain[|chain| - 1]].parent == null
  }

  ghost predicate Has(p: Plan, chain: seq<Router>, i: nat, name: string)
    requires i < |chain| && chain[i] in p
  {
    name in p[chain[i]].dependencies
  }

  /** Every name has the value of the first router on the way up that provides it, and no other name has any. */
  ghost predicate Nearest(p: Plan, chain: seq<Router>, deps: map<string, Handle>)
    requires forall i | 0 <= i < |chain| :: chain[i] in p
  {
    && (forall name | name in deps :: exists i :: 0 <= i < |chain| && Has(p, chain, i, name))
    && (forall name, i | 0 <= i < |chain| && Has(p, chain, i, name) :: name in deps)
    && (forall name, i | 0 <= i < |chain| && Has(p, chain, i, name) && (forall j | 0 <= j < i :: !Has(p, chain, j, name)) ::
          deps[name] == p[chain[i]].dependencies[name])
  }

  lemma {:induction false} ProvidedIsNearest(p: Plan, r: Router)
    requires r in p && Shape(p)
    ensures Nearest(p, Lineage(p, r), Provided(p, r))
    decreases p.Keys - p[r].below
  {
    if p[r].parent == null {
      assert Has(p, [r], 0, "") == ("" in p[r].dependencies);
      assert forall name :: name in p[r].dependencies <==> Has(p, [r], 0, name);
    } else {
      Up(p, r);
      ProvidedIsNearest(p, p[r].parent);
      NearestStep(p, r, Lineage(p, p[r].parent), Provided(p, p[r].parent));
    }
  }

  lemma NearestStep(p: Plan, r: Router, rest: seq<Router>, deps: map<string, Handle>)
    requires r in p && (forall i | 0 <= i < |rest| :: rest[i] in p) && Nearest(p, rest, deps)
    ensures Nearest(p, [r] + rest, deps + p[r].dependencies)
  {
    var chain, all := [r] + rest, deps + p[r].dependencies;
    forall name, i | 0 <= i < |chain| && Has(p, chain, i, name)
      ensures name in all
      ensures (forall j | 0 <= j < i :: !Has(p, chain, j, name)) ==> all[name] == p[chain[i]].dependencies[name]
    {
      NearestAt(p, r, rest, deps, name, i);
    }
    forall name | name in all
      ensures exists i :: 0 <= i < |chain| && Has(p, chain, i, name)
    {
      if name in p[r].dependencies {
        assert Has(p, chain, 0, name);
      } else {
        var i :| 0 <= i < |rest| && Has(p, rest, i, name);
        assert Has(p, chain, i + 1, name);
      }
    }
  }

  lemma NearestAt(p: Plan, r: Router, rest: seq<Router>, deps: map<string, Handle>, name: string, i: nat)
    requires r in p && (forall k | 0 <= k < |rest| :: rest[k] in p) && Nearest(p, rest, deps)
    requires i <= |rest| && Has(p, [r] + rest, i, name)
    ensures var all := deps + p[r].dependencies;
            && name in all
            && ((forall j | 0 <= j < i :: !Has(p, [r] + rest, j, name)) ==>
                  all[name] == p[([r] + rest)[i]].dependencies[name])
  {
    var chain := [r] + rest;
    if i > 0 {
      assert Has(p, rest, i - 1, name);
      if forall j | 0 <= j < i :: !Has(p, chain, j, name) {
        assert !Has(p, chain, 0, name);
        forall j | 0 <= j < i - 1
          ensures !Has(p, rest, j, name)
        {
          assert !Has(p, chain, j + 1, name);
        }
      }
    }
  }

  /** The own lists of a lineage, the root's first. */
  ghost function RootFirst(p: Plan, chain: seq<Router>, layer: Layer): seq<seq<Config>>
    requires forall i | 0 <= i < |chain| :: chain[i] in p
  {
    seq(|chain|, i requires 0 <= i < |chain| => p[chain[|chain| - 1 - i]].Own(layer))
  }

  lemma {:induction false} ChainIsRootFirst(p: Plan, r: Router, layer: Layer)
    requires r in p && Shape(p)
    ensures Chain(p, r, layer) == Flatten(RootFirst(p, Lineage(p, r), layer))
    decreases p.Keys - p[r].below
  {
    var own := [p[r].Own(layer)];
    assert Flatten(own) == own[0] + Flatten(own[1..]) == p[r].Own(layer);
    if p[r].parent == null {
      assert RootFirst(p, [r], layer) == own;
    } else {
      Up(p, r);
      ChainIsRootFirst(p, p[r].parent, layer);
      var rest := Lineage(p, p[r].parent);
      assert RootFirst(p, [r] + rest, layer) == RootFirst(p, rest, layer) + own;
      FlattenAppend(RootFirst(p, rest, layer), own);
    }
  }

  /** Selecting from the inherited selection plus the own list gives the selected chain. */
  lemma ChainStep(p: Plan, r: Router, layer: Layer, e: EventType, inherited: seq<Config>)
    requires r in p && Shape(p)
    requires p[r].parent == null ==> inherited == []
    requires p[r].parent != null ==> p[r].parent in p && inherited == Select(Chain(p, p[r].parent, layer), e)
    ensures Select(inherited + p[r].Own(layer), e) == Select(Chain(p, r, layer), e)
  {
    if p[r].parent == null {
      assert [] + p[r].Own(layer) == p[r].Own(layer);
    } else {
      SelectInherited(Chain(p, p[r].parent, layer), p[r].Own(layer), e);
    }
  }

  function Register(s: seq<Config>, config: Config): seq<Config> {
    PriorityOrder.Register(s, config, (c: Config) => c.priority)
  }

  ghost predicate ByPriority(s: seq<Config>) {
    forall i, j | 0 <= i < j < |s| :: s[i].priority >= s[j].priority
  }

  /** `config` stands behind every entry of at least its priority and before every lower one. */
  ghost predicate Placed(was: seq<Config>, config: Config, now: seq<Config>) {
    exists k ::
      && 0 <= k <= |was| && now == was[..k] + [config] + was[k..]
      && (forall i | 0 <= i < k :: was[i].priority >= config.priority)
      && (forall i | k <= i < |was| :: was[i].priority < config.priority)
  }

  lemma RegisterPlaces(s: seq<Config>, config: Config)
    requires ByPriority(s)
    ensures Placed(s, config, Register(s, config)) && ByPriority(Register(s, config))
  {
    var p := (c: Config) => c.priority;
    PriorityOrder.SortOfDescending(s, p);
    assert (s + [config])[..|s|] == s;
    var k := PriorityOrder.InsertSplits(s, config, p);
    assert Register(s, config) == PriorityOrder.Insert(s, config, p);
  }

  ghost function WithDependency(p: Plan, r: Router, name: string, value: Handle): Plan
    requires r in p
  {
    p[r := p[r].(dependencies := p[r].dependencies[name := value])]
  }

  ghost function WithConfig(p: Plan, r: Router, layer: Layer, config: Config): Plan
    requires r in p
  {
    p[r := NodeWithConfig(p[r], layer, config)]
  }

  ghost function NodeWithConfig(n: Node, layer: Layer, config: Config): Node {
    match layer
    case Filters => n.(filters := Register(n.filters, config))
    case Inner => n.(inner := Register(n.inner, config))
    case Outer => n.(outer := Register(n.outer, config))
  }

  /** One entry takes its place in an ordered list of one layer; the other layers stay as they are. */
  ghost predicate TakesPlace(was: Node, layer: Layer, config: Config, now: Node) {
    && (forall other | other != layer :: now.Own(other) == was.Own(other))
    && (ByPriority(was.Own(layer)) ==> Placed(was.Own(layer), config, now.Own(layer)) && ByPriority(now.Own(layer)))
  }

  lemma PlaceTaken(n: Node, layer: Layer, config: Config)
    ensures TakesPlace(n, layer, config, NodeWithConfig(n, layer, config))
  {
    if ByPriority(n.Own(layer)) {
      RegisterPlaces(n.Own(layer), config);
    }
  }

  /** The plan after listing `router` under `top`, which becomes its parent if `adopt`. */
  ghost function WithEdge(p: Plan, top: Router, router: Router, adopt: bool): Plan
    requires top in p && router in p
  {
    map x: Router | x in p ::
      p[x].(parent := if adopt && x == router then top else p[x].parent,
            routers := if x == top then p[x].routers + [router] else p[x].routers,
            below := if top in p[x].below then p[x].below + p[router].below else p[x].below)
  }

  /** The two cases `include_router` refuses. */
  ghost function IncludeCheck(p: Plan, top: Router, router: Router): Option<IncludeError>
    requires router in p
  {
    if router == top then Some(IntoItself)
    else if p[router].parent != null then Some(AlreadyIncluded)
    else None
  }

  ghost function Included(p: Plan, top: Router, router: Router): Plan
    requires top in p && router in p
  {
    if IncludeCheck(p, top, router).Some? then p else WithEdge(p, top, router, true)
  }

  /** A dispatcher attaches to a bot once: as a child if it is free, else only as an entry of the bot's list. */
  ghost function Attached(p: Plan, bot: Router, router: Router): Plan
    requires bot in p && router in p
  {
    if router in p[bot].routers then p
    else if p[router].parent == null then Included(p, bot, router)
    else WithEdge(p, bot, router, false)
  }

  ghost function AttachCheck(p: Plan, bot: Router, router: Router): Option<IncludeError>
    requires bot in p && router in p
  {
    if router in p[bot].routers || p[router].parent != null then None else IncludeCheck(p, bot, router)
  }

  /** Attaching `router` puts it on the bot's list. */
  ghost predicate AddsEdge(p: Plan, bot: Router, router: Router)
    requires bot in p && router in p
  {
    router !in p[bot].routers && AttachCheck(p, bot, router).None?
  }

  class Router {
    var routers: seq<Router>
    var parent: Router?
    var dependencies: map<string, Handle>
    var filters: seq<Config>
    var inner: seq<Config>
    var outer: seq<Config>
    var dependenciesCache: Option<map<string, Handle>>
    var configCache: map<(Layer, EventType), seq<Config>>
    ghost var below: set<Router>

    constructor ()
      ensures Content() == Node([], null, map[], [], [], [], {this})
      ensures dependenciesCache == None && configCache == map[]
    {
      routers, parent, dependencies := [], null, map[];
      filters, inner, outer := [], [], [];
      dependenciesCache, configCache, below := None, map[], {this};
    }

    ghost function Content(): Node
      reads this`routers, this`parent, this`dependencies, this`filters, this`inner, this`outer, this`below
    {
      Node(routers, parent, dependencies, filters, inner, outer, below)
    }

    ghost function Remembered(): Memo
      reads this`dependenciesCache, this`configCache
    {
      Memo(dependenciesCache, configCache)
    }

    method Invalidate(ghost forest: set<Router>)
      requires this in forest && Shape(Snap(forest))
      modifies below`dependenciesCache, below`configCache
      ensures forall r | r in below :: r.dependenciesCache == None && r.configCache == map[]
      decreases below
    {
      ghost var p := Snap(forest);
      Children(p, this);
      dependenciesCache := None;
      configCache := map[];
      ghost var done: set<Router> := {this};
      for i := 0 to |routers|
        invariant forall r | r in done :: r.dependenciesCache == None && r.configCache == map[]
        invariant this in done && forall k | 0 <= k < i :: p[routers[k]].below <= done
        invariant Snap(forest) == p
      {
        assert routers[i] in p[this].routers;
        routers[i].Invalidate(forest);
        done := done + routers[i].below;
      }
      Covered(p, this, done);
    }

    /** Drops the memos of a subtree whose contents just changed from `p`. */
    method Refresh(ghost p: Plan, ghost forest: set<Router>)
      requires this in forest && p.Keys == forest && Shape(p) && Shape(Snap(forest))
      requires AllSound(p, Memos(forest)) && SameOutside(p, Snap(forest), this)
      modifies below`dependenciesCache, below`configCache
      ensures Valid(forest) && Snap(forest) == old(Snap(forest))
    {
      ghost var m := Memos(forest);
      assert Fits(Snap(forest), this);
      Invalidate(forest);
      Resettled(p, Snap(forest), this, m, Memos(forest));
    }

    method Provide(name: string, value: Handle, ghost forest: set<Router>)
      requires this in forest && Valid(forest)
      modifies this`dependencies, below`dependenciesCache, below`configCache
      ensures Valid(forest) && Snap(forest) == WithDependency(old(Snap(forest)), this, name, value)
      ensures dependencies == old(dependencies)[name := value]
    {
      ghost var p := Snap(forest);
      dependencies := dependencies[name := value];
      OwnChange(p, this, forest);
      Refresh(p, forest);
    }

    /** Covers `add_filter`, `add_middleware` and `add_outer_middleware`. */
    method AddConfig(layer: Layer, config: Config, ghost forest: set<Router>)
      requires this in forest && Valid(forest)
      modifies this`filters, this`inner, this`outer, below`dependenciesCache, below`configCache
      ensures Valid(forest) && Snap(forest) == WithConfig(old(Snap(forest)), this, layer, config)
      ensures TakesPlace(old(Content()), layer, config, Content())
    {
      ghost var p := Snap(forest);
      AppendAndSort(layer, config);
      OwnChange(p, this, forest);
      Refresh(p, forest);
    }

    method AppendAndSort(layer: Layer, config: Config)
      modifies this`filters, this`inner, this`outer
      ensures Content() == NodeWithConfig(old(Content()), layer, config)
      ensures TakesPlace(old(Content()), layer, config, Content())
    {
      PlaceTaken(Content(), layer, config);
      match layer {
        case Filters => filters := Register(filters, config);
        case Inner => inner := Register(inner, config);
        case Outer => outer := Register(outer, config);
      }
    }

    /** Lists a child; `below` follows for everything that reaches this router. */
    method Append(router: Router, ghost forest: set<Router>)
      requires this in forest && router in forest
      modifies this`routers, forest`below
      ensures Snap(forest) == WithEdge(old(Snap(forest)), this, router, false)
    {
      routers := routers + [router];
      forall r | r in forest && this in r.below {
        r.below := r.below + router.below;
      }
    }

    method Adopt(router: Router, ghost forest: set<Router>)
      requires this in forest && router in forest && Shape(Snap(forest))
      requires router != this && router.parent == null && this !in router.below
      modifies this`routers, router`parent, forest`below
      ensures Snap(forest) == WithEdge(old(Snap(forest)), this, router, true)
      ensures router.parent == this && routers == old(routers) + [router]
      ensures below == old(below + router.below) && router in below
    {
      assert Fits(Snap(forest), this) && Fits(Snap(forest), router);
      router.parent := this;
      routers := routers + [router];
      forall r | r in forest && this in r.below {
        r.below := r.below + router.below;
      }
    }

    /**
     Nests `router` under this one. The source checks only the two error cases; a
     router that already reaches this one would close a cycle.
     */
    method Include(router: Router, ghost forest: set<Router>) returns (error: Option<IncludeError>)
      requires this in forest && router in forest && Valid(forest)
      requires router != this && router.parent == null ==> this !in router.below
      modifies this`routers, router`parent, forest`below
      modifies (below + router.below)`dependenciesCache, (below + router.below)`configCache
      ensures Valid(forest) && error == IncludeCheck(old(Snap(forest)), this, router)
      ensures Snap(forest) == Included(old(Snap(forest)), this, router)
      ensures error == Some(IntoItself) <==> router == this
      ensures error == Some(AlreadyIncluded) <==> router != this && old(router.parent) != null
      ensures error.None? ==> router.parent == this && routers == old(routers) + [router]
    {
      if router == this {
        return Some(IntoItself);
      }
      if router.parent != null {
        return Some(AlreadyIncluded);
      }
      Join(router, forest);
      error := None;
    }

    /** The new edge, and the memos it makes stale dropped. */
    method Join(router: Router, ghost forest: set<Router>)
      requires this in forest && router in forest && Valid(forest)
      requires router != this && router.parent == null && this !in router.below
      modifies this`routers, router`parent, forest`below
      modifies (below + router.below)`dependenciesCache, (below + router.below)`configCache
      ensures Valid(forest) && Snap(forest) == WithEdge(old(Snap(forest)), this, router, true)
      ensures router.parent == this && routers == old(routers) + [router]
    {
      ghost var p, m := Snap(forest), Memos(forest);
      Adopt(router, forest);
      Joined(p, this, router, true);
      assert Memos(forest) == m;
      Refresh(p, forest);
    }

    /** The dispatcher's `_attach_to_bot`, seen from the bot. */
    method AttachDispatcher(router: Router, ghost forest: set<Router>) returns (error: Option<IncludeError>)
      requires this in forest && router in forest && Valid(forest)
      requires AddsEdge(Snap(forest), this, router) ==> this !in router.below
      modifies this`routers, router`parent, forest`below
      modifies (below + router.below)`dependenciesCache, (below + router.below)`configCache
      ensures Valid(forest) && Snap(forest) == Attached(old(Snap(forest)), this, router)
      ensures error == AttachCheck(old(Snap(forest)), this, router)
      ensures router in old(routers) ==> routers == old(routers) && router.parent == old(router.parent)
      ensures router !in old(routers) && error.None? ==>
                && routers == old(routers) + [router]
                && router.parent == (if old(router.parent) == null then this else old(router.parent))
    {
      if router in routers {
        return None;
      }
      if router.parent == null {
        error := Include(router, forest);
        return;
      }
      List(router, forest);
      error := None;
    }

    /** Lists a router that has its parent elsewhere. No memo is dropped: none depends on the list. */
    method List(router: Router, ghost forest: set<Router>)
      requires this in forest && router in forest && Valid(forest) && this !in router.below
      modifies this`routers, forest`below
      ensures Valid(forest) && Snap(forest) == WithEdge(old(Snap(forest)), this, router, false)
      ensures routers == old(routers) + [router]
    {
      ghost var p, m := Snap(forest), Memos(forest);
      Append(router, forest);
      assert Snap(forest)[this] == Content();
      Joined(p, this, router, false);
      Relisted(p, Snap(forest), m);
    }

    method ResolveDependencies(ghost forest: set<Router>) returns (deps: map<string, Handle>)
      requires this in forest && Valid(forest)
      modifies forest`dependenciesCache
      ensures Valid(forest) && Snap(forest) == old(Snap(forest))
      ensures deps == Provided(old(Snap(forest)), this)
      ensures Nearest(old(Snap(forest)), Lineage(old(Snap(forest)), this), deps)
      decreases forest - below
    {
      ghost var p := Snap(forest);
      ProvidedIsNearest(p, this);
      if dependenciesCache.Some? {
        Recall(this, forest);
        return dependenciesCache.value;
      }
      deps := map[];
      if parent != null {
        Up(p, this);
        deps := parent.ResolveDependencies(forest);
      }
      deps := deps + dependencies;
      assert deps == Provided(p, this);
      WriteDependencies(deps, forest);
    }

    method WriteDependencies(deps: map<string, Handle>, ghost forest: set<Router>)
      requires this in forest && Valid(forest) && deps == Provided(Snap(forest), this)
      modifies this`dependenciesCache
      ensures Valid(forest) && Snap(forest) == old(Snap(forest))
    {
      ghost var p, m := Snap(forest), Memos(forest);
      assert Sound(p, this, Remembered());
      dependenciesCache := Some(deps);
      OneMemo(p, m, this, forest);
    }

    /** The three `_resolve_*_configs` lookups. */
    method ResolveConfigs(layer: Layer, eventType: EventType, ghost forest: set<Router>)
      returns (resolved: seq<Config>)
      requires this in forest && Valid(forest)
      modifies forest`configCache
      ensures Valid(forest) && Snap(forest) == old(Snap(forest))
      ensures resolved == Select(Chain(old(Snap(forest)), this, layer), eventType)
      ensures var p := old(Snap(forest)); Keeps(Flatten(RootFirst(p, Lineage(p, this), layer)), eventType, resolved)
      decreases forest - below
    {
      ghost var p := Snap(forest);
      ChainIsRootFirst(p, this, layer);
      SelectKeeps(Chain(p, this, layer), eventType);
      if (layer, eventType) in configCache {
        Recall(this, forest);
        return configCache[(layer, eventType)];
      }
      var chain := [];
      if parent != null {
        Up(p, this);
        chain := parent.ResolveConfigs(layer, eventType, forest);
      }
      ChainStep(p, this, layer, eventType, chain);
      chain := chain + (match layer case Filters => filters case Inner => inner case Outer => outer);
      resolved := Select(chain, eventType);
      WriteConfigs(layer, eventType, resolved, forest);
    }

    method WriteConfigs(layer: Layer, eventType: EventType, resolved: seq<Config>, ghost forest: set<Router>)
      requires this in forest && Valid(forest)
      requires resolved == Select(Chain(Snap(forest), this, layer), eventType)
      modifies this`configCache
      ensures Valid(forest) && Snap(forest) == old(Snap(forest))
    {
      ghost var p, m := Snap(forest), Memos(forest);
      assert Sound(p, this, Remembered());
      configCache := configCache[(layer, eventType) := resolved];
      OneMemo(p, m, this, forest);
    }
  }

  ghost function Snap(forest: set<Router>): Plan
    reads forest`routers, forest`parent, forest`dependencies, forest`filters, forest`inner, forest`outer, forest`below
  {
    map r | r in forest :: r.Content()
  }

  datatype Memo = Memo(dependencies: Option<map<string, Handle>>, configs: map<(Layer, EventType), seq<Config>>)

  ghost function Memos(forest: set<Router>): map<Router, Memo>
    reads forest`dependenciesCache, forest`configCache
  {
    map r | r in forest :: r.Remembered()
  }

  /** The forest is a forest, and every memo holds what the plain walk from the root gives. */
  ghost predicate Valid(forest: set<Router>)
    reads forest
  {
    Shape(Snap(forest)) && AllSound(Snap(forest), Memos(forest))
  }

  ghost predicate AllSound(p: Plan, m: map<Router, Memo>)
    requires Shape(p)
  {
    p.Keys == m.Keys && forall r {:trigger Sound(p, r, m[r])} | r in p :: Sound(p, r, m[r])
  }

  ghost predicate Sound(p: Plan, r: Router, memo: Memo)
    requires r in p && Shape(p)
  {
    && (memo.dependencies.Some? ==> memo.dependencies.value == Provided(p, r))
    && forall k | k in memo.configs :: memo.configs[k] == Select(Chain(p, r, k.0), k.1)
  }

  /** A memo that is present can be used as it is. */
  lemma Recall(r: Router, forest: set<Router>)
    requires Valid(forest) && r in forest
    ensures r.dependenciesCache.Some? ==> r.dependenciesCache.value == Provided(Snap(forest), r)
    ensures forall k | k in r.configCache :: r.configCache[k] == Select(Chain(Snap(forest), r, k.0), k.1)
  {
    assert Sound(Snap(forest), r, Memos(forest)[r]);
  }

  /** Writing one right memo keeps the forest valid. */
  lemma OneMemo(p: Plan, m: map<Router, Memo>, r: Router, forest: set<Router>)
    requires Shape(p) && AllSound(p, m) && p == Snap(forest) && r in forest
    requires Sound(p, r, r.Remembered())
    requires forall x | x in forest && x != r :: x.Remembered() == m[x]
    ensures Valid(forest)
  {
    assert forall x | x in p :: Sound(p, x, m[x]);
  }

  lemma SameEdges(p: Plan, q: Plan)
    requires Shape(p) && p.Keys == q.Keys
    requires forall r | r in p :: q[r].routers == p[r].routers && q[r].parent == p[r].parent && q[r].below == p[r].below
    ensures Shape(q)
  {
    forall r | r in q
      ensures Fits(q, r)
    {
      assert Fits(p, r);
      forall x | x in q[r].below && x != r
        ensures Via(q, r, x)
      {
        assert Via(p, r, x);
        var c: Router :| c in p[r].routers && c in p && x in p[c].below;
        assert c in q[r].routers && x in q[c].below;
      }
    }
  }

  /** Routers outside the subtree of `top` look the same to a walk in both plans. */
  ghost predicate SameOutside(p: Plan, q: Plan, top: Router)
    requires p.Keys == q.Keys && top in q
  {
    forall x | x in q && x !in q[top].below :: SameOwn(p[x], q[x])
  }

  /** A router outside the subtree of `top` has only ancestors outside it. */
  lemma OutsideUp(p: Plan, r: Router, top: Router)
    requires r in p && top in p && Shape(p) && r !in p[top].below && p[r].parent != null
    ensures p[r].parent in p && p[r].parent !in p[top].below
  {
    assert Fits(p, r) && Fits(p, p[r].parent) && Fits(p, top);
  }

  /** The walk from a router outside the changed subtree gives what it gave before. */
  lemma {:induction false} WalkKept(p: Plan, q: Plan, r: Router, top: Router, layer: Layer)
    requires Shape(p) && Shape(q) && p.Keys == q.Keys && r in q && top in q && r !in q[top].below
    requires SameOutside(p, q, top)
    ensures Chain(q, r, layer) == Chain(p, r, layer)
    ensures Provided(q, r) == Provided(p, r)
    decreases q.Keys - q[r].below
  {
    if q[r].parent != null {
      OutsideUp(q, r, top);
      Up(q, r);
      WalkKept(p, q, q[r].parent, top, layer);
    }
  }

  /** Changing a subtree and dropping its memos leaves every memo right. */
  lemma Resettled(p: Plan, q: Plan, top: Router, m: map<Router, Memo>, n: map<Router, Memo>)
    requires Shape(p) && Shape(q) && AllSound(p, m) && p.Keys == q.Keys == n.Keys && top in q
    requires SameOutside(p, q, top) && forall x | x in q && x !in q[top].below :: n[x] == m[x]
    requires forall x | x in q && x in q[top].below :: n[x] == Memo(None, map[])
    ensures AllSound(q, n)
  {
    forall r | r in q
      ensures Sound(q, r, n[r])
    {
      if r !in q[top].below {
        assert Sound(p, r, m[r]);
        SoundKept(p, q, r, top, m[r]);
      }
    }
  }

  lemma SoundKept(p: Plan, q: Plan, r: Router, top: Router, memo: Memo)
    requires Shape(p) && Shape(q) && p.Keys == q.Keys && r in q && top in q && r !in q[top].below
    requires SameOutside(p, q, top) && Sound(p, r, memo)
    ensures Sound(q, r, memo)
  {
    WalkKept(p, q, r, top, Filters);
    forall k | k in memo.configs
      ensures memo.configs[k] == Select(Chain(q, r, k.0), k.1)
    {
      WalkKept(p, q, r, top, k.0);
    }
  }

  lemma {:induction false} WalkSame(p: Plan, q: Plan, r: Router, layer: Layer)
    requires Shape(p) && Shape(q) && p.Keys == q.Keys && r in q && forall x | x in q :: SameOwn(p[x], q[x])
    ensures Chain(q, r, layer) == Chain(p, r, layer)
    ensures Provided(q, r) == Provided(p, r)
    decreases q.Keys - q[r].below
  {
    if q[r].parent != null {
      Up(q, r);
      Up(p, r);
      WalkSame(p, q, q[r].parent, layer);
    }
  }

  /** Memos depend on parents only, not on who lists whom. */
  lemma Relisted(p: Plan, q: Plan, m: map<Router, Memo>)
    requires Shape(p) && Shape(q) && AllSound(p, m) && p.Keys == q.Keys
    requires forall x | x in q :: SameOwn(p[x], q[x])
    ensures AllSound(q, m)
  {
    forall r | r in q
      ensures Sound(q, r, m[r])
    {
      assert Sound(p, r, m[r]);
      SoundSame(p, q, r, m[r]);
    }
  }

  lemma SoundSame(p: Plan, q: Plan, r: Router, memo: Memo)
    requires Shape(p) && Shape(q) && p.Keys == q.Keys && r in q && forall x | x in q :: SameOwn(p[x], q[x])
    requires Sound(p, r, memo)
    ensures Sound(q, r, memo)
  {
    WalkSame(p, q, r, Filters);
    forall k | k in memo.configs
      ensures memo.configs[k] == Select(Chain(q, r, k.0), k.1)
    {
      WalkSame(p, q, r, k.0);
    }
  }

  /** Changing what one router itself holds keeps the shape and all others. */
  lemma OwnChange(p: Plan, r: Router, forest: set<Router>)
    requires Shape(p) && r in p && p.Keys == forest
    requires forall x | x in forest && x != r :: x.Content() == p[x]
    requires r.routers == p[r].routers && r.parent == p[r].parent && r.below == p[r].below
    ensures Snap(forest) == p[r := r.Content()] && Shape(Snap(forest)) && SameOutside(p, Snap(forest), r)
  {
    assert Fits(p, r);
    SameEdges(p, Snap(forest));
  }

  /** Adding an edge from `top` to a router that does not reach it keeps the shape. */
  lemma Joined(p: Plan, top: Router, router: Router, adopt: bool)
    requires Shape(p) && top in p && router in p && top !in p[router].below
    requires adopt ==> p[router].parent == null
    ensures Shape(WithEdge(p, top, router, adopt))
  {
    var q: Plan := WithEdge(p, top, router, adopt);
    forall r | r in q
      ensures Fits(q, r)
    {
      assert Fits(p, r) && Fits(p, router) && Fits(p, top);
      forall x | x in q[r].below && x != r
        ensures Via(q, r, x)
      {
        JoinedVia(p, top, router, adopt, r, x);
      }
    }
  }

  lemma JoinedVia(p: Plan, top: Router, router: Router, adopt: bool, r: Router, x: Router)
    requires Shape(p) && top in p && router in p && r in p && x != r
    requires x in WithEdge(p, top, router, adopt)[r].below
    ensures Via(WithEdge(p, top, router, adopt), r, x)
  {
    var q: Plan := WithEdge(p, top, router, adopt);
    assert Fits(p, r) && Fits(p, router) && Fits(p, top);
    if x in p[r].below {
      assert Via(p, r, x);
      var c: Router :| c in p[r].routers && c in p && x in p[c].below;
      assert c in q[r].routers && x in q[c].below;
    } else if r == top {
      assert router in q[r].routers && x in q[router].below;
    } else {
      assert Via(p, r, top);
      var c: Router :| c in p[r].routers && c in p && top in p[c].below;
      assert c in q[r].routers && x in q[c].below;
    }
  }

  /** `q` has the children of `p` plus the new edge, and some `below` of its own. */
  ghost predicate EdgesOf(p: Plan, q: Plan, top: Router, router: Router, adopt: bool)
    requires top in p && router in p
  {
    p.Keys == q.Keys && forall x | x in p ::
      && q[x].routers == WithEdge(p, top, router, adopt)[x].routers
      && q[x].parent == WithEdge(p, top, router, adopt)[x].parent
  }

  /**
   An inclusion that passes both checks of the source, or a dispatcher that is only listed, leaves
   a forest exactly when the new child does not already reach its lister.
   */
  lemma SafeInclusion(p: Plan, top: Router, router: Router, adopt: bool)
    requires Shape(p) && top in p && router in p && (adopt ==> IncludeCheck(p, top, router).None?)
    ensures (exists q: Plan :: EdgesOf(p, q, top, router, adopt) && Shape(q)) <==> top !in p[router].below
  {
    if top !in p[router].below {
      Joined(p, top, router, adopt);
      assert EdgesOf(p, WithEdge(p, top, router, adopt), top, router, adopt);
    } else {
      forall q: Plan | EdgesOf(p, q, top, router, adopt) && Shape(q)
        ensures false
      {
        NoCycle(p, q, top, router, adopt);
      }
    }
  }

  lemma NoCycle(p: Plan, q: Plan, top: Router, router: Router, adopt: bool)
    requires Shape(p) && Shape(q) && top in p && router in p && EdgesOf(p, q, top, router, adopt)
    ensures top !in p[router].below
  {
    forall x | x in p[router].below
      ensures x in q[router].below
    {
      ReachKept(p, q, top, router, adopt, router, x);
    }
    assert Fits(q, top);
    assert router in q[top].routers;
  }

  lemma {:induction false} ReachKept(p: Plan, q: Plan, top: Router, router: Router, adopt: bool, r: Router, x: Router)
    requires Shape(p) && Shape(q) && top in p && router in p && EdgesOf(p, q, top, router, adopt)
    requires r in p && x in p[r].below
    ensures x in q[r].below
    decreases p[r].below
  {
    assert Fits(p, r) && Fits(q, r);
    if x != r {
      assert Via(p, r, x);
      var c: Router :| c in p[r].routers && c in p && x in p[c].below;
      ReachKept(p, q, top, router, adopt, c, x);
      assert c in q[r].routers;
    }
  }

  // ---- Inclusions that close a cycle ----------------------------------------

  /** Inside the invalidation of `r`, calls for children nest `n` deep. */
  ghost predicate Nests(p: Plan, r: Router, n: nat) {
    n == 0 || (r in p && exists c :: c in p[r].routers && Nests(p, c, n - 1))
  }

  lemma Smaller(a: set<Router>, b: set<Router>)
    requires a < b
    ensures |a| < |b|
  {
    assert !(b <= a);
    var x :| x in b && x !in a;
    Sizes(a, b - {x});
  }

  lemma {:induction false} Sizes(a: set<Router>, b: set<Router>)
    requires a <= b
    ensures |a| <= |b|
    decreases a
  {
    if x :| x in a {
      Sizes(a - {x}, b - {x});
    }
  }

  /** In a forest the calls nest no deeper than the subtree is large. */
  lemma {:induction false} NestingEnds(p: Plan, r: Router, n: nat)
    requires Shape(p) && r in p && Nests(p, r, n)
    ensures n < |p[r].below|
  {
    Children(p, r);
    if n == 0 {
      Smaller({}, p[r].below);
    } else {
      var c: Router :| c in p[r].routers && Nests(p, c, n - 1);
      NestingEnds(p, c, n - 1);
      Smaller(p[c].below, p[r].below);
    }
  }

  /** Once the new child reaches its lister, the calls of everything that reaches it nest to any depth. */
  lemma {:induction false} Endless(p: Plan, top: Router, router: Router, adopt: bool, r: Router, n: nat)
    requires Shape(p) && top in p && router in p && top in p[router].below && r in p && top in p[r].below
    ensures Nests(WithEdge(p, top, router, adopt), r, n)
  {
    if n > 0 {
      var q: Plan := WithEdge(p, top, router, adopt);
      var c: Router := router;
      if r != top {
        assert Fits(p, r) && Via(p, r, top);
        c :| c in p[r].routers && c in p && top in p[c].below;
      }
      Endless(p, top, router, adopt, c, n - 1);
      assert c in q[r].routers;
    }
  }

  /**
   After a new edge, the invalidation of its lister comes to an end exactly when the new child did not
   already reach it.
   */
  lemma InvalidationEnds(p: Plan, top: Router, router: Router, adopt: bool)
    requires Shape(p) && top in p && router in p && (adopt ==> IncludeCheck(p, top, router).None?)
    ensures (exists n: nat :: !Nests(WithEdge(p, top, router, adopt), top, n)) <==> top !in p[router].below
  {
    var q: Plan := WithEdge(p, top, router, adopt);
    if top !in p[router].below {
      Joined(p, top, router, adopt);
      assert !Nests(q, top, |q[top].below|) by {
        if Nests(q, top, |q[top].below|) {
          NestingEnds(q, top, |q[top].below|);
        }
      }
    } else {
      forall n: nat
        ensures Nests(q, top, n)
      {
        assert Fits(p, top);
        Endless(p, top, router, adopt, top, n);
      }
    }
  }

  /** A child that includes its own root passes both checks of the source and closes a cycle. */
  lemma RootIntoChild(root: Router, child: Router)
    requires root != child
    ensures var p: Plan := map[root := Node([child], null, map[], [], [], [], {root, child}),
                               child := Node([], root, map[], [], [], [], {child})];
            Shape(p) && IncludeCheck(p, child, root).None? && child in p[root].below
  {
    var p: Plan := map[root := Node([child], null, map[], [], [], [], {root, child}),
                       child := Node([], root, map[], [], [], [], {child})];
    assert child in p[root].routers;
    assert Via(p, root, child);
  }

  // ---- Whole runs ----------------------------------------------------------

  datatype Op =
    | OpProvide(at: Router, name: string, value: Handle)
    | OpAdd(at: Router, layer: Layer, config: Config)
    | OpInclude(at: Router, child: Router)
    | OpAttach(at: Router, child: Router)
    | AskDependencies(at: Router)
    | AskConfigs(at: Router, layer: Layer, eventType: EventType)

  datatype Answer =
    | Done
    | Refused(error: IncludeError)
    | Dependencies(deps: map<string, Handle>)
    | Configs(configs: seq<Config>)

  function Replied(error: Option<IncludeError>): Answer {
    if error.Some? then Refused(error.value) else Done
  }

  ghost predicate Safe(p: Plan, op: Op) {
    && op.at in p
    && (op.OpInclude? ==> op.child in p && (IncludeCheck(p, op.at, op.child).None? ==> op.at !in p[op.child].below))
    && (op.OpAttach? ==> op.child in p && (AddsEdge(p, op.at, op.child) ==> op.at !in p[op.child].below))
  }

  /** The forest without memos, after one operation. */
  ghost function Apply(p: Plan, op: Op): Plan
    requires Safe(p, op)
  {
    match op
    case OpProvide(r, name, value) => WithDependency(p, r, name, value)
    case OpAdd(r, layer, config) => WithConfig(p, r, layer, config)
    case OpInclude(r, child) => Included(p, r, child)
    case OpAttach(r, child) => Attached(p, r, child)
    case _ => p
  }

  /** What the memo-free forest answers to one operation. */
  ghost function Expected(p: Plan, op: Op): Answer
    requires Shape(p) && Safe(p, op)
  {
    match op
    case OpInclude(r, child) => Replied(IncludeCheck(p, r, child))
    case OpAttach(r, child) => Replied(AttachCheck(p, r, child))
    case AskDependencies(r) => Dependencies(Provided(p, r))
    case AskConfigs(r, layer, e) => Configs(Select(Chain(p, r, layer), e))
    case _ => Done
  }

  /** A right answer, told from the routers above the one asked. */
  ghost predicate Answered(p: Plan, op: Op, answer: Answer)
    requires Shape(p) && Safe(p, op)
  {
    match op
    case AskDependencies(r) => answer.Dependencies? && Nearest(p, Lineage(p, r), answer.deps)
    case AskConfigs(r, layer, e) =>
      answer.Configs? && Keeps(Flatten(RootFirst(p, Lineage(p, r), layer)), e, answer.configs)
    case OpInclude(r, child) =>
      if child == r then answer == Refused(IntoItself)
      else if p[child].parent != null then answer == Refused(AlreadyIncluded)
      else answer == Done
    case OpAttach(r, child) =>
      if child == r && p[r].parent == null && r !in p[r].routers then answer == Refused(IntoItself)
      else answer == Done
    case _ => answer == Done
  }

  lemma ExpectedAnswers(p: Plan, op: Op)
    requires Shape(p) && Safe(p, op)
    ensures Answered(p, op, Expected(p, op))
  {
    match op
    case AskDependencies(r) => ProvidedIsNearest(p, r);
    case AskConfigs(r, layer, e) =>
      ChainIsRootFirst(p, r, layer);
      SelectKeeps(Chain(p, r, layer), e);
    case _ =>
  }

  ghost predicate SafeRun(p: Plan, ops: seq<Op>) {
    ops == [] || (Safe(p, ops[0]) && SafeRun(Apply(p, ops[0]), ops[1..]))
  }

  lemma ApplyKeepsShape(p: Plan, op: Op)
    requires Shape(p) && Safe(p, op)
    ensures Shape(Apply(p, op))
  {
    if op.OpInclude? && IncludeCheck(p, op.at, op.child).None? {
      Joined(p, op.at, op.child, true);
    } else if op.OpAttach? && AddsEdge(p, op.at, op.child) {
      Joined(p, op.at, op.child, p[op.child].parent == null);
    } else {
      SameEdges(p, Apply(p, op));
    }
  }

  ghost function ExpectedRun(p: Plan, ops: seq<Op>): seq<Answer>
    requires Shape(p) && SafeRun(p, ops)
    decreases |ops|
  {
    if ops == [] then []
    else
      ApplyKeepsShape(p, ops[0]);
      [Expected(p, ops[0])] + ExpectedRun(Apply(p, ops[0]), ops[1..])
  }

  /** The forest without memos, after the first `n` operations. */
  ghost function PlanAt(p: Plan, ops: seq<Op>, n: nat): Plan
    requires Shape(p) && SafeRun(p, ops) && n <= |ops|
    ensures Shape(PlanAt(p, ops, n)) && (n < |ops| ==> Safe(PlanAt(p, ops, n), ops[n]))
    decreases |ops|
  {
    if n == 0 then p
    else
      ApplyKeepsShape(p, ops[0]);
      PlanAt(Apply(p, ops[0]), ops[1..], n - 1)
  }

  /** Every answer of a run is right for the forest as it then was. */
  lemma {:induction false} RunAnswers(p: Plan, ops: seq<Op>)
    requires Shape(p) && SafeRun(p, ops)
    ensures |ExpectedRun(p, ops)| == |ops|
    ensures forall i | 0 <= i < |ops| :: Answered(PlanAt(p, ops, i), ops[i], ExpectedRun(p, ops)[i])
    decreases |ops|
  {
    if ops != [] {
      ApplyKeepsShape(p, ops[0]);
      ExpectedAnswers(p, ops[0]);
      var next, rest := Apply(p, ops[0]), ops[1..];
      RunAnswers(next, rest);
      forall i | 0 <= i < |ops|
        ensures Answered(PlanAt(p, ops, i), ops[i], ExpectedRun(p, ops)[i])
      {
        if i > 0 {
          assert PlanAt(p, ops, i) == PlanAt(next, rest, i - 1) && ops[i] == rest[i - 1];
        }
      }
    }
  }

  lemma RunStep(p: Plan, ops: seq<Op>, i: nat)
    requires i < |ops| && Shape(p) && SafeRun(p, ops[i..])
    ensures Safe(p, ops[i]) && Shape(Apply(p, ops[i])) && SafeRun(Apply(p, ops[i]), ops[i + 1..])
    ensures ExpectedRun(p, ops[i..]) == [Expected(p, ops[i])] + ExpectedRun(Apply(p, ops[i]), ops[i + 1..])
  {
    assert ops[i..][0] == ops[i] && ops[i..][1..] == ops[i + 1..];
    ApplyKeepsShape(p, ops[i]);
  }

  method Execute(op: Op, ghost forest: set<Router>) returns (answer: Answer)
    requires Valid(forest) && Safe(Snap(forest), op)
    modifies forest
    ensures Valid(forest) && Snap(forest) == Apply(old(Snap(forest)), op)
    ensures answer == Expected(old(Snap(forest)), op)
    ensures op.OpProvide? ==> op.at.dependencies == old(op.at.dependencies)[op.name := op.value]
    ensures op.OpAdd? ==> TakesPlace(old(op.at.Content()), op.layer, op.config, op.at.Content())
    ensures op.OpInclude? && answer == Done ==>
              op.child.parent == op.at && op.at.routers == old(op.at.routers) + [op.child]
  {
    assert Fits(Snap(forest), op.at);
    match op {
      case OpProvide(r, name, value) =>
        r.Provide(name, value, forest);
        answer := Done;
      case OpAdd(r, layer, config) =>
        r.AddConfig(layer, config, forest);
        answer := Done;
      case OpInclude(r, child) =>
        assert Fits(Snap(forest), child);
        var error := r.Include(child, forest);
        answer := Replied(error);
      case OpAttach(r, child) =>
        assert Fits(Snap(forest), child);
        var error := r.AttachDispatcher(child, forest);
        answer := Replied(error);
      case AskDependencies(r) =>
        var deps := r.ResolveDependencies(forest);
        answer := Dependencies(deps);
      case AskConfigs(r, layer, eventType) =>
        var configs := r.ResolveConfigs(layer, eventType, forest);
        answer := Configs(configs);
    }
  }

  /** Newly constructed routers are a forest with nothing memoised, where every run can start. */
  lemma NewRouters(forest: set<Router>)
    requires forall r | r in forest ::
               r.Content() == Node([], null, map[], [], [], [], {r}) && r.Remembered() == Memo(None, map[])
    ensures Valid(forest)
  {
  }

  /** Over any run, every answer is right for the forest as it then was, as if there were no memos. */
  method Replay(ops: seq<Op>, ghost forest: set<Router>) returns (answers: seq<Answer>)
    requires Valid(forest) && SafeRun(Snap(forest), ops)
    modifies forest
    ensures Valid(forest) && answers == ExpectedRun(old(Snap(forest)), ops)
    ensures |answers| == |ops| && forall i | 0 <= i < |ops| ::
              Answered(PlanAt(old(Snap(forest)), ops, i), ops[i], answers[i])
  {
    RunAnswers(Snap(forest), ops);
    answers := ReplayAll(ops, forest);
  }

  method ReplayAll(ops: seq<Op>, ghost forest: set<Router>) returns (answers: seq<Answer>)
    requires Valid(forest) && SafeRun(Snap(forest), ops)
    modifies forest
    ensures Valid(forest) && answers == ExpectedRun(old(Snap(forest)), ops)
  {
    answers := [];
    for i := 0 to |ops|
      invariant Valid(forest) && SafeRun(Snap(forest), ops[i..])
      invariant answers + ExpectedRun(Snap(forest), ops[i..]) == ExpectedRun(old(Snap(forest)), ops)
    {
      RunStep(Snap(forest), ops, i);
      ghost var rest := ExpectedRun(Apply(Snap(forest), ops[i]), ops[i + 1..]);
      var answer := Execute(ops[i], forest);
      Assoc(answers, [answer], rest);
      answers := answers + [answer];
    }
  }
}
