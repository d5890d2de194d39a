/**
 The Rust dispatcher: a router tree is flattened once into a table of routes with
 precomposed middleware chains, and events run through the table.
 */
module Dispatch {
  import opened Common
  import opened Filters

  type Payload = nat

  datatype Kind =
    | KReady | KMessageCreate | KMessageUpdate | KMessageDelete
    | KGuildCreate | KInteractionCreate | KUnknown

  datatype Event =
    | Ready(data: Payload)
    | MessageCreate(msg: Message)
    | MessageUpdate(msg: Message)
    | MessageDelete(data: Payload)
    | GuildCreate(data: Payload)
    | InteractionCreate(data: Payload)
    | Unknown(name: string, data: Payload)
  {
    function KindOf(): Kind {
      match this
      case Ready(_) => KReady
      case MessageCreate(_) => KMessageCreate
      case MessageUpdate(_) => KMessageUpdate
      case MessageDelete(_) => KMessageDelete
      case GuildCreate(_) => KGuildCreate
      case InteractionCreate(_) => KInteractionCreate
      case Unknown(_, _) => KUnknown
    }

    function MessageOf(): Option<Message> {
      if MessageCreate? || MessageUpdate? then Some(msg) else None
    }
  }

  datatype Result = Ok | Err(error: Error)

  type Chain<!W> = (W, Event, Bag) -> (W, Result)
  type Middleware<!W> = (W, Event, Bag, Chain<W>) -> (W, Result)

  datatype Route<!W> = Route(kind: Kind, filters: seq<Filter<W>>, handler: Chain<W>)
  datatype Collected<!W> = Collected(kind: Kind, filters: seq<Filter<W>>,
                                     middlewares: seq<Middleware<W>>, handler: Chain<W>)
  datatype Router<!W> = Router(routes: seq<Route<W>>, children: seq<Router<W>>, middlewares: seq<Middleware<W>>)

  // ---- Middleware chains ---------------------------------------------------

  function Layer<W>(m: Middleware<W>, inner: Chain<W>): Chain<W> {
    (w: W, e: Event, bag: Bag) => m(w, e, bag, inner)
  }

  /** The first middleware is outermost, the last one wraps the handler. */
  function Nest<W>(ms: seq<Middleware<W>>, handler: Chain<W>): Chain<W> {
    if |ms| == 0 then handler else Layer(ms[0], Nest(ms[1..], handler))
  }

  method Compose<W>(handler: Chain<W>, ms: seq<Middleware<W>>) returns (chain: Chain<W>)
    ensures chain == Nest(ms, handler)
  {
    chain := handler;
    for i := |ms| downto 0
      invariant chain == Nest(ms[i..], handler)
    {
      assert ms[i..][1..] == ms[i + 1..];
      chain := Layer(ms[i], chain);
    }
    assert ms[0..] == ms;
  }

  lemma {:induction false} NestAppend<W>(outer: seq<Middleware<W>>, inner: seq<Middleware<W>>, handler: Chain<W>)
    ensures Nest(outer + inner, handler) == Nest(outer, Nest(inner, handler))
  {
    if |outer| == 0 {
      assert outer + inner == inner;
    } else {
      assert (outer + inner)[1..] == outer[1..] + inner;
      NestAppend(outer[1..], inner, handler);
    }
  }

  // ---- Reference: interpreting the tree ------------------------------------

  /** One route: kind, then filters, then the wrapped handler. */
  function RunRoute<W>(kind: Kind, filters: seq<Filter<W>>, chain: Chain<W>, e: Event, w: W): (W, Result) {
    if kind != e.KindOf() then (w, Ok)
    else if |filters| == 0 then chain(w, e, EMPTY)
    else if e.MessageOf().None? then (w, Ok)
    else
      var (w1, o) := RunFilters(filters, w, e.MessageOf().value, EMPTY);
      match o
      case Fail(error) => (w1, Err(error))
      case Reject => (w1, Ok)
      case Pass(bag) => chain(w1, e, bag)
  }

  /** A route is for exactly one kind of event. */
  predicate Suits(kind: Kind, e: Event) {
    || (kind.KReady? && e.Ready?) || (kind.KMessageCreate? && e.MessageCreate?)
    || (kind.KMessageUpdate? && e.MessageUpdate?) || (kind.KMessageDelete? && e.MessageDelete?)
    || (kind.KGuildCreate? && e.GuildCreate?) || (kind.KInteractionCreate? && e.InteractionCreate?)
    || (kind.KUnknown? && e.Unknown?)
  }

  /**
   What becomes of one event at one route, told by the answers of its filters: the chain runs, once, when the
   kind suits and there are no filters, or the event carries a message and all of them pass, and then
   gets the bag they filled. A rejection ends the route quietly and a failing filter is its error.
   */
  ghost predicate Routed<W(!new)>(kind: Kind, filters: seq<Filter<W>>, chain: Chain<W>, e: Event, w: W,
                                  out: (W, Result))
  {
    if !Suits(kind, e) then out == (w, Ok)
    else if |filters| == 0 then out == chain(w, e, EMPTY)
    else if !e.MessageCreate? && !e.MessageUpdate? then out == (w, Ok)
    else
      forall n: nat, ws: seq<W>, bags: seq<Bag> |
        Passing(filters, e.msg, n, ws, bags) && ws[0] == w && bags[0] == EMPTY ::
        if n == |filters| then out == chain(ws[n], e, bags[n])
        else
          var (w', o) := Verdict(filters, e.msg, n, ws, bags);
          (o.Reject? ==> out == (w', Ok)) && (o.Fail? ==> out == (w', Err(o.error)))
  }

  lemma RunRouteMeans<W(!new)>(kind: Kind, filters: seq<Filter<W>>, chain: Chain<W>, e: Event, w: W)
    ensures Routed(kind, filters, chain, e, w, RunRoute(kind, filters, chain, e, w))
  {
    if Suits(kind, e) && |filters| > 0 && e.MessageOf().Some? {
      forall n: nat, ws: seq<W>, bags: seq<Bag> |
        Passing(filters, e.msg, n, ws, bags) && ws[0] == w && bags[0] == EMPTY
        ensures n == |filters| ==> RunFilters(filters, w, e.msg, EMPTY) == (ws[n], Pass(bags[n]))
        ensures n < |filters| && !Verdict(filters, e.msg, n, ws, bags).1.Pass? ==>
                  RunFilters(filters, w, e.msg, EMPTY) == Verdict(filters, e.msg, n, ws, bags)
      {
        RunFiltersMeans(filters, e.msg, n, ws, bags);
      }
    }
  }

  /** The answers of the filters leave only one outcome. */
  lemma OneOutcome<W(!new)>(kind: Kind, filters: seq<Filter<W>>, chain: Chain<W>, e: Event, w: W,
                            a: (W, Result), b: (W, Result))
    requires Routed(kind, filters, chain, e, w, a) && Routed(kind, filters, chain, e, w, b)
    ensures a == b
  {
    if Suits(kind, e) && |filters| > 0 && (e.MessageCreate? || e.MessageUpdate?) {
      var n, ws, bags := FiltersStop(filters, e.msg, 0, [w], [EMPTY]);
    }
  }

  type Wrapper<!W> = Chain<W> -> Chain<W>

  /** A router's own routes, in registration order, each inside `wrap`; the first error stops. */
  function RunOwn<W>(routes: seq<Route<W>>, wrap: Wrapper<W>, e: Event, w: W): (W, Result) {
    if |routes| == 0 then (w, Ok)
    else
      var (w1, r) := RunRoute(routes[0].kind, routes[0].filters, wrap(routes[0].handler), e, w);
      if r.Err? then (w1, r) else RunOwn(routes[1..], wrap, e, w1)
  }

  /** What `router` adds inside the wrapping it was given. */
  function Inside<W>(wrap: Wrapper<W>, ms: seq<Middleware<W>>): Wrapper<W> {
    h => wrap(Nest(ms, h))
  }

  /** Own routes first, then each child with this router's middleware around it. */
  function RunTree<W>(router: Router<W>, wrap: Wrapper<W>, e: Event, w: W): (W, Result)
    decreases router, 1
  {
    var mine := Inside(wrap, router.middlewares);
    var (w1, r) := RunOwn(router.routes, mine, e, w);
    if r.Err? then (w1, r) else RunTrees(router.children, mine, e, w1)
  }

  function RunTrees<W>(routers: seq<Router<W>>, wrap: Wrapper<W>, e: Event, w: W): (W, Result)
    decreases routers, 0
  {
    if |routers| == 0 then (w, Ok)
    else
      var (w1, r) := RunTree(routers[0], wrap, e, w);
      if r.Err? then (w1, r) else RunTrees(routers[1..], wrap, e, w1)
  }

  // ---- The compiled table --------------------------------------------------

  function CollectOwn<W>(routes: seq<Route<W>>, chain: seq<Middleware<W>>): seq<Collected<W>> {
    if |routes| == 0 then []
    else [Collected(routes[0].kind, routes[0].filters, chain, routes[0].handler)] + CollectOwn(routes[1..], chain)
  }

  function CollectRoutes<W>(router: Router<W>, parent: seq<Middleware<W>>): seq<Collected<W>>
    decreases router, 1
  {
    var chain := parent + router.middlewares;
    CollectOwn(router.routes, chain) + CollectTrees(router.children, chain)
  }

  function CollectTrees<W>(routers: seq<Router<W>>, parent: seq<Middleware<W>>): seq<Collected<W>>
    decreases routers, 0
  {
    if |routers| == 0 then [] else CollectRoutes(routers[0], parent) + CollectTrees(routers[1..], parent)
  }

  /** Running collected routes in order inside the dispatcher's own middleware. */
  function RunTable<W>(table: seq<Collected<W>>, outer: seq<Middleware<W>>, e: Event, w: W): (W, Result) {
    if |table| == 0 then (w, Ok)
    else
      var chain := Nest(outer + table[0].middlewares, table[0].handler);
      var (w1, r) := RunRoute(table[0].kind, table[0].filters, chain, e, w);
      if r.Err? then (w1, r) else RunTable(table[1..], outer, e, w1)
  }

  lemma {:induction false} RunTableAppend<W>(a: seq<Collected<W>>, b: seq<Collected<W>>,
                                             outer: seq<Middleware<W>>, e: Event, w: W)
    ensures var (w1, r) := RunTable(a, outer, e, w);
            RunTable(a + b, outer, e, w) == if r.Err? then (w1, r) else RunTable(b, outer, e, w1)
  {
    if |a| == 0 {
      assert a + b == b;
    } else {
      assert (a + b)[0] == a[0] && (a + b)[1..] == a[1..] + b;
      var chain := Nest(outer + a[0].middlewares, a[0].handler);
      var (w1, r) := RunRoute(a[0].kind, a[0].filters, chain, e, w);
      if !r.Err? {
        RunTableAppend(a[1..], b, outer, e, w1);
      }
    }
  }

  /** `wrap` is nesting in the dispatcher's and the ancestors' middleware. */
  ghost predicate Wraps<W(!new)>(wrap: Wrapper<W>, outer: seq<Middleware<W>>, parent: seq<Middleware<W>>) {
    forall h: Chain<W> :: wrap(h) == Nest(outer + parent, h)
  }

  lemma WrapsInside<W(!new)>(wrap: Wrapper<W>, outer: seq<Middleware<W>>, parent: seq<Middleware<W>>,
                             ms: seq<Middleware<W>>)
    requires Wraps(wrap, outer, parent)
    ensures Wraps(Inside(wrap, ms), outer, parent + ms)
  {
    forall h: Chain<W>
      ensures Inside(wrap, ms)(h) == Nest(outer + (parent + ms), h)
    {
      NestAppend(outer + parent, ms, h);
      Assoc(outer, parent, ms);
    }
  }

  lemma {:induction false} OwnAgrees<W(!new)>(routes: seq<Route<W>>, wrap: Wrapper<W>, outer: seq<Middleware<W>>,
                                              chain: seq<Middleware<W>>, e: Event, w: W)
    requires Wraps(wrap, outer, chain)
    ensures RunTable(CollectOwn(routes, chain), outer, e, w) == RunOwn(routes, wrap, e, w)
  {
    if |routes| > 0 {
      var here := RunRoute(routes[0].kind, routes[0].filters, wrap(routes[0].handler), e, w);
      OwnAgrees(routes[1..], wrap, outer, chain, e, here.0);
      var table := CollectOwn(routes, chain);
      assert table[1..] == CollectOwn(routes[1..], chain);
    }
  }

  lemma {:induction false} TreeAgrees<W(!new)>(router: Router<W>, wrap: Wrapper<W>, outer: seq<Middleware<W>>,
                                               parent: seq<Middleware<W>>, e: Event, w: W)
    requires Wraps(wrap, outer, parent)
    ensures RunTable(CollectRoutes(router, parent), outer, e, w) == RunTree(router, wrap, e, w)
    decreases router, 1
  {
    var chain, mine := parent + router.middlewares, Inside(wrap, router.middlewares);
    WrapsInside(wrap, outer, parent, router.middlewares);
    OwnAgrees(router.routes, mine, outer, chain, e, w);
    RunTableAppend(CollectOwn(router.routes, chain), CollectTrees(router.children, chain), outer, e, w);
    TreesAgree(router.children, mine, outer, chain, e, RunOwn(router.routes, mine, e, w).0);
  }

  lemma {:induction false} TreesAgree<W(!new)>(routers: seq<Router<W>>, wrap: Wrapper<W>, outer: seq<Middleware<W>>,
                                               parent: seq<Middleware<W>>, e: Event, w: W)
    requires Wraps(wrap, outer, parent)
    ensures RunTable(CollectTrees(routers, parent), outer, e, w) == RunTrees(routers, wrap, e, w)
    decreases routers, 0
  {
    if |routers| > 0 {
      TreeAgrees(routers[0], wrap, outer, parent, e, w);
      RunTableAppend(CollectRoutes(routers[0], parent), CollectTrees(routers[1..], parent), outer, e, w);
      TreesAgree(routers[1..], wrap, outer, parent, e, RunTree(routers[0], wrap, e, w).0);
    }
  }

  /** The dispatcher's own middleware as a wrapping of whole trees. */
  function Outermost<W>(outer: seq<Middleware<W>>): Wrapper<W> {
    h => Nest(outer, h)
  }

  /** The flat table means the same as the included trees. */
  lemma CompiledMeansTree<W(!new)>(routers: seq<Router<W>>, outer: seq<Middleware<W>>, e: Event, w: W)
    ensures RunTable(CollectTrees(routers, []), outer, e, w) == RunTrees(routers, Outermost(outer), e, w)
  {
    assert outer + [] == outer;
    TreesAgree(routers, Outermost(outer), outer, [], e, w);
  }

  lemma {:induction false} CollectTreesAppend<W>(a: seq<Router<W>>, b: Router<W>, parent: seq<Middleware<W>>)
    ensures CollectTrees(a + [b], parent) == CollectTrees(a, parent) + CollectRoutes(b, parent)
  {
    if |a| == 0 {
      assert a + [b] == [b] && [b][1..] == [];
    } else {
      assert (a + [b])[0] == a[0] && (a + [b])[1..] == a[1..] + [b];
      CollectTreesAppend(a[1..], b, parent);
      Assoc(CollectRoutes(a[0], parent), CollectTrees(a[1..], parent), CollectRoutes(b, parent));
    }
  }

  // ---- The order of routes ---------------------------------------------------

  /** Where a route is registered, seen from a router: which child, whose child and so on, and which route there. */
  datatype Address = Address(path: seq<nat>, route: nat)

  function Down(a: Address): Address
    requires a.path != []
  {
    Address(a.path[1..], a.route)
  }

  function Into(k: nat, a: Address): Address {
    Address([k] + a.path, a.route)
  }

  /** Own routes come before those of children, and both in registration order. */
  predicate Earlier(a: Address, b: Address)
    decreases |a.path|
  {
    if a.path == [] then b.path != [] || a.route < b.route
    else b.path != [] && (a.path[0] < b.path[0] || (a.path[0] == b.path[0] && Earlier(Down(a), Down(b))))
  }

  predicate Exists<W>(router: Router<W>, a: Address)
    decreases |a.path|
  {
    if a.path == [] then a.route < |router.routes|
    else a.path[0] < |router.children| && Exists(router.children[a.path[0]], Down(a))
  }

  /** `c` is the route at that address with the middleware of every router on the way to it, outermost first. */
  ghost predicate StandsAt<W>(router: Router<W>, parent: seq<Middleware<W>>, a: Address, c: Collected<W>)
    decreases |a.path|
  {
    if a.path == [] then
      a.route < |router.routes| &&
      var r := router.routes[a.route]; c == Collected(r.kind, r.filters, parent + router.middlewares, r.handler)
    else
      a.path[0] < |router.children| &&
      StandsAt(router.children[a.path[0]], parent + router.middlewares, Down(a), c)
  }

  /** The table lists every route of the tree once, in order. */
  ghost predicate InOrder<W>(router: Router<W>, parent: seq<Middleware<W>>, table: seq<Collected<W>>, at: seq<Address>) {
    && |at| == |table|
    && (forall k | 0 <= k < |at| :: StandsAt(router, parent, at[k], table[k]))
    && (forall i, j | 0 <= i < j < |at| :: Earlier(at[i], at[j]))
    && (forall a | Exists(router, a) :: a in at)
  }

  /** The same of the children from number `k` on. */
  ghost predicate ChildrenInOrder<W>(router: Router<W>, parent: seq<Middleware<W>>, k: nat,
                                     table: seq<Collected<W>>, at: seq<Address>)
  {
    && |at| == |table|
    && (forall i | 0 <= i < |at| :: at[i].path != [] && at[i].path[0] >= k && StandsAt(router, parent, at[i], table[i]))
    && (forall i, j | 0 <= i < j < |at| :: Earlier(at[i], at[j]))
    && (forall a | Exists(router, a) && a.path != [] && a.path[0] >= k :: a in at)
  }

  lemma {:induction false} OwnInOrder<W>(routes: seq<Route<W>>, chain: seq<Middleware<W>>)
    ensures |CollectOwn(routes, chain)| == |routes|
    ensures forall i | 0 <= i < |routes| ::
              CollectOwn(routes, chain)[i] == Collected(routes[i].kind, routes[i].filters, chain, routes[i].handler)
  {
    if |routes| > 0 {
      OwnInOrder(routes[1..], chain);
    }
  }

  function IntoAll(k: nat, at: seq<Address>): (r: seq<Address>)
    ensures |r| == |at| && forall i | 0 <= i < |at| :: r[i] == Into(k, at[i])
  {
    seq(|at|, i requires 0 <= i < |at| => Into(k, at[i]))
  }

  lemma DownInto(k: nat, a: Address, b: Address)
    ensures Down(Into(k, a)) == a
    ensures Earlier(Into(k, a), Into(k, b)) == Earlier(a, b)
    ensures a.path != [] ==> Into(a.path[0], Down(a)) == a
  {
    assert ([k] + a.path)[1..] == a.path && ([k] + b.path)[1..] == b.path;
    if a.path != [] {
      assert [a.path[0]] + a.path[1..] == a.path;
    }
  }

  lemma ChildStands<W>(router: Router<W>, parent: seq<Middleware<W>>, k: nat, a: Address, c: Collected<W>)
    requires k < |router.children| && StandsAt(router.children[k], parent + router.middlewares, a, c)
    ensures StandsAt(router, parent, Into(k, a), c)
  {
    DownInto(k, a, a);
  }

  lemma ChildrenOrdered(k: nat, at: seq<Address>, rest: seq<Address>)
    requires forall i, j | 0 <= i < j < |at| :: Earlier(at[i], at[j])
    requires forall i, j | 0 <= i < j < |rest| :: Earlier(rest[i], rest[j])
    requires forall i | 0 <= i < |rest| :: rest[i].path != [] && rest[i].path[0] > k
    ensures var all := IntoAll(k, at) + rest; forall i, j | 0 <= i < j < |all| :: Earlier(all[i], all[j])
  {
    var all := IntoAll(k, at) + rest;
    forall i, j | 0 <= i < j < |all|
      ensures Earlier(all[i], all[j])
    {
      if j < |at| {
        assert all[i] == Into(k, at[i]) && all[j] == Into(k, at[j]);
        DownInto(k, at[i], at[j]);
      } else if i < |at| {
        assert all[i] == Into(k, at[i]) && all[j] == rest[j - |at|];
      } else {
        assert all[i] == rest[i - |at|] && all[j] == rest[j - |at|];
      }
    }
  }

  lemma ChildListed<W>(router: Router<W>, k: nat, at: seq<Address>, a: Address)
    requires k < |router.children| && Exists(router, a) && a.path != [] && a.path[0] == k
    requires forall b | Exists(router.children[k], b) :: b in at
    ensures a in IntoAll(k, at)
  {
    DownInto(k, a, a);
    assert Exists(router.children[k], Down(a));
    var i :| 0 <= i < |at| && at[i] == Down(a);
    assert IntoAll(k, at)[i] == a;
  }

  /** The routes of one child, in front of those of the later children. */
  lemma OneChild<W>(router: Router<W>, parent: seq<Middleware<W>>, k: nat, here: seq<Collected<W>>, at: seq<Address>,
                    later: seq<Collected<W>>, rest: seq<Address>)
    requires k < |router.children|
    requires InOrder(router.children[k], parent + router.middlewares, here, at)
    requires ChildrenInOrder(router, parent, k + 1, later, rest)
    ensures ChildrenInOrder(router, parent, k, here + later, IntoAll(k, at) + rest)
  {
    var all, table := IntoAll(k, at) + rest, here + later;
    forall i | 0 <= i < |all|
      ensures all[i].path != [] && all[i].path[0] >= k && StandsAt(router, parent, all[i], table[i])
    {
      if i < |at| {
        assert all[i] == Into(k, at[i]) && table[i] == here[i];
        ChildStands(router, parent, k, at[i], here[i]);
      } else {
        assert all[i] == rest[i - |at|] && table[i] == later[i - |at|];
      }
    }
    ChildrenOrdered(k, at, rest);
    forall a | Exists(router, a) && a.path != [] && a.path[0] >= k
      ensures a in all
    {
      if a.path[0] == k {
        ChildListed(router, k, at, a);
      } else {
        assert a in rest;
      }
    }
  }

  lemma {:induction false} ChildrenCollected<W>(router: Router<W>, parent: seq<Middleware<W>>, k: nat)
    returns (at: seq<Address>)
    requires k <= |router.children|
    ensures ChildrenInOrder(router, parent, k, CollectTrees(router.children[k..], parent + router.middlewares), at)
    decreases router, |router.children| - k
  {
    var chain := parent + router.middlewares;
    at := [];
    if k < |router.children| {
      var here := InOrderAt(router.children[k], chain);
      var rest := ChildrenCollected(router, parent, k + 1);
      assert router.children[k..][0] == router.children[k] && router.children[k..][1..] == router.children[k + 1..];
      OneChild(router, parent, k, CollectRoutes(router.children[k], chain), here,
               CollectTrees(router.children[k + 1..], chain), rest);
      at := IntoAll(k, here) + rest;
    }
  }

  /** Flattening a tree lists each of its routes once, own ones before children's, with all middleware above it. */
  lemma {:induction false} InOrderAt<W>(router: Router<W>, parent: seq<Middleware<W>>) returns (at: seq<Address>)
    ensures InOrder(router, parent, CollectRoutes(router, parent), at)
    decreases router, |router.children| + 1
  {
    var chain := parent + router.middlewares;
    var rest := ChildrenCollected(router, parent, 0);
    assert router.children[0..] == router.children;
    OwnInOrder(router.routes, chain);
    var own := seq(|router.routes|, i requires 0 <= i < |router.routes| => Address([], i));
    at := own + rest;
    OwnThenChildren(router, parent, own, CollectOwn(router.routes, chain), rest, CollectTrees(router.children, chain));
  }

  lemma OwnThenChildren<W>(router: Router<W>, parent: seq<Middleware<W>>, own: seq<Address>, here: seq<Collected<W>>,
                           rest: seq<Address>, later: seq<Collected<W>>)
    requires |own| == |here| == |router.routes| && forall i | 0 <= i < |own| :: own[i] == Address([], i)
    requires forall i | 0 <= i < |own| :: StandsAt(router, parent, own[i], here[i])
    requires ChildrenInOrder(router, parent, 0, later, rest)
    ensures InOrder(router, parent, here + later, own + rest)
  {
    var all := own + rest;
    forall a | Exists(router, a)
      ensures a in all
    {
      if a.path == [] {
        assert all[a.route] == a;
      }
    }
  }

  /** The outcome of one event at one entry of the table, inside the dispatcher's middleware. */
  ghost predicate RoutedAs<W(!new)>(c: Collected<W>, outer: seq<Middleware<W>>, e: Event, w: W, out: (W, Result)) {
    Routed(c.kind, c.filters, Nest(outer + c.middlewares, c.handler), e, w, out)
  }

  /** The first `n` routes end well one after the other, and all do or the next one's error is the outcome. */
  ghost predicate Walk<W(!new)>(table: seq<Collected<W>>, outer: seq<Middleware<W>>, e: Event, w: W,
                                n: nat, ws: seq<W>, out: (W, Result))
  {
    && n <= |table| && |ws| == n + 1 && ws[0] == w
    && (forall k | 0 <= k < n :: RoutedAs(table[k], outer, e, ws[k], (ws[k + 1], Ok)))
    && if n == |table| then out == (ws[n], Ok) else out.1.Err? && RoutedAs(table[n], outer, e, ws[n], out)
  }

  lemma {:induction false} TableWalks<W(!new)>(table: seq<Collected<W>>, outer: seq<Middleware<W>>, e: Event, w: W)
    returns (n: nat, ws: seq<W>)
    ensures Walk(table, outer, e, w, n, ws, RunTable(table, outer, e, w))
  {
    n, ws := 0, [w];
    if |table| > 0 {
      var chain := Nest(outer + table[0].middlewares, table[0].handler);
      var (w1, r) := RunRoute(table[0].kind, table[0].filters, chain, e, w);
      RunRouteMeans(table[0].kind, table[0].filters, chain, e, w);
      assert RoutedAs(table[0], outer, e, w, (w1, r));
      if r.Ok? {
        var n', ws' := TableWalks(table[1..], outer, e, w1);
        WalkOn(table, outer, e, w, w1, n', ws', RunTable(table[1..], outer, e, w1));
        n, ws := n' + 1, [w] + ws';
      }
    }
  }

  lemma WalkOn<W(!new)>(table: seq<Collected<W>>, outer: seq<Middleware<W>>, e: Event, w: W, w1: W,
                        n: nat, ws: seq<W>, out: (W, Result))
    requires |table| > 0 && RoutedAs(table[0], outer, e, w, (w1, Ok)) && Walk(table[1..], outer, e, w1, n, ws, out)
    ensures Walk(table, outer, e, w, n + 1, [w] + ws, out)
  {
    var all := [w] + ws;
    forall k | 0 <= k < n + 1
      ensures RoutedAs(table[k], outer, e, all[k], (all[k + 1], Ok))
    {
      if k > 0 {
        assert RoutedAs(table[1..][k - 1], outer, e, ws[k - 1], (ws[k], Ok));
      }
    }
  }

  /** All trees under one root that has nothing of its own. */
  function Root<W>(trees: seq<Router<W>>): Router<W> {
    Router([], trees, [])
  }

  /**
   Every route of the trees is visited once, own ones before children's and all in registration order, inside
   the dispatcher's middleware and that of the routers above it; the first error is the outcome.
   */
  ghost predicate Dispatched<W(!new)>(trees: seq<Router<W>>, outer: seq<Middleware<W>>, e: Event, w: W, out: (W, Result)) {
    exists table: seq<Collected<W>>, at: seq<Address>, n: nat, ws: seq<W> ::
      InOrder(Root(trees), [], table, at) && Walk(table, outer, e, w, n, ws, out)
  }

  lemma TreesDispatch<W(!new)>(trees: seq<Router<W>>, outer: seq<Middleware<W>>, e: Event, w: W)
    ensures Dispatched(trees, outer, e, w, RunTrees(trees, Outermost(outer), e, w))
  {
    var table := CollectTrees(trees, []);
    var at := InOrderAt(Root(trees), []);
    assert [] + Root(trees).middlewares == [];
    Assoc(table, [], []);
    assert CollectRoutes(Root(trees), []) == table;
    CompiledMeansTree(trees, outer, e, w);
    var n, ws := TableWalks(table, outer, e, w);
  }

  datatype Prepared<!W> = Prepared(kind: Kind, filters: seq<Filter<W>>, chain: Chain<W>)

  ghost predicate IsPrepared<W>(c: Collected<W>, outer: seq<Middleware<W>>, p: Prepared<W>) {
    p == Prepared(c.kind, c.filters, Nest(outer + c.middlewares, c.handler))
  }

  class Dispatcher<W(!new)> {
    var middlewares: seq<Middleware<W>>
    var collected: seq<Collected<W>>
    var prepared: seq<Prepared<W>>
    /** Every router included so far. */
    ghost var trees: seq<Router<W>>

    ghost predicate Valid()
      reads this
    {
      && collected == CollectTrees(trees, [])
      && |prepared| == |collected|
      && forall i | 0 <= i < |collected| :: IsPrepared(collected[i], middlewares, prepared[i])
    }

    constructor ()
      ensures Valid() && trees == [] && middlewares == []
    {
      middlewares, collected, prepared, trees := [], [], [], [];
    }

    method UseMiddleware(m: Middleware<W>)
      requires Valid()
      modifies this
      ensures Valid() && trees == old(trees) && middlewares == old(middlewares) + [m]
    {
      middlewares := middlewares + [m];
      Recompose();
    }

    method Include(router: Router<W>)
      requires Valid()
      modifies this
      ensures Valid() && trees == old(trees) + [router] && middlewares == old(middlewares)
    {
      CollectTreesAppend(trees, router, []);
      trees := trees + [router];
      collected := collected + CollectRoutes(router, []);
      Recompose();
    }

    method Recompose()
      modifies this`prepared
      ensures |prepared| == |collected|
      ensures forall i | 0 <= i < |collected| :: IsPrepared(collected[i], middlewares, prepared[i])
    {
      var table := [];
      for i := 0 to |collected|
        invariant |table| == i
        invariant forall k | 0 <= k < i :: IsPrepared(collected[k], middlewares, table[k])
      {
        var chain := Compose(collected[i].handler, middlewares + collected[i].middlewares);
        table := table + [Prepared(collected[i].kind, collected[i].filters, chain)];
      }
      prepared := table;
    }

    /**
     One event through every matching route. Whatever mix of `Include` and
     `UseMiddleware` built the table, this is the direct interpretation of the
     included trees inside all dispatcher middleware.
     */
    method Dispatch(e: Event, w: W) returns (w': W, result: Result)
      requires Valid()
      ensures (w', result) == RunTrees(trees, Outermost(middlewares), e, w)
      ensures Dispatched(trees, middlewares, e, w, (w', result))
    {
      TreesDispatch(trees, middlewares, e, w);
      CompiledMeansTree(trees, middlewares, e, w);
      w', result := w, Ok;
      for i := 0 to |prepared|
        invariant result == Ok
        invariant RunTable(collected[i..], middlewares, e, w') == RunTable(collected, middlewares, e, w)
      {
        assert collected[i..][1..] == collected[i + 1..];
        assert IsPrepared(collected[i], middlewares, prepared[i]);
        w', result := RunPrepared(prepared[i], e, w');
        if result.Err? {
          return;
        }
      }
    }
  }

  method RunPrepared<W(!new)>(route: Prepared<W>, e: Event, w: W) returns (w': W, result: Result)
    ensures (w', result) == RunRoute(route.kind, route.filters, route.chain, e, w)
    ensures Routed(route.kind, route.filters, route.chain, e, w, (w', result))
  {
    RunRouteMeans(route.kind, route.filters, route.chain, e, w);
    w' := w;
    if route.kind != e.KindOf() {
      return w', Ok;
    }
    if |route.filters| == 0 {
      var done := route.chain(w', e, EMPTY);
      return done.0, done.1;
    }
    if e.MessageOf().None? {
      return w', Ok;
    }
    var bag, rejected := EMPTY, false;
    for j := 0 to |route.filters|
      invariant !rejected
      invariant RunFilters(route.filters[j..], w', e.MessageOf().value, bag)
             == RunFilters(route.filters, w, e.MessageOf().value, EMPTY)
    {
      assert route.filters[j..][1..] == route.filters[j + 1..];
      var step := route.filters[j](w', e.MessageOf().value, bag);
      w' := step.0;
      match step.1 {
        case Fail(error) => return w', Err(error);
        case Pass(extracted) => bag := bag.Merge(extracted);
        case Reject =>
          rejected := true;
          break;
      }
    }
    if rejected {
      return w', Ok;
    }
    var done := route.chain(w', e, bag);
    return done.0, done.1;
  }

  // ---- Order of calls ------------------------------------------------------

  /** A middleware that notes its label going in and coming out, around one call of the rest. */
  function Logger(name: string): Middleware<seq<string>> {
    (log: seq<string>, e: Event, bag: Bag, next: Chain<seq<string>>) =>
      var done := next(log + [name + ":in"], e, bag);
      (done.0 + [name + ":out"], done.1)
  }

  function Loggers(labels: seq<string>): seq<Middleware<seq<string>>> {
    if labels == [] then [] else [Logger(labels[0])] + Loggers(labels[1..])
  }

  function Ins(labels: seq<string>): seq<string> {
    seq(|labels|, i requires 0 <= i < |labels| => labels[i] + ":in")
  }

  function Outs(labels: seq<string>): seq<string> {
    seq(|labels|, i requires 0 <= i < |labels| => labels[|labels| - 1 - i] + ":out")
  }

  /** Each layer runs exactly once: in from the outside, the handler, and out in reverse. */
  lemma {:induction false} OnionOrder(labels: seq<string>, handler: Chain<seq<string>>,
                                      log: seq<string>, e: Event, bag: Bag)
    ensures var done := handler(log + Ins(labels), e, bag);
            Nest(Loggers(labels), handler)(log, e, bag) == (done.0 + Outs(labels), done.1)
  {
    if labels == [] {
      Assoc(log, [], []);
      Assoc(handler(log, e, bag).0, [], []);
    } else {
      var first := [labels[0] + ":in"];
      assert Ins(labels) == first + Ins(labels[1..]) && Outs(labels) == Outs(labels[1..]) + [labels[0] + ":out"];
      OnionOrder(labels[1..], handler, log + first, e, bag);
      NestAppend([Logger(labels[0])], Loggers(labels[1..]), handler);
      Assoc(log, first, Ins(labels[1..]));
      var done := handler(log + Ins(labels), e, bag);
      Assoc(done.0, Outs(labels[1..]), [labels[0] + ":out"]);
    }
  }
}
