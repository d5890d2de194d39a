/**
 Message filters, extraction bags and their combinators. Filters and handlers are
 closures that may touch outside state; that state is threaded through as `W`.
 */
module Filters {
  import opened Common

  type Message = nat
  type Error = nat

  /** Extracted values, by type and by name; the later value wins. */
  datatype Bag = Bag(byType: map<nat, nat>, byName: map<string, nat>) {
    function Merge(other: Bag): (r: Bag)
      ensures Overrides(byType, other.byType, r.byType) && Overrides(byName, other.byName, r.byName)
    {
      Bag(byType + other.byType, byName + other.byName)
    }
  }

  /** `both` has every key of the two maps, and the later map's value where both have one. */
  ghost predicate Overrides<K(!new), V>(earlier: map<K, V>, later: map<K, V>, both: map<K, V>) {
    forall k ::
      && (k in both <==> k in earlier || k in later)
      && (k in later ==> both[k] == later[k])
      && (k in earlier && k !in later ==> both[k] == earlier[k])
  }

  const EMPTY := Bag(map[], map[])

  datatype Outcome = Pass(bag: Bag) | Reject | Fail(error: Error)

  type Filter<!W> = (W, Message, Bag) -> (W, Outcome)

  lemma MergeAssoc(a: Bag, b: Bag, c: Bag)
    ensures a.Merge(b).Merge(c) == a.Merge(b.Merge(c))
    ensures a.Merge(EMPTY) == a && EMPTY.Merge(a) == a
  {
    MapAssoc(a.byType, b.byType, c.byType);
    MapAssoc(a.byName, b.byName, c.byName);
  }

  lemma MapAssoc<K, V>(a: map<K, V>, b: map<K, V>, c: map<K, V>)
    ensures (a + b) + c == a + (b + c)
    ensures a + map[] == a && map[] + a == a
  {
  }

  function And<W>(left: Filter<W>, right: Filter<W>): Filter<W> {
    (w: W, m: Message, bag: Bag) =>
      var (w1, l) := left(w, m, bag);
      if !l.Pass? then (w1, l)
      else
        var (w2, r) := right(w1, m, bag.Merge(l.bag));
        (w2, if r.Pass? then Pass(l.bag.Merge(r.bag)) else r)
  }

  function Or<W>(left: Filter<W>, right: Filter<W>): Filter<W> {
    (w: W, m: Message, bag: Bag) =>
      var (w1, l) := left(w, m, bag);
      if l.Reject? then right(w1, m, bag) else (w1, l)
  }

  function Not<W>(filter: Filter<W>): Filter<W> {
    (w: W, m: Message, bag: Bag) =>
      var (w1, o) := filter(w, m, bag);
      (w1, match o
           case Pass(_) => Reject
           case Reject => Pass(EMPTY)
           case Fail(e) => Fail(e))
  }

  /**
   A route's filter list: each filter sees what the earlier ones extracted, and the
   first rejection or error ends the run. `Pass` carries the bag the handler gets.
   */
  function RunFilters<W>(filters: seq<Filter<W>>, w: W, m: Message, bag: Bag): (W, Outcome) {
    if |filters| == 0 then (w, Pass(bag))
    else
      var (w1, o) := filters[0](w, m, bag);
      if o.Pass? then RunFilters(filters[1..], w1, m, bag.Merge(o.bag)) else (w1, o)
  }

  /**
   The first `n` filters pass one after the other: filter `k` runs in state `ws[k]` and sees the bag `bags[k]`,
   into which everything extracted before it is merged.
   */
  ghost predicate Passing<W>(filters: seq<Filter<W>>, m: Message, n: nat, ws: seq<W>, bags: seq<Bag>) {
    && n <= |filters| && |ws| == n + 1 && |bags| == n + 1
    && forall k | 0 <= k < n :: PassesOn(filters[k](ws[k], m, bags[k]), bags[k], ws[k + 1], bags[k + 1])
  }

  ghost predicate PassesOn<W>(answer: (W, Outcome), bag: Bag, w': W, bag': Bag) {
    answer.0 == w' && answer.1.Pass? && bag' == bag.Merge(answer.1.bag)
  }

  /** What the filter after the passing ones answers. */
  ghost function Verdict<W>(filters: seq<Filter<W>>, m: Message, n: nat, ws: seq<W>, bags: seq<Bag>): (W, Outcome)
    requires n < |filters| && |ws| == n + 1 && |bags| == n + 1
  {
    filters[n](ws[n], m, bags[n])
  }

  lemma {:induction false} SkipPassing<W>(filters: seq<Filter<W>>, m: Message, n: nat, ws: seq<W>, bags: seq<Bag>)
    requires Passing(filters, m, n, ws, bags)
    ensures RunFilters(filters, ws[0], m, bags[0]) == RunFilters(filters[n..], ws[n], m, bags[n])
  {
    if n == 0 {
      assert filters[0..] == filters;
    } else {
      assert PassesOn(filters[n - 1](ws[n - 1], m, bags[n - 1]), bags[n - 1], ws[n], bags[n]);
      SkipPassing(filters, m, n - 1, ws[..n], bags[..n]);
      assert filters[n - 1..][0] == filters[n - 1] && filters[n - 1..][1..] == filters[n..];
    }
  }

  /** The filter list passes with the bag all of them filled, or gives the first other verdict. */
  lemma RunFiltersMeans<W>(filters: seq<Filter<W>>, m: Message, n: nat, ws: seq<W>, bags: seq<Bag>)
    requires Passing(filters, m, n, ws, bags)
    ensures n == |filters| ==> RunFilters(filters, ws[0], m, bags[0]) == (ws[n], Pass(bags[n]))
    ensures n < |filters| && !Verdict(filters, m, n, ws, bags).1.Pass? ==>
              RunFilters(filters, ws[0], m, bags[0]) == Verdict(filters, m, n, ws, bags)
  {
    SkipPassing(filters, m, n, ws, bags);
    if n < |filters| {
      assert filters[n..][0] == filters[n];
    }
  }

  /** Some filter stops the list, or all pass. */
  lemma {:induction false} FiltersStop<W>(filters: seq<Filter<W>>, m: Message, n: nat, ws: seq<W>, bags: seq<Bag>)
    returns (k: nat, ws': seq<W>, bags': seq<Bag>)
    requires Passing(filters, m, n, ws, bags)
    ensures Passing(filters, m, k, ws', bags') && ws'[0] == ws[0] && bags'[0] == bags[0]
    ensures k == |filters| || !Verdict(filters, m, k, ws', bags').1.Pass?
    decreases |filters| - n
  {
    k, ws', bags' := n, ws, bags;
    if n < |filters| && Verdict(filters, m, n, ws, bags).1.Pass? {
      var (w, o) := Verdict(filters, m, n, ws, bags);
      assert PassesOn(filters[n](ws[n], m, bags[n]), bags[n], w, bags[n].Merge(o.bag));
      k, ws', bags' := FiltersStop(filters, m, n + 1, ws + [w], bags + [bags[n].Merge(o.bag)]);
    }
  }

  lemma {:induction false} RunFiltersAppend<W>(a: seq<Filter<W>>, b: seq<Filter<W>>, w: W, m: Message, bag: Bag)
    ensures var (w1, o) := RunFilters(a, w, m, bag);
            RunFilters(a + b, w, m, bag) == if o.Pass? then RunFilters(b, w1, m, o.bag) else (w1, o)
  {
    if |a| == 0 {
      assert a + b == b;
    } else {
      var (w1, o) := a[0](w, m, bag);
      assert (a + b)[0] == a[0] && (a + b)[1..] == a[1..] + b;
      if o.Pass? {
        RunFiltersAppend(a[1..], b, w1, m, bag.Merge(o.bag));
      }
    }
  }

  /** Any way of bracketing a list of filters with `And`. */
  datatype Bracketing<!W> = One(filter: Filter<W>) | Both(left: Bracketing<W>, right: Bracketing<W>)

  function Fuse<W>(t: Bracketing<W>): Filter<W> {
    match t
    case One(f) => f
    case Both(l, r) => And(Fuse(l), Fuse(r))
  }

  function Leaves<W>(t: Bracketing<W>): seq<Filter<W>> {
    match t
    case One(f) => [f]
    case Both(l, r) => Leaves(l) + Leaves(r)
  }

  /** One fused filter does to the bag what its leaves do one after the other. */
  lemma {:induction false} FuseOne<W>(t: Bracketing<W>, w: W, m: Message, bag: Bag)
    ensures var (w1, o) := Fuse(t)(w, m, bag);
            RunFilters(Leaves(t), w, m, bag) == (w1, if o.Pass? then Pass(bag.Merge(o.bag)) else o)
  {
    match t
    case One(f) =>
      assert [f][1..] == [];
    case Both(l, r) =>
      FuseOne(l, w, m, bag);
      RunFiltersAppend(Leaves(l), Leaves(r), w, m, bag);
      var (w1, o1) := Fuse(l)(w, m, bag);
      if o1.Pass? {
        FuseOne(r, w1, m, bag.Merge(o1.bag));
        var (w2, o2) := Fuse(r)(w1, m, bag.Merge(o1.bag));
        if o2.Pass? {
          MergeAssoc(bag, o1.bag, o2.bag);
        }
      }
  }

  function FuseAll<W>(ts: seq<Bracketing<W>>): seq<Filter<W>> {
    if |ts| == 0 then [] else [Fuse(ts[0])] + FuseAll(ts[1..])
  }

  function AllLeaves<W>(ts: seq<Bracketing<W>>): seq<Filter<W>> {
    if |ts| == 0 then [] else Leaves(ts[0]) + AllLeaves(ts[1..])
  }

  /** Replacing runs of filters by any bracketings changes neither outcome, error nor final bag. */
  lemma {:induction false} Fusion<W>(ts: seq<Bracketing<W>>, w: W, m: Message, bag: Bag)
    ensures RunFilters(FuseAll(ts), w, m, bag) == RunFilters(AllLeaves(ts), w, m, bag)
  {
    if |ts| > 0 {
      FuseOne(ts[0], w, m, bag);
      RunFiltersAppend(Leaves(ts[0]), AllLeaves(ts[1..]), w, m, bag);
      var (w1, o) := Fuse(ts[0])(w, m, bag);
      if o.Pass? {
        Fusion(ts[1..], w1, m, bag.Merge(o.bag));
      }
    }
  }

  /** The first filter that passes decides; an error before it ends the search. */
  function FirstPassing<W>(filters: seq<Filter<W>>, w: W, m: Message, bag: Bag): (W, Outcome) {
    if |filters| == 0 then (w, Reject)
    else
      var (w1, o) := filters[0](w, m, bag);
      if o.Reject? then FirstPassing(filters[1..], w1, m, bag) else (w1, o)
  }

  /** The `any = [...]` form: a left fold of `Or`. */
  method AnyOf<W>(filters: seq<Filter<W>>) returns (any: Filter<W>)
    requires |filters| > 0
    ensures any == OrFold(filters)
  {
    any := filters[0];
    for i := 1 to |filters|
      invariant any == OrFold(filters[..i])
    {
      any := Or(any, filters[i]);
      assert filters[..i + 1][..i] == filters[..i];
    }
    assert filters[..|filters|] == filters;
  }

  function OrFold<W>(filters: seq<Filter<W>>): Filter<W>
    requires |filters| > 0
  {
    if |filters| == 1 then filters[0] else Or(OrFold(filters[..|filters| - 1]), filters[|filters| - 1])
  }

  lemma {:induction false} FirstPassingAppend<W>(a: seq<Filter<W>>, f: Filter<W>, w: W, m: Message, bag: Bag)
    ensures var (w1, o) := FirstPassing(a, w, m, bag);
            FirstPassing(a + [f], w, m, bag) == if o.Reject? then f(w1, m, bag) else (w1, o)
  {
    if |a| == 0 {
      assert a + [f] == [f] && [f][1..] == [];
    } else {
      var (w1, o) := a[0](w, m, bag);
      assert (a + [f])[0] == a[0] && (a + [f])[1..] == a[1..] + [f];
      if o.Reject? {
        FirstPassingAppend(a[1..], f, w1, m, bag);
      }
    }
  }

  /** The fold tries the filters in order and keeps the first passing one's own bag. */
  lemma {:induction false} OrFoldIsFirst<W>(filters: seq<Filter<W>>, w: W, m: Message, bag: Bag)
    requires |filters| > 0
    ensures OrFold(filters)(w, m, bag) == FirstPassing(filters, w, m, bag)
  {
    var front, last := filters[..|filters| - 1], filters[|filters| - 1];
    assert filters == front + [last];
    if |filters| > 1 {
      OrFoldIsFirst(front, w, m, bag);
    }
    FirstPassingAppend(front, last, w, m, bag);
  }

  /** The first `n` filters reject, each in the state the one before left and all with the same bag. */
  ghost predicate Rejecting<W>(filters: seq<Filter<W>>, m: Message, bag: Bag, n: nat, ws: seq<W>) {
    && n <= |filters| && |ws| == n + 1
    && forall k | 0 <= k < n :: filters[k](ws[k], m, bag) == (ws[k + 1], Reject)
  }

  /** The fold rejects when all do; else the first that does not reject answers, with its own bag or error. */
  lemma {:induction false} OrFoldMeans<W>(filters: seq<Filter<W>>, m: Message, bag: Bag, n: nat, ws: seq<W>)
    requires |filters| > 0 && Rejecting(filters, m, bag, n, ws)
    ensures n == |filters| ==> OrFold(filters)(ws[0], m, bag) == (ws[n], Reject)
    ensures n < |filters| && !filters[n](ws[n], m, bag).1.Reject? ==>
              OrFold(filters)(ws[0], m, bag) == filters[n](ws[n], m, bag)
  {
    var front := filters[..|filters| - 1];
    if |filters| > 1 {
      if n < |filters| {
        OrFoldMeans(front, m, bag, n, ws);
      } else {
        OrFoldMeans(front, m, bag, n - 1, ws[..n]);
      }
    }
  }

  /** Negating twice keeps verdict, error and effects and empties the bag. */
  lemma DoubleNegation<W>(f: Filter<W>, w: W, m: Message, bag: Bag)
    ensures var (w1, o) := f(w, m, bag);
            Not(Not(f))(w, m, bag) == (w1, if o.Pass? then Pass(EMPTY) else o)
  {
    var (w1, o) := f(w, m, bag);
    assert Not(f)(w, m, bag) == (w1, if o.Pass? then Reject else if o.Reject? then Pass(EMPTY) else o);
  }

  /** No filter of a list passing is the same as every negation passing, state and bag included. */
  lemma DeMorgan<W>(f: Filter<W>, g: Filter<W>, w: W, m: Message, bag: Bag)
    ensures Not(Or(f, g))(w, m, bag) == And(Not(f), Not(g))(w, m, bag)
  {
    MergeAssoc(bag, EMPTY, EMPTY);
  }
}
