/**
 Command keys, the order Python gives them (type first, then the name by code points) and the stable
 sort by key.
 */
module CommandOrder {

  datatype Key = Key(kind: int, name: string)

  // ---- The order of keys ----------------------------------------------------

  predicate TextAtMost(a: string, b: string) {
    a == "" || (b != "" && (a[0] < b[0] || (a[0] == b[0] && TextAtMost(a[1..], b[1..]))))
  }

  predicate AtMost(a: Key, b: Key) {
    a.kind < b.kind || (a.kind == b.kind && TextAtMost(a.name, b.name))
  }

  lemma {:induction false} TextTotal(a: string, b: string)
    ensures TextAtMost(a, b) || TextAtMost(b, a)
    ensures TextAtMost(a, b) && TextAtMost(b, a) ==> a == b
  {
    if a != "" && b != "" {
      TextTotal(a[1..], b[1..]);
      assert a == [a[0]] + a[1..] && b == [b[0]] + b[1..];
    }
  }

  lemma {:induction false} TextTransitive(a: string, b: string, c: string)
    requires TextAtMost(a, b) && TextAtMost(b, c)
    ensures TextAtMost(a, c)
  {
    if a != "" && a[0] == b[0] && b[0] == c[0] {
      TextTransitive(a[1..], b[1..], c[1..]);
    }
  }

  lemma KeysTotal(a: Key, b: Key)
    ensures AtMost(a, b) || AtMost(b, a)
    ensures AtMost(a, b) && AtMost(b, a) ==> a == b
  {
    TextTotal(a.name, b.name);
  }

  lemma KeysTransitive(a: Key, b: Key, c: Key)
    requires AtMost(a, b) && AtMost(b, c)
    ensures AtMost(a, c)
  {
    if a.kind == b.kind == c.kind {
      TextTransitive(a.name, b.name, c.name);
    }
  }

  // ---- The stable sort by key -----------------------------------------------

  function Place<T>(s: seq<T>, x: T, key: T -> Key): seq<T> {
    if s == [] || AtMost(key(s[|s| - 1]), key(x)) then s + [x]
    else Place(s[..|s| - 1], x, key) + [s[|s| - 1]]
  }

  function Sorted<T>(s: seq<T>, key: T -> Key): seq<T> {
    if s == [] then [] else Place(Sorted(s[..|s| - 1], key), s[|s| - 1], key)
  }

  /** The entries with one key, in order. */
  function Of<T>(s: seq<T>, k: Key, key: T -> Key): seq<T> {
    if s == [] then []
    else Of(s[..|s| - 1], k, key) + if key(s[|s| - 1]) == k then [s[|s| - 1]] else []
  }

  ghost predicate Ordered<T>(s: seq<T>, key: T -> Key) {
    forall i, j | 0 <= i < j < |s| :: AtMost(key(s[i]), key(s[j]))
  }

  lemma OfSnoc<T>(s: seq<T>, x: T, k: Key, key: T -> Key)
    ensures Of(s + [x], k, key) == Of(s, k, key) + if key(x) == k then [x] else []
  {
    assert (s + [x])[..|s|] == s;
  }

  lemma {:induction false} PlaceKeeps<T>(s: seq<T>, x: T, k: Key, key: T -> Key)
    ensures Of(Place(s, x, key), k, key) == Of(s + [x], k, key)
    ensures multiset(Place(s, x, key)) == multiset(s) + multiset{x}
  {
    if s != [] && !AtMost(key(s[|s| - 1]), key(x)) {
      var front, y := s[..|s| - 1], s[|s| - 1];
      PlaceKeeps(front, x, k, key);
      KeysTotal(key(y), key(x));
      OfSnoc(Place(front, x, key), y, k, key);
      OfSnoc(front, x, k, key);
      OfSnoc(s, x, k, key);
      assert s == front + [y];
    }
  }

  lemma {:induction false} PlaceOrders<T>(s: seq<T>, x: T, key: T -> Key)
    requires Ordered(s, key)
    ensures Ordered(Place(s, x, key), key)
  {
    if s != [] {
      var front, y := s[..|s| - 1], s[|s| - 1];
      if AtMost(key(y), key(x)) {
        AppendOrders(s, x, key);
      } else {
        PlaceOrders(front, x, key);
        KeysTotal(key(y), key(x));
        PlaceKeeps(front, x, key(x), key);
        forall c | c in Place(front, x, key)
          ensures AtMost(key(c), key(y))
        {
          assert c in multiset(Place(front, x, key));
        }
        AppendMost(Place(front, x, key), y, key);
      }
    }
  }

  lemma AppendOrders<T>(s: seq<T>, x: T, key: T -> Key)
    requires Ordered(s, key) && s != [] && AtMost(key(s[|s| - 1]), key(x))
    ensures Ordered(s + [x], key)
  {
    forall c | c in s
      ensures AtMost(key(c), key(x))
    {
      var i :| 0 <= i < |s| && s[i] == c;
      if i < |s| - 1 {
        KeysTransitive(key(c), key(s[|s| - 1]), key(x));
      }
    }
    AppendMost(s, x, key);
  }

  lemma AppendMost<T>(s: seq<T>, x: T, key: T -> Key)
    requires Ordered(s, key) && forall c | c in s :: AtMost(key(c), key(x))
    ensures Ordered(s + [x], key)
  {
  }

  /** The sort orders by key, loses nothing and keeps entries with one key as they came. */
  lemma {:induction false} SortIsStable<T>(s: seq<T>, key: T -> Key)
    ensures Ordered(Sorted(s, key), key) && multiset(Sorted(s, key)) == multiset(s)
    ensures forall k :: Of(Sorted(s, key), k, key) == Of(s, k, key)
  {
    if s != [] {
      var front, x := s[..|s| - 1], s[|s| - 1];
      SortIsStable(front, key);
      PlaceOrders(Sorted(front, key), x, key);
      assert s == front + [x];
      forall k
        ensures multiset(Sorted(s, key)) == multiset(s) && Of(Sorted(s, key), k, key) == Of(s, k, key)
      {
        PlaceKeeps(Sorted(front, key), x, k, key);
        OfSnoc(Sorted(front, key), x, k, key);
      }
      PlaceKeeps(Sorted(front, key), x, key(x), key);
    }
  }

  ghost predicate Coherent<T>(s: seq<T>, key: T -> Key) {
    forall x, y | x in s && y in s && key(x) == key(y) :: x == y
  }

  /** Two ordered lists of the same entries are the same list when a key names one entry. */
  lemma {:induction false} OrderedIsUnique<T>(a: seq<T>, b: seq<T>, key: T -> Key)
    requires Ordered(a, key) && Ordered(b, key) && multiset(a) == multiset(b) && Coherent(a, key)
    ensures a == b
  {
    assert |a| == |multiset(a)| == |multiset(b)| == |b|;
    if a != [] {
      SameLast(a, b, key);
      SameFront(a, b, key);
      OrderedIsUnique(a[..|a| - 1], b[..|a| - 1], key);
      assert a == a[..|a| - 1] + [a[|a| - 1]];
      assert b == b[..|a| - 1] + [b[|a| - 1]];
    }
  }

  lemma SameFront<T>(a: seq<T>, b: seq<T>, key: T -> Key)
    requires Ordered(a, key) && Ordered(b, key) && multiset(a) == multiset(b) && Coherent(a, key)
    requires |a| == |b| > 0 && a[|a| - 1] == b[|b| - 1]
    ensures var front, front' := a[..|a| - 1], b[..|a| - 1];
            && multiset(front) == multiset(front')
            && Ordered(front, key) && Ordered(front', key) && Coherent(front, key)
  {
    FrontBag(a);
    FrontBag(b);
  }

  lemma FrontBag<T>(s: seq<T>)
    requires s != []
    ensures multiset(s[..|s| - 1]) == multiset(s) - multiset{s[|s| - 1]}
    ensures forall x | x in s[..|s| - 1] :: x in s
  {
    assert s == s[..|s| - 1] + [s[|s| - 1]];
  }

  lemma SameLast<T>(a: seq<T>, b: seq<T>, key: T -> Key)
    requires Ordered(a, key) && Ordered(b, key) && multiset(a) == multiset(b) && Coherent(a, key)
    requires |a| == |b| > 0
    ensures a[|a| - 1] == b[|b| - 1]
  {
    var x, y := a[|a| - 1], b[|b| - 1];
    assert x in multiset(b) && y in multiset(a);
    LastIsMost(a, y, key);
    LastIsMost(b, x, key);
    KeysTotal(key(x), key(y));
  }

  lemma LastIsMost<T>(s: seq<T>, x: T, key: T -> Key)
    requires Ordered(s, key) && x in s
    ensures AtMost(key(x), key(s[|s| - 1]))
  {
    KeysTotal(key(x), key(x));
    var i :| 0 <= i < |s| && s[i] == x;
  }

  /** The listing in which entry `m` comes first. */
  function Fronted<T>(s: seq<T>, m: nat): seq<T>
    requires m < |s|
  {
    [s[m]] + s[..m] + s[m + 1..]
  }

  lemma FrontedBag<T>(s: seq<T>, m: nat)
    requires m < |s|
    ensures multiset(Fronted(s, m)) == multiset(s)
  {
    assert s == s[..m] + [s[m]] + s[m + 1..];
  }

  lemma {:induction false} FirstOf<T>(x: T, s: seq<T>, key: T -> Key)
    ensures |Of([x] + s, key(x), key)| > 0 && Of([x] + s, key(x), key)[0] == x
  {
    if s == [] {
      assert [x] + s == [] + [x];
      OfSnoc([], x, key(x), key);
    } else {
      var front, y := s[..|s| - 1], s[|s| - 1];
      FirstOf(x, front, key);
      OfSnoc([x] + front, y, key(x), key);
      assert [x] + s == [x] + front + [y];
    }
  }
}
