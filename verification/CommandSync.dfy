/**
 Application command sync of the Python bot. The commands a bot registers are grouped by scope (global
 or one guild), compared with what the server lists, and bulk-overwritten where they differ.
 */
module CommandSync {
  import opened Common
  import opened CommandOrder

  // ---- Payloads -------------------------------------------------------------

  datatype Json =
    | Null
    | Bool(flag: bool)
    | Int(n: int)
    | Text(text: string)
    | List(items: seq<Json>)
    | Object(fields: map<string, Json>)

  /** A command payload: its type, its name and every other field. */
  datatype Command = Command(kind: int, name: string, fields: map<string, Json>)

  function KeyOf(c: Command): Key {
    Key(c.kind, c.name)
  }

  /** The fields that the server adds on its own. */
  predicate ServerField(k: string) {
    || k == "id" || k == "application_id" || k == "guild_id" || k == "version"
    || k == "default_permission" || k == "name_localized" || k == "description_localized"
  }

  /** A payload without the server's fields. */
  function Normal(c: Command): (r: Command)
    ensures KeyOf(r) == KeyOf(c)
  {
    c.(fields := map k | k in c.fields && !ServerField(k) :: c.fields[k])
  }

  function Normals(s: seq<Command>): (r: seq<Command>)
    ensures |r| == |s|
    ensures forall i | 0 <= i < |s| :: r[i] == Normal(s[i])
  {
    seq(|s|, i requires 0 <= i < |s| => Normal(s[i]))
  }

  lemma NormalTwice(c: Command)
    ensures Normal(Normal(c)) == Normal(c)
  {
  }

  // ---- When a comparison sees no change -------------------------------------

  predicate Changed(current: seq<Command>, wanted: seq<Command>) {
    Sorted(Normals(current), KeyOf) != Sorted(Normals(wanted), KeyOf)
  }

  /** The same command, give or take the seven fields that the server sets on its own. */
  ghost predicate Alike(a: Command, b: Command) {
    && a.kind == b.kind && a.name == b.name
    && forall k | k !in {"id", "application_id", "guild_id", "version", "default_permission", "name_localized",
                         "description_localized"} ::
         (k in a.fields <==> k in b.fields) && (k in a.fields ==> a.fields[k] == b.fields[k])
  }

  function Without(s: seq<Command>, j: nat): (r: seq<Command>)
    requires j < |s|
    ensures |r| == |s| - 1
  {
    s[..j] + s[j + 1..]
  }

  /** The server lists what was written, in some order, each command with server fields of its own. */
  ghost predicate Lists(current: seq<Command>, written: seq<Command>)
    decreases |current|
  {
    if current == [] then written == []
    else
      var front, last := current[..|current| - 1], current[|current| - 1];
      exists j :: 0 <= j < |written| && Alike(last, written[j]) && Lists(front, Without(written, j))
  }

  lemma AlikeIffNormal(a: Command, b: Command)
    ensures Alike(a, b) <==> Normal(a) == Normal(b)
  {
    if Normal(a) == Normal(b) {
      forall k | !ServerField(k)
        ensures (k in a.fields <==> k in b.fields) && (k in a.fields ==> a.fields[k] == b.fields[k])
      {
        assert k in a.fields <==> k in Normal(a).fields;
        assert k in b.fields <==> k in Normal(b).fields;
      }
    }
  }

  lemma NormalsWithout(s: seq<Command>, j: nat)
    requires j < |s|
    ensures multiset(Normals(s)) == multiset(Normals(Without(s, j))) + multiset{Normal(s[j])}
  {
    var a, b := Normals(Without(s, j)), Normals(s);
    assert a == b[..j] + b[j + 1..];
    assert b == b[..j] + [b[j]] + b[j + 1..];
  }

  lemma Cancel(a: multiset<Command>, b: multiset<Command>, x: Command)
    ensures a + multiset{x} == b + multiset{x} <==> a == b
  {
    assert a == a + multiset{x} - multiset{x};
    assert b == b + multiset{x} - multiset{x};
  }

  lemma SameWithout(current: seq<Command>, written: seq<Command>, j: nat)
    requires current != [] && j < |written| && Normal(current[|current| - 1]) == Normal(written[j])
    ensures multiset(Normals(current)) == multiset(Normals(written)) <==>
            multiset(Normals(current[..|current| - 1])) == multiset(Normals(Without(written, j)))
  {
    NormalsWithout(written, j);
    NormalsWithout(current, |current| - 1);
    assert Without(current, |current| - 1) == current[..|current| - 1];
    Cancel(multiset(Normals(current[..|current| - 1])), multiset(Normals(Without(written, j))), Normal(written[j]));
  }

  /** A listing is told by its commands without server fields, as a bag. */
  lemma {:induction false} ListsIff(current: seq<Command>, written: seq<Command>)
    ensures Lists(current, written) <==> multiset(Normals(current)) == multiset(Normals(written))
    decreases |current|
  {
    if current == [] {
      EmptyNormals(written);
    } else {
      var front, last := current[..|current| - 1], current[|current| - 1];
      forall j | 0 <= j < |written| && Alike(last, written[j])
        ensures Lists(front, Without(written, j)) <==> multiset(Normals(current)) == multiset(Normals(written))
      {
        AlikeIffNormal(last, written[j]);
        ListsIff(front, Without(written, j));
        SameWithout(current, written, j);
      }
      if multiset(Normals(current)) == multiset(Normals(written)) {
        assert Normals(current)[|current| - 1] in multiset(Normals(written));
        var j :| 0 <= j < |Normals(written)| && Normals(written)[j] == Normal(last);
        AlikeIffNormal(last, written[j]);
      }
    }
  }

  lemma EmptyNormals(written: seq<Command>)
    ensures multiset(Normals([])) == multiset(Normals(written)) <==> written == []
  {
    assert |multiset(Normals(written))| == |written|;
    assert Normals([]) == [];
  }

  /** Two commands are taken for unchanged exactly when they are alike. */
  lemma SingleChanged(c: Command, d: Command)
    ensures Changed([c], [d]) <==> !Alike(c, d)
  {
    AlikeIffNormal(c, d);
    assert Normals([c]) == [Normal(c)] && Normals([d]) == [Normal(d)];
    SortedOne(Normal(c));
    SortedOne(Normal(d));
  }

  lemma SortedOne(c: Command)
    ensures Sorted([c], KeyOf) == [c]
  {
    assert [c][..0] == [];
  }

  /** Commands of one type and name are alike. */
  ghost predicate Unambiguous(s: seq<Command>) {
    forall i, j | 0 <= i < j < |s| && s[i].kind == s[j].kind && s[i].name == s[j].name :: Alike(s[i], s[j])
  }

  lemma UnambiguousCoheres(s: seq<Command>)
    requires Unambiguous(s)
    ensures Coherent(Normals(s), KeyOf)
  {
    var ns := Normals(s);
    forall i, j | 0 <= i < j < |s| && KeyOf(ns[i]) == KeyOf(ns[j])
      ensures ns[i] == ns[j]
    {
      AlikeIffNormal(s[i], s[j]);
    }
    forall x, y | x in ns && y in ns && KeyOf(x) == KeyOf(y)
      ensures x == y
    {
      var i :| 0 <= i < |ns| && ns[i] == x;
      var j :| 0 <= j < |ns| && ns[j] == y;
    }
  }

  lemma UnchangedLists(current: seq<Command>, wanted: seq<Command>)
    requires !Changed(current, wanted)
    ensures Lists(current, wanted)
  {
    SortIsStable(Normals(current), KeyOf);
    SortIsStable(Normals(wanted), KeyOf);
    ListsIff(current, wanted);
  }

  lemma ListsUnchanged(current: seq<Command>, wanted: seq<Command>)
    requires Lists(current, wanted) && Unambiguous(wanted)
    ensures !Changed(current, wanted)
  {
    ListsIff(current, wanted);
    UnambiguousCoheres(wanted);
    SameSorted(Normals(wanted), Normals(current));
  }

  lemma SameSorted(a: seq<Command>, b: seq<Command>)
    requires multiset(a) == multiset(b) && Coherent(a, KeyOf)
    ensures Sorted(a, KeyOf) == Sorted(b, KeyOf)
  {
    SortIsStable(a, KeyOf);
    SortIsStable(b, KeyOf);
    forall x | x in Sorted(a, KeyOf)
      ensures x in a
    {
      assert x in multiset(a);
    }
    OrderedIsUnique(Sorted(a, KeyOf), Sorted(b, KeyOf), KeyOf);
  }

  lemma FrontedLists(s: seq<Command>, m: nat)
    requires m < |s|
    ensures Lists(Fronted(s, m), s)
  {
    FrontedBag(Normals(s), m);
    NormalsFronted(s, m);
    ListsIff(Fronted(s, m), s);
  }

  lemma NormalsFronted(s: seq<Command>, m: nat)
    requires m < |s|
    ensures Normals(Fronted(s, m)) == Fronted(Normals(s), m)
  {
    var a, b := Fronted(s, m), Fronted(Normals(s), m);
    forall i | 0 <= i < |a|
      ensures Normal(a[i]) == b[i]
    {
      var j := if i == 0 then m else if i <= m then i - 1 else i;
      assert a[i] == s[j] && b[i] == Normals(s)[j];
    }
  }

  /** Of two listings, one led by each of two rival entries, the comparison tells one from `s`. */
  lemma RivalsShow(s: seq<Command>, i: nat, j: nat)
    requires i < j < |s| && KeyOf(s[i]) == KeyOf(s[j]) && Normal(s[i]) != Normal(s[j])
    ensures Changed(Fronted(s, i), s) || Changed(Fronted(s, j), s)
  {
    LedBy(s, i);
    LedBy(s, j);
  }

  /** The sorted listing keeps its leader in front of its rivals. */
  lemma LedBy(s: seq<Command>, m: nat)
    requires m < |s|
    ensures var rivals := Of(Sorted(Normals(Fronted(s, m)), KeyOf), KeyOf(s[m]), KeyOf);
            |rivals| > 0 && rivals[0] == Normal(s[m])
  {
    var a := Normals(s);
    NormalsFronted(s, m);
    SortIsStable(Fronted(a, m), KeyOf);
    FirstOf(a[m], a[..m] + a[m + 1..], KeyOf);
    Assoc([a[m]], a[..m], a[m + 1..]);
  }

  // ---- What is written ------------------------------------------------------

  datatype Mode = Replace | Merge

  /** The last entry with key `k`, without the server's fields. */
  function Latest(s: seq<Command>, k: Key): Option<Command> {
    if s == [] then None
    else if KeyOf(s[|s| - 1]) == k then Some(Normal(s[|s| - 1]))
    else Latest(s[..|s| - 1], k)
  }

  /** The keys with a name, in order of first appearance. */
  function FirstKeys(s: seq<Command>): (ks: seq<Key>)
    ensures forall k :: k in ks <==> k.name != "" && Latest(s, k).Some?
    ensures forall i, j | 0 <= i < j < |ks| :: ks[i] != ks[j]
  {
    if s == [] then [] else
      var ks, k := FirstKeys(s[..|s| - 1]), KeyOf(s[|s| - 1]);
      if k.name == "" || k in ks then ks else ks + [k]
  }

  /** One entry per named key, at its first place and with its last form. */
  function LatestForms(s: seq<Command>): (r: seq<Command>)
    ensures |r| == |FirstKeys(s)|
    ensures forall i | 0 <= i < |r| :: Some(r[i]) == Latest(s, FirstKeys(s)[i])
  {
    var ks := FirstKeys(s);
    seq(|ks|, i requires 0 <= i < |ks| => assert ks[i] in ks; Latest(s, ks[i]).value)
  }

  function Resolved(mode: Mode, current: seq<Command>, desired: seq<Command>): seq<Command> {
    if mode.Replace? then desired else LatestForms(current + desired)
  }

  /** The insertion-ordered dictionary `order`, `merged` after the entries `s`. */
  ghost predicate Tracks(order: seq<Key>, merged: map<Key, Command>, s: seq<Command>) {
    && order == FirstKeys(s)
    && (forall k :: k in merged <==> k in order)
    && (forall k | k in merged :: Some(merged[k]) == Latest(s, k))
  }

  method ResolvePayload(mode: Mode, current: seq<Command>, desired: seq<Command>) returns (r: seq<Command>)
    ensures r == Resolved(mode, current, desired)
  {
    if mode.Replace? {
      return desired;
    }
    var order, merged := PutAll([], map[], current, []);
    Assoc(current, [], []);
    order, merged := PutAll(order, merged, desired, current);
    r := Values(order, merged, current + desired);
  }

  /** One of the two merging loops: every named item replaces the entry with its key. */
  method PutAll(order: seq<Key>, merged: map<Key, Command>, items: seq<Command>, ghost s: seq<Command>)
    returns (order': seq<Key>, merged': map<Key, Command>)
    requires Tracks(order, merged, s)
    ensures Tracks(order', merged', s + items)
  {
    order', merged' := order, merged;
    assert s + items[..0] == s;
    for i := 0 to |items|
      invariant Tracks(order', merged', s + items[..i])
    {
      order', merged' := Put(order', merged', items[i], s + items[..i]);
      assert s + items[..i + 1] == s + items[..i] + [items[i]];
    }
    assert items[..|items|] == items;
  }

  /** The dictionary's values, in insertion order. */
  function Values(order: seq<Key>, merged: map<Key, Command>, ghost s: seq<Command>): (r: seq<Command>)
    requires Tracks(order, merged, s)
    ensures r == LatestForms(s)
  {
    seq(|order|, i requires 0 <= i < |order| => assert order[i] in order; merged[order[i]])
  }

  method Put(order: seq<Key>, merged: map<Key, Command>, item: Command, ghost s: seq<Command>)
    returns (order': seq<Key>, merged': map<Key, Command>)
    requires Tracks(order, merged, s)
    ensures Tracks(order', merged', s + [item])
  {
    order', merged' := order, merged;
    var normalized := Normal(item);
    var k := KeyOf(normalized);
    if k.name != "" {
      if k !in merged {
        order' := order + [k];
      }
      merged' := merged[k := normalized];
    }
    assert (s + [item])[..|s|] == s;
  }

  lemma {:induction false} LatestAppend(a: seq<Command>, b: seq<Command>, k: Key)
    ensures Latest(a + b, k) == if Latest(b, k).Some? then Latest(b, k) else Latest(a, k)
  {
    if b == [] {
      assert a + b == a;
    } else {
      assert (a + b)[..|a + b| - 1] == a + b[..|b| - 1];
      LatestAppend(a, b[..|b| - 1], k);
    }
  }

  lemma {:induction false} LatestIsListed(s: seq<Command>, k: Key) returns (i: nat)
    requires Latest(s, k).Some?
    ensures i < |s| && KeyOf(s[i]) == k && Latest(s, k) == Some(Normal(s[i]))
  {
    i := |s| - 1;
    if KeyOf(s[i]) != k {
      i := LatestIsListed(s[..|s| - 1], k);
    }
  }

  /** Where a key occurs once, its latest form is that entry. */
  lemma {:induction false} OnlyIsLatest(s: seq<Command>, i: nat)
    requires i < |s| && forall j | i < j < |s| :: KeyOf(s[j]) != KeyOf(s[i])
    ensures Latest(s, KeyOf(s[i])) == Some(Normal(s[i]))
  {
    if i < |s| - 1 {
      assert s[..|s| - 1][i] == s[i];
      OnlyIsLatest(s[..|s| - 1], i);
    }
  }

  lemma FormKey(s: seq<Command>, i: nat)
    requires i < |LatestForms(s)|
    ensures KeyOf(LatestForms(s)[i]) == FirstKeys(s)[i]
    ensures Normal(LatestForms(s)[i]) == LatestForms(s)[i]
  {
    var k := FirstKeys(s)[i];
    assert k in FirstKeys(s);
    var j := LatestIsListed(s, k);
    NormalTwice(s[j]);
  }

  // ---- What merging means ---------------------------------------------------

  /** A key names at most one entry, and no entry carries a server field. */
  ghost predicate Keyed(s: seq<Command>) {
    && (forall i, j | 0 <= i < j < |s| :: KeyOf(s[i]) != KeyOf(s[j]))
    && (forall i | 0 <= i < |s| :: Normal(s[i]) == s[i])
  }

  lemma FormsKeyed(s: seq<Command>)
    ensures Keyed(LatestForms(s))
  {
    forall i | 0 <= i < |LatestForms(s)|
      ensures KeyOf(LatestForms(s)[i]) == FirstKeys(s)[i]
      ensures Normal(LatestForms(s)[i]) == LatestForms(s)[i]
    {
      FormKey(s, i);
    }
  }

  lemma LatestOfForms(s: seq<Command>, k: Key)
    ensures Latest(LatestForms(s), k) == if k.name == "" then None else Latest(s, k)
  {
    var r, ks := LatestForms(s), FirstKeys(s);
    if Latest(r, k).Some? {
      var i := LatestIsListed(r, k);
      FormKey(s, i);
      assert k in ks;
    }
    if k in ks {
      var i :| 0 <= i < |ks| && ks[i] == k;
      FormKey(s, i);
      FormsKeyed(s);
      OnlyIsLatest(r, i);
    }
  }

  /**
   Merging keeps each named command of the server that is not desired and takes the last desired form of
   the rest: one entry per key, without the server's fields.
   */
  lemma MergeMeaning(current: seq<Command>, desired: seq<Command>, k: Key)
    ensures var r := Resolved(Merge, current, desired);
            && Keyed(r)
            && Latest(r, k) == if k.name == "" then None
                               else if Latest(desired, k).Some? then Latest(desired, k)
                               else Latest(current, k)
  {
    FormsKeyed(current + desired);
    LatestOfForms(current + desired, k);
    LatestAppend(current, desired, k);
  }

  lemma {:induction false} NoLatest(s: seq<Command>, k: Key)
    requires forall i | 0 <= i < |s| :: KeyOf(s[i]) != k
    ensures Latest(s, k) == None
  {
    if s != [] {
      NoLatest(s[..|s| - 1], k);
    }
  }

  lemma {:induction false} CountInKeyed(s: seq<Command>, x: Command)
    requires Keyed(s)
    ensures multiset(s)[x] == if Latest(s, KeyOf(x)) == Some(x) then 1 else 0
  {
    if s != [] {
      var front, y := s[..|s| - 1], s[|s| - 1];
      assert s == front + [y];
      CountInKeyed(front, x);
      NoLatest(front, KeyOf(y));
    }
  }

  lemma SameEntries(a: seq<Command>, b: seq<Command>)
    requires Keyed(a) && Keyed(b) && forall k :: Latest(a, k) == Latest(b, k)
    ensures multiset(a) == multiset(b)
  {
    forall x
      ensures multiset(a)[x] == multiset(b)[x]
    {
      CountInKeyed(a, x);
      CountInKeyed(b, x);
    }
  }

  /** A listing of keyed entries answers for every key as those entries do. */
  lemma LatestOfListing(later: seq<Command>, w: seq<Command>, k: Key)
    requires Keyed(w) && Lists(later, w)
    ensures Latest(later, k) == Latest(w, k)
  {
    if Latest(later, k).Some? {
      var i := LatestIsListed(later, k);
      var j := Listed(later, w, i);
      OnlyIsLatest(w, j);
    }
    if Latest(w, k).Some? {
      var i := LatestIsListed(w, k);
      ListsIff(later, w);
      ListsIff(w, later);
      var j := Listed(w, later, i);
      HasLatest(later, j);
    }
  }

  lemma Listed(a: seq<Command>, b: seq<Command>, i: nat) returns (j: nat)
    requires Lists(a, b) && i < |a|
    ensures j < |b| && Normal(b[j]) == Normal(a[i]) && KeyOf(b[j]) == KeyOf(a[i])
  {
    ListsIff(a, b);
    var x := Normals(a)[i];
    assert x in multiset(Normals(b));
    j :| 0 <= j < |Normals(b)| && Normals(b)[j] == x;
    assert KeyOf(Normal(b[j])) == KeyOf(Normal(a[i]));
  }

  lemma {:induction false} HasLatest(s: seq<Command>, i: nat)
    requires i < |s|
    ensures Latest(s, KeyOf(s[i])).Some?
  {
    if i < |s| - 1 {
      HasLatest(s[..|s| - 1], i);
    }
  }

  lemma KeyedUnambiguous(s: seq<Command>)
    requires Keyed(s)
    ensures Unambiguous(s)
  {
  }

  /** Listings of one another list the same. */
  lemma ListsTransfer(a: seq<Command>, b: seq<Command>, c: seq<Command>)
    requires Lists(b, c)
    ensures Lists(a, b) <==> Lists(a, c)
    ensures Lists(a, a)
  {
    ListsIff(b, c);
    ListsIff(a, b);
    ListsIff(a, c);
    ListsIff(a, a);
  }

  lemma MergeAgain(current: seq<Command>, desired: seq<Command>, later: seq<Command>)
    requires Lists(later, Resolved(Merge, current, desired))
    ensures !Changed(later, Resolved(Merge, later, desired))
  {
    var w, w' := Resolved(Merge, current, desired), Resolved(Merge, later, desired);
    forall k
      ensures Keyed(w) && Keyed(w') && Latest(w, k) == Latest(w', k)
    {
      MergeMeaning(current, desired, k);
      MergeMeaning(later, desired, k);
      LatestOfListing(later, w, k);
    }
    FormsKeyed(current + desired);
    FormsKeyed(later + desired);
    SameEntries(w, w');
    assert Normals(w) == w && Normals(w') == w';
    ListsIff(later, w);
    ListsIff(later, w');
    KeyedUnambiguous(w');
    ListsUnchanged(later, w');
  }

  // ---- A second sync of one scope -------------------------------------------

  /** What the server holds after one sync. */
  function Held(mode: Mode, current: seq<Command>, desired: seq<Command>): seq<Command> {
    var w := Resolved(mode, current, desired);
    if Changed(current, w) then w else current
  }

  lemma HeldLists(mode: Mode, current: seq<Command>, desired: seq<Command>)
    ensures Lists(Held(mode, current, desired), Resolved(mode, current, desired))
  {
    var w := Resolved(mode, current, desired);
    if !Changed(current, w) {
      UnchangedLists(current, w);
    } else {
      ListsIff(w, w);
    }
  }

  /** After replacing, the server lists exactly the desired commands. */
  lemma ReplaceReaches(current: seq<Command>, desired: seq<Command>)
    ensures Lists(Held(Replace, current, desired), desired)
  {
    HeldLists(Replace, current, desired);
  }

  /**
   After merging, the server lists every named command that is not desired as it was and every desired one in
   its last form, each key once, give or take server fields.
   */
  lemma MergeReaches(current: seq<Command>, desired: seq<Command>, k: Key)
    requires k.name != ""
    ensures Latest(Held(Merge, current, desired), k) ==
            if Latest(desired, k).Some? then Latest(desired, k) else Latest(current, k)
  {
    var w := Resolved(Merge, current, desired);
    HeldLists(Merge, current, desired);
    MergeMeaning(current, desired, k);
    LatestOfListing(Held(Merge, current, desired), w, k);
  }

  /** After a sync, whatever order the server lists its commands in, syncing again writes nothing. */
  ghost predicate Settled(mode: Mode, current: seq<Command>, desired: seq<Command>) {
    forall later | Lists(later, Held(mode, current, desired)) :: !Changed(later, Resolved(mode, later, desired))
  }

  /** Merging always settles; replacing settles exactly when no two desired commands are rivals for a key. */
  lemma Settles(mode: Mode, current: seq<Command>, desired: seq<Command>)
    ensures Settled(mode, current, desired) <==> mode.Merge? || Unambiguous(desired)
  {
    HeldLists(mode, current, desired);
    if mode.Merge? {
      forall later | Lists(later, Held(mode, current, desired))
        ensures !Changed(later, Resolved(mode, later, desired))
      {
        ListsTransfer(later, Held(mode, current, desired), Resolved(mode, current, desired));
        MergeAgain(current, desired, later);
      }
    } else if Unambiguous(desired) {
      forall later | Lists(later, Held(mode, current, desired))
        ensures !Changed(later, desired)
      {
        ListsTransfer(later, Held(mode, current, desired), desired);
        ListsUnchanged(later, desired);
      }
    } else {
      var later := RivalListing(desired);
      ListsTransfer(later, Held(mode, current, desired), desired);
      assert Lists(later, Held(mode, current, desired));
    }
  }

  lemma RivalListing(desired: seq<Command>) returns (later: seq<Command>)
    requires !Unambiguous(desired)
    ensures Lists(later, desired) && Changed(later, desired)
  {
    var i, j :| 0 <= i < j < |desired| && desired[i].kind == desired[j].kind && desired[i].name == desired[j].name
                && !Alike(desired[i], desired[j]);
    AlikeIffNormal(desired[i], desired[j]);
    RivalsShow(desired, i, j);
    FrontedLists(desired, i);
    FrontedLists(desired, j);
    later := Fronted(desired, if Changed(Fronted(desired, i), desired) then i else j);
  }

  // ---- The whole sync -------------------------------------------------------

  datatype Scope = Global | Guild(id: int)

  datatype Registered = Registered(guild: Option<int>, payload: Command)

  datatype Config = Config(mode: Mode, devGuild: Option<int>, syncGuilds: seq<int>)

  datatype Write = Write(scope: Scope, payload: seq<Command>)

  /** What each scope lists; a scope that is not here lists nothing. */
  type Server = map<Scope, seq<Command>>

  function Listing(server: Server, scope: Scope): seq<Command> {
    if scope in server then server[scope] else []
  }

  /** Where a command goes; a guild id of zero counts as none. */
  function Target(cfg: Config, r: Registered): Scope {
    var guild := if r.guild.Some? && r.guild.value != 0 then r.guild else cfg.devGuild;
    if guild.Some? then Guild(guild.value) else Global
  }

  function Visit(scopes: seq<Scope>, scope: Scope): seq<Scope> {
    if scope in scopes then scopes else scopes + [scope]
  }

  /** The scopes that are synced, global first, then guilds in order of first mention. */
  function TargetScopes(cfg: Config, registered: seq<Registered>): seq<Scope> {
    if registered == [] then [Global]
    else Visit(TargetScopes(cfg, registered[..|registered| - 1]), Target(cfg, registered[|registered| - 1]))
  }

  function WithGuilds(scopes: seq<Scope>, guilds: seq<int>): seq<Scope> {
    if guilds == [] then scopes
    else Visit(WithGuilds(scopes, guilds[..|guilds| - 1]), Guild(guilds[|guilds| - 1]))
  }

  function Scopes(cfg: Config, registered: seq<Registered>): seq<Scope> {
    WithGuilds(TargetScopes(cfg, registered), cfg.syncGuilds)
  }

  /** The payloads of the commands that go to one scope. */
  function Wanted(cfg: Config, registered: seq<Registered>, scope: Scope): seq<Command> {
    if registered == [] then []
    else
      var last := registered[|registered| - 1];
      Wanted(cfg, registered[..|registered| - 1], scope) + if Target(cfg, last) == scope then [last.payload] else []
  }

  predicate NeedsWrite(cfg: Config, registered: seq<Registered>, server: Server, scope: Scope) {
    var current := Listing(server, scope);
    Changed(current, Resolved(cfg.mode, current, Wanted(cfg, registered, scope)))
  }

  /** The overwrites of one sync over the given scopes. */
  function Writes(cfg: Config, registered: seq<Registered>, server: Server, scopes: seq<Scope>): seq<Write> {
    if scopes == [] then []
    else
      var scope := scopes[|scopes| - 1];
      Writes(cfg, registered, server, scopes[..|scopes| - 1])
      + if NeedsWrite(cfg, registered, server, scope)
        then [Write(scope, Resolved(cfg.mode, Listing(server, scope), Wanted(cfg, registered, scope)))]
        else []
  }

  /** The command is for this scope: its own guild, else the development guild, else global. */
  predicate GoesTo(cfg: Config, r: Registered, scope: Scope) {
    var own := r.guild.Some? && r.guild.value != 0;
    match scope
    case Guild(id) => if own then r.guild.value == id else cfg.devGuild == Some(id)
    case Global => !own && cfg.devGuild == None
  }

  /** `out` is the payloads of exactly the commands for this scope, in registration order. */
  ghost predicate WantedAt(cfg: Config, registered: seq<Registered>, scope: Scope, out: seq<Command>, places: seq<nat>) {
    && |places| == |out|
    && (forall i, j | 0 <= i < j < |places| :: places[i] < places[j])
    && (forall i | 0 <= i < |places| :: places[i] < |registered| && out[i] == registered[places[i]].payload)
    && (forall k: nat | k < |registered| :: k in places <==> GoesTo(cfg, registered[k], scope))
  }

  lemma {:induction false} WantedIs(cfg: Config, registered: seq<Registered>, scope: Scope) returns (places: seq<nat>)
    ensures WantedAt(cfg, registered, scope, Wanted(cfg, registered, scope), places)
  {
    places := [];
    if registered != [] {
      var front, last := registered[..|registered| - 1], registered[|registered| - 1];
      places := WantedIs(cfg, front, scope);
      if Target(cfg, last) == scope {
        WantedOne(cfg, front, last, scope, Wanted(cfg, front, scope), places);
        places := places + [|front|];
      }
      assert registered == front + [last];
      Assoc(Wanted(cfg, front, scope), [], []);
    }
  }

  lemma WantedOne(cfg: Config, rs: seq<Registered>, r: Registered, scope: Scope, out: seq<Command>, places: seq<nat>)
    requires WantedAt(cfg, rs, scope, out, places) && GoesTo(cfg, r, scope)
    ensures WantedAt(cfg, rs + [r], scope, out + [r.payload], places + [|rs|])
  {
  }

  /** Exactly the global scope, the scopes some command is for and the configured guilds are synced. */
  lemma ScopesAre(cfg: Config, registered: seq<Registered>, scope: Scope)
    ensures scope in Scopes(cfg, registered) <==>
            || scope == Global
            || (exists k :: 0 <= k < |registered| && GoesTo(cfg, registered[k], scope))
            || (scope.Guild? && scope.id in cfg.syncGuilds)
  {
    TargetsAre(cfg, registered, scope);
    GuildsAre(TargetScopes(cfg, registered), cfg.syncGuilds, scope);
  }

  lemma {:induction false} TargetsAre(cfg: Config, registered: seq<Registered>, scope: Scope)
    ensures scope in TargetScopes(cfg, registered) <==>
            scope == Global || exists k :: 0 <= k < |registered| && GoesTo(cfg, registered[k], scope)
  {
    if registered != [] {
      var n := |registered| - 1;
      TargetsAre(cfg, registered[..n], scope);
      assert Target(cfg, registered[n]) == scope <==> GoesTo(cfg, registered[n], scope);
      if scope in TargetScopes(cfg, registered[..n]) && scope != Global {
        var k :| 0 <= k < n && GoesTo(cfg, registered[..n][k], scope);
        assert GoesTo(cfg, registered[k], scope);
      }
      if k :| 0 <= k < |registered| && GoesTo(cfg, registered[k], scope) {
        if k < n {
          assert GoesTo(cfg, registered[..n][k], scope);
        }
      }
    }
  }

  lemma {:induction false} GuildsAre(scopes: seq<Scope>, guilds: seq<int>, scope: Scope)
    ensures scope in WithGuilds(scopes, guilds) <==> scope in scopes || (scope.Guild? && scope.id in guilds)
  {
    if guilds != [] {
      GuildsAre(scopes, guilds[..|guilds| - 1], scope);
      assert guilds == guilds[..|guilds| - 1] + [guilds[|guilds| - 1]];
    }
  }

  /** A scope is written, once, exactly when what it lists differs from what it is to hold. */
  ghost predicate WritesAre(cfg: Config, registered: seq<Registered>, server: Server, scopes: seq<Scope>, writes: seq<Write>) {
    && (forall i, j | 0 <= i < j < |writes| :: writes[i].scope != writes[j].scope)
    && forall w :: w in writes <==> IsDue(cfg, registered, server, scopes, w)
  }

  predicate IsDue(cfg: Config, registered: seq<Registered>, server: Server, scopes: seq<Scope>, w: Write) {
    && w.scope in scopes && Changed(Listing(server, w.scope), w.payload)
    && w.payload == Resolved(cfg.mode, Listing(server, w.scope), Wanted(cfg, registered, w.scope))
  }

  lemma {:induction false} WritesDue(cfg: Config, registered: seq<Registered>, server: Server, scopes: seq<Scope>)
    requires Distinct(scopes)
    ensures WritesAre(cfg, registered, server, scopes, Writes(cfg, registered, server, scopes))
  {
    if scopes != [] {
      var n := |scopes| - 1;
      var front, scope := scopes[..n], scopes[n];
      WritesDue(cfg, registered, server, front);
      WritesOne(cfg, registered, server, front, scope, Writes(cfg, registered, server, front));
      assert scopes == front + [scope];
      Assoc(Writes(cfg, registered, server, front), [], []);
    }
  }

  lemma WritesOne(cfg: Config, registered: seq<Registered>, server: Server, front: seq<Scope>, scope: Scope, writes: seq<Write>)
    requires scope !in front && WritesAre(cfg, registered, server, front, writes)
    ensures var w := Write(scope, Resolved(cfg.mode, Listing(server, scope), Wanted(cfg, registered, scope)));
            WritesAre(cfg, registered, server, front + [scope],
                      if NeedsWrite(cfg, registered, server, scope) then writes + [w] else writes)
  {
    var due := Write(scope, Resolved(cfg.mode, Listing(server, scope), Wanted(cfg, registered, scope)));
    var all := if NeedsWrite(cfg, registered, server, scope) then writes + [due] else writes;
    forall w
      ensures w in all <==> IsDue(cfg, registered, server, front + [scope], w)
    {
      assert w in writes <==> IsDue(cfg, registered, server, front, w);
    }
    forall i | 0 <= i < |writes|
      ensures writes[i].scope != scope
    {
      assert writes[i] in writes;
    }
  }

  lemma {:induction false} ScopesDistinct(cfg: Config, registered: seq<Registered>)
    ensures Distinct(TargetScopes(cfg, registered))
  {
    if registered != [] {
      ScopesDistinct(cfg, registered[..|registered| - 1]);
    }
  }

  ghost predicate Distinct(scopes: seq<Scope>) {
    forall i, j | 0 <= i < j < |scopes| :: scopes[i] != scopes[j]
  }

  lemma {:induction false} GuildsDistinct(scopes: seq<Scope>, guilds: seq<int>)
    requires Distinct(scopes)
    ensures Distinct(WithGuilds(scopes, guilds))
  {
    if guilds != [] {
      GuildsDistinct(scopes, guilds[..|guilds| - 1]);
    }
  }

  /** The groups `wanted`, in the order `scopes`, hold the commands of `registered`. */
  ghost predicate Grouped(scopes: seq<Scope>, wanted: map<Scope, seq<Command>>, cfg: Config, registered: seq<Registered>) {
    && (forall scope :: scope in wanted <==> scope in scopes)
    && (forall scope :: Listing(wanted, scope) == Wanted(cfg, registered, scope))
  }

  lemma GroupOne(scopes: seq<Scope>, wanted: map<Scope, seq<Command>>, cfg: Config, registered: seq<Registered>, r: Registered)
    requires Grouped(scopes, wanted, cfg, registered)
    ensures var target := Target(cfg, r);
            var wanted' := wanted[target := Listing(wanted, target) + [r.payload]];
            Grouped(Visit(scopes, target), wanted', cfg, registered + [r])
  {
    assert (registered + [r])[..|registered|] == registered;
  }

  lemma GroupNone(scopes: seq<Scope>, wanted: map<Scope, seq<Command>>, cfg: Config, registered: seq<Registered>, scope: Scope)
    requires Grouped(scopes, wanted, cfg, registered)
    ensures Grouped(Visit(scopes, scope), wanted[scope := Listing(wanted, scope)], cfg, registered)
  {
  }

  /** Every command joins the group of its target. */
  method GroupCommands(cfg: Config, registered: seq<Registered>)
    returns (scopes: seq<Scope>, wanted: map<Scope, seq<Command>>)
    ensures scopes == TargetScopes(cfg, registered)
    ensures Grouped(scopes, wanted, cfg, registered)
  {
    scopes, wanted := [Global], map[Global := []];
    for i := 0 to |registered|
      invariant scopes == TargetScopes(cfg, registered[..i])
      invariant Grouped(scopes, wanted, cfg, registered[..i])
    {
      var target := Target(cfg, registered[i]);
      GroupOne(scopes, wanted, cfg, registered[..i], registered[i]);
      NextTarget(cfg, registered, i);
      scopes := Visit(scopes, target);
      wanted := wanted[target := Listing(wanted, target) + [registered[i].payload]];
    }
    assert registered[..|registered|] == registered;
  }

  lemma NextTarget(cfg: Config, registered: seq<Registered>, i: nat)
    requires i < |registered|
    ensures registered[..i + 1] == registered[..i] + [registered[i]]
    ensures TargetScopes(cfg, registered[..i + 1])
         == Visit(TargetScopes(cfg, registered[..i]), Target(cfg, registered[i]))
  {
    assert registered[..i + 1][..i] == registered[..i];
  }

  /** Then every configured guild gets a group, empty if need be. */
  method Group(cfg: Config, registered: seq<Registered>) returns (scopes: seq<Scope>, wanted: map<Scope, seq<Command>>)
    ensures scopes == Scopes(cfg, registered)
    ensures Grouped(scopes, wanted, cfg, registered)
  {
    scopes, wanted := GroupCommands(cfg, registered);
    ghost var targets := scopes;
    for i := 0 to |cfg.syncGuilds|
      invariant scopes == WithGuilds(targets, cfg.syncGuilds[..i])
      invariant Grouped(scopes, wanted, cfg, registered)
    {
      var guild := Guild(cfg.syncGuilds[i]);
      GroupNone(scopes, wanted, cfg, registered, guild);
      NextGuild(targets, cfg.syncGuilds, i);
      scopes := Visit(scopes, guild);
      wanted := wanted[guild := Listing(wanted, guild)];
    }
    assert cfg.syncGuilds[..|cfg.syncGuilds|] == cfg.syncGuilds;
  }

  lemma NextGuild(scopes: seq<Scope>, guilds: seq<int>, i: nat)
    requires i < |guilds|
    ensures WithGuilds(scopes, guilds[..i + 1]) == Visit(WithGuilds(scopes, guilds[..i]), Guild(guilds[i]))
  {
    assert guilds[..i + 1][..i] == guilds[..i];
  }

  /** What one scope lists after a sync of the given scopes. */
  function After(cfg: Config, registered: seq<Registered>, server: Server, scopes: seq<Scope>, scope: Scope): seq<Command> {
    if scope in scopes then Held(cfg.mode, Listing(server, scope), Wanted(cfg, registered, scope))
    else Listing(server, scope)
  }

  ghost predicate Leaves(cfg: Config, registered: seq<Registered>, server: Server, scopes: seq<Scope>, server': Server) {
    forall scope :: Listing(server', scope) == After(cfg, registered, server, scopes, scope)
  }

  method SyncOnce(cfg: Config, registered: seq<Registered>, server: Server) returns (writes: seq<Write>, server': Server)
    ensures writes == Writes(cfg, registered, server, Scopes(cfg, registered))
    ensures Leaves(cfg, registered, server, Scopes(cfg, registered), server')
    ensures WritesAre(cfg, registered, server, Scopes(cfg, registered), writes)
  {
    var scopes, wanted := Group(cfg, registered);
    ScopesDistinct(cfg, registered);
    GuildsDistinct(TargetScopes(cfg, registered), cfg.syncGuilds);
    WritesDue(cfg, registered, server, scopes);
    writes, server' := SyncScopes(cfg, registered, server, scopes, wanted);
  }

  method SyncScopes(cfg: Config, ghost registered: seq<Registered>, server: Server, scopes: seq<Scope>,
                    wanted: map<Scope, seq<Command>>)
    returns (writes: seq<Write>, server': Server)
    requires Distinct(scopes) && Grouped(scopes, wanted, cfg, registered)
    ensures writes == Writes(cfg, registered, server, scopes)
    ensures Leaves(cfg, registered, server, scopes, server')
  {
    writes, server' := [], server;
    for i := 0 to |scopes|
      invariant writes == Writes(cfg, registered, server, scopes[..i])
      invariant Leaves(cfg, registered, server, scopes[..i], server')
    {
      var scope := scopes[i];
      NextScope(cfg, registered, server, scopes, i, server');
      assert Listing(wanted, scope) == Wanted(cfg, registered, scope);
      var write: Option<seq<Command>>;
      write, server' := SyncScope(cfg, registered, server, scopes[..i], scope, wanted[scope], server');
      if write.Some? {
        writes := writes + [Write(scope, write.value)];
      }
    }
    assert scopes[..|scopes|] == scopes;
  }

  lemma NextScope(cfg: Config, registered: seq<Registered>, server: Server, scopes: seq<Scope>, i: nat, server': Server)
    requires i < |scopes| && Distinct(scopes) && Leaves(cfg, registered, server, scopes[..i], server')
    ensures scopes[i] in scopes && scopes[..i + 1] == scopes[..i] + [scopes[i]]
    ensures scopes[..i + 1][..i] == scopes[..i]
    ensures scopes[i] !in scopes[..i] && Listing(server', scopes[i]) == Listing(server, scopes[i])
  {
    assert Listing(server', scopes[i]) == After(cfg, registered, server, scopes[..i], scopes[i]);
  }

  method SyncScope(cfg: Config, ghost registered: seq<Registered>, ghost server: Server, ghost before: seq<Scope>,
                   scope: Scope, desired: seq<Command>, server': Server)
    returns (write: Option<seq<Command>>, server'': Server)
    requires Leaves(cfg, registered, server, before, server') && Listing(server', scope) == Listing(server, scope)
    requires desired == Wanted(cfg, registered, scope)
    ensures write.Some? <==> NeedsWrite(cfg, registered, server, scope)
    ensures write.Some? ==> write.value == Resolved(cfg.mode, Listing(server, scope), desired)
    ensures Leaves(cfg, registered, server, before + [scope], server'')
  {
    AfterStep(cfg, registered, server, before, scope);
    var current := Listing(server', scope);
    var payload := ResolvePayload(cfg.mode, current, desired);
    write, server'' := None, server';
    if Changed(current, payload) {
      write, server'' := Some(payload), server'[scope := payload];
    }
  }

  lemma AfterStep(cfg: Config, registered: seq<Registered>, server: Server, before: seq<Scope>, scope: Scope)
    ensures forall s :: After(cfg, registered, server, before + [scope], s) ==
                        if s == scope then Held(cfg.mode, Listing(server, scope), Wanted(cfg, registered, scope))
                        else After(cfg, registered, server, before, s)
  {
  }

  // ---- A second sync writes nothing -----------------------------------------

  lemma {:induction false} NoWrites(cfg: Config, registered: seq<Registered>, server: Server, scopes: seq<Scope>)
    ensures Writes(cfg, registered, server, scopes) == []
            <==> forall scope | scope in scopes :: !NeedsWrite(cfg, registered, server, scope)
  {
    if scopes != [] {
      assert scopes == scopes[..|scopes| - 1] + [scopes[|scopes| - 1]];
      NoWrites(cfg, registered, server, scopes[..|scopes| - 1]);
    }
  }

  /** Later the server lists in every scope what the sync left there, in some order. */
  ghost predicate Echoes(cfg: Config, registered: seq<Registered>, server: Server, later: Server) {
    forall scope | scope in Scopes(cfg, registered) ::
      Lists(Listing(later, scope), Held(cfg.mode, Listing(server, scope), Wanted(cfg, registered, scope)))
  }

  /** Syncing again writes nothing, whatever the server held before and however it lists its commands now. */
  ghost predicate Converges(cfg: Config, registered: seq<Registered>, server: Server) {
    forall later | Echoes(cfg, registered, server, later) ::
      Writes(cfg, registered, later, Scopes(cfg, registered)) == []
  }

  lemma SyncConverges(cfg: Config, registered: seq<Registered>, server: Server)
    ensures Converges(cfg, registered, server) <==>
            cfg.mode.Merge? || forall scope | scope in Scopes(cfg, registered) :: Unambiguous(Wanted(cfg, registered, scope))
  {
    var scopes := Scopes(cfg, registered);
    if cfg.mode.Merge? || forall scope | scope in scopes :: Unambiguous(Wanted(cfg, registered, scope)) {
      forall later | Echoes(cfg, registered, server, later)
        ensures Writes(cfg, registered, later, scopes) == []
      {
        forall scope | scope in scopes
          ensures !NeedsWrite(cfg, registered, later, scope)
        {
          Settles(cfg.mode, Listing(server, scope), Wanted(cfg, registered, scope));
        }
        NoWrites(cfg, registered, later, scopes);
      }
    } else {
      var scope :| scope in scopes && !Unambiguous(Wanted(cfg, registered, scope));
      var later := RivalServer(cfg, registered, server, scope);
      NoWrites(cfg, registered, later, scopes);
    }
  }

  /** What one sync leaves in each of its scopes. */
  lemma HeldServer(cfg: Config, registered: seq<Registered>, server: Server) returns (held: Server)
    ensures forall s | s in Scopes(cfg, registered) ::
              Listing(held, s) == Held(cfg.mode, Listing(server, s), Wanted(cfg, registered, s))
  {
    held := map s | s in Scopes(cfg, registered) :: Held(cfg.mode, Listing(server, s), Wanted(cfg, registered, s));
  }

  /** A server that shows the rivals of one scope in another order. */
  lemma RivalServer(cfg: Config, registered: seq<Registered>, server: Server, scope: Scope) returns (later: Server)
    requires cfg.mode.Replace? && !Unambiguous(Wanted(cfg, registered, scope))
    ensures Echoes(cfg, registered, server, later) && NeedsWrite(cfg, registered, later, scope)
  {
    var desired, current := Wanted(cfg, registered, scope), Listing(server, scope);
    var listing := RivalListing(desired);
    HeldLists(cfg.mode, current, desired);
    ListsTransfer(listing, Held(cfg.mode, current, desired), desired);
    var held := HeldServer(cfg, registered, server);
    later := held[scope := listing];
    RivalEchoes(cfg, registered, server, held, scope, listing);
  }

  lemma RivalEchoes(cfg: Config, registered: seq<Registered>, server: Server, held: Server, scope: Scope, listing: seq<Command>)
    requires forall s | s in Scopes(cfg, registered) ::
               Listing(held, s) == Held(cfg.mode, Listing(server, s), Wanted(cfg, registered, s))
    requires Lists(listing, Held(cfg.mode, Listing(server, scope), Wanted(cfg, registered, scope)))
    ensures Echoes(cfg, registered, server, held[scope := listing])
  {
    forall s | s in Scopes(cfg, registered)
      ensures Lists(Listing(held[scope := listing], s), Held(cfg.mode, Listing(server, s), Wanted(cfg, registered, s)))
    {
      ListsIff(Listing(held, s), Listing(held, s));
    }
  }
}
