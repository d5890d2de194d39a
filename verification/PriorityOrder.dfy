/**
 Registration order of prioritised entries. The Python router appends each new
 handler, filter or middleware and re-sorts the whole list by descending
 priority with a stable sort.
 */
module PriorityOrder {
  import opened Common

  /** Puts `x` behind every entry of at least its priority. */
  function Insert<T>(s: seq<T>, x: T, p: T -> int): seq<T> {
    if s == [] then [x]
    else if p(s[|s| - 1]) >= p(x) then s + [x]
    else Insert(s[..|s| - 1], x, p) + [s[|s| - 1]]
  }

  /** The stable sort by descending priority. */
  function SortDesc<T>(s: seq<T>, p: T -> int): seq<T> {
    if s == [] then [] else Insert(SortDesc(s[..|s| - 1], p), s[|s| - 1], p)
  }

  /** What one registration does to an already registered list. */
  function Register<T>(s: seq<T>, x: T, p: T -> int): seq<T> {
    SortDesc(s + [x], p)
  }

  /** The list after registering a whole history one entry at a time. */
  function RegisterAll<T>(history: seq<T>, p: T -> int): seq<T> {
    if history == [] then []
    else Register(RegisterAll(history[..|history| - 1], p), history[|history| - 1], p)
  }

  ghost predicate Descending<T>(s: seq<T>, p: T -> int) {
    forall i, j | 0 <= i < j < |s| :: p(s[i]) >= p(s[j])
  }

  /**
   `perm[k]` is the registration number of the entry at place `k`: entries come
   by descending priority and, at equal priority, in registration order.
   */
  ghost predicate StableOrder<T>(history: seq<T>, out: seq<T>, perm: seq<nat>, p: T -> int) {
    && |out| == |perm| == |history|
    && (forall k | 0 <= k < |perm| :: perm[k] < |history| && out[k] == history[perm[k]])
    && (forall i, j | 0 <= i < j < |perm| :: Before(history, perm[i], perm[j], p))
  }

  ghost predicate Before<T>(history: seq<T>, a: nat, b: nat, p: T -> int)
    requires a < |history| && b < |history|
  {
    p(history[a]) > p(history[b]) || (p(history[a]) == p(history[b]) && a < b)
  }

  /** Inserting into a descending list splits it at one place. */
  lemma {:induction false} InsertSplits<T>(s: seq<T>, x: T, p: T -> int) returns (k: nat)
    requires Descending(s, p)
    ensures k <= |s| && Insert(s, x, p) == s[..k] + [x] + s[k..]
    ensures forall i | 0 <= i < k :: p(s[i]) >= p(x)
    ensures forall i | k <= i < |s| :: p(s[i]) < p(x)
    ensures Descending(Insert(s, x, p), p)
  {
    if s == [] || p(s[|s| - 1]) >= p(x) {
      k := |s|;
      assert s[..k] == s && s[k..] == [];
    } else {
      var front, last := s[..|s| - 1], s[|s| - 1];
      k := InsertSplits(front, x, p);
      assert s[..k] == front[..k] && s[k..] == front[k..] + [last];
      Assoc(front[..k] + [x], front[k..], [last]);
    }
    SplitDescends(s, x, k, p);
  }

  lemma SplitDescends<T>(s: seq<T>, x: T, k: nat, p: T -> int)
    requires Descending(s, p) && k <= |s|
    requires forall i | 0 <= i < k :: p(s[i]) >= p(x)
    requires forall i | k <= i < |s| :: p(s[i]) < p(x)
    ensures Descending(s[..k] + [x] + s[k..], p)
  {
  }

  lemma {:induction false} SortDescends<T>(s: seq<T>, p: T -> int)
    ensures Descending(SortDesc(s, p), p)
  {
    if s != [] {
      SortDescends(s[..|s| - 1], p);
      var _ := InsertSplits(SortDesc(s[..|s| - 1], p), s[|s| - 1], p);
    }
  }

  lemma {:induction false} SortIsStable<T>(s: seq<T>, p: T -> int) returns (perm: seq<nat>)
    ensures StableOrder(s, SortDesc(s, p), perm, p)
  {
    if s == [] {
      perm := [];
    } else {
      var n := |s| - 1;
      var inner := SortIsStable(s[..n], p);
      SortDescends(s[..n], p);
      perm := InsertIsStable(s, SortDesc(s[..n], p), inner, p);
    }
  }

  lemma InsertIsStable<T>(s: seq<T>, t: seq<T>, inner: seq<nat>, p: T -> int) returns (perm: seq<nat>)
    requires s != [] && Descending(t, p) && StableOrder(s[..|s| - 1], t, inner, p)
    ensures StableOrder(s, Insert(t, s[|s| - 1], p), perm, p)
  {
    var n := |s| - 1;
    var k := InsertSplits(t, s[n], p);
    perm := inner[..k] + [n] + inner[k..];
    forall i, j | 0 <= i < j < |perm|
      ensures perm[i] < |s| && perm[j] < |s| && Before(s, perm[i], perm[j], p)
    {
      InsertedBefore(s, t, inner, k, i, j, p);
    }
  }

  lemma InsertedBefore<T>(s: seq<T>, t: seq<T>, inner: seq<nat>, k: nat, i: nat, j: nat, p: T -> int)
    requires s != [] && StableOrder(s[..|s| - 1], t, inner, p) && k <= |t|
    requires forall i | 0 <= i < k :: p(t[i]) >= p(s[|s| - 1])
    requires forall i | k <= i < |t| :: p(t[i]) < p(s[|s| - 1])
    requires i < j < |s|
    ensures var perm := inner[..k] + [|s| - 1] + inner[k..];
            perm[i] < |s| && perm[j] < |s| && Before(s, perm[i], perm[j], p)
  {
    var i', j' := if i < k then i else i - 1, if j < k then j else j - 1;
    if i != k && j != k {
      assert Before(s[..|s| - 1], inner[i'], inner[j'], p);
    } else if i == k {
      assert t[j'] == s[inner[j']];
    } else {
      assert t[i'] == s[inner[i']];
    }
  }

  /** Sorting an already descending list changes nothing. */
  lemma {:induction false} SortOfDescending<T>(s: seq<T>, p: T -> int)
    requires Descending(s, p)
    ensures SortDesc(s, p) == s
  {
    if s != [] {
      var front := s[..|s| - 1];
      SortOfDescending(front, p);
      if front != [] {
        assert p(front[|front| - 1]) >= p(s[|s| - 1]);
      }
      assert front + [s[|s| - 1]] == s;
    }
  }

  /**
   Re-sorting at every registration is the same as one stable sort of the whole
   history, so the list order is decided by priority and registration number.
   */
  lemma {:induction false} RegistrationIsOneSort<T>(history: seq<T>, p: T -> int) returns (perm: seq<nat>)
    ensures RegisterAll(history, p) == SortDesc(history, p)
    ensures StableOrder(history, RegisterAll(history, p), perm, p)
  {
    perm := SortIsStable(history, p);
    if history != [] {
      var front, x := history[..|history| - 1], history[|history| - 1];
      var _ := RegistrationIsOneSort(front, p);
      var t := SortDesc(front, p);
      SortDescends(front, p);
      SortOfDescending(t, p);
      assert (t + [x])[..|t|] == t;
    }
  }

  /** The order is pinned down: any list in stable order is the one `SortDesc` gives. */
  lemma {:induction false} StableOrderIsUnique<T>(history: seq<T>, out: seq<T>, perm: seq<nat>, p: T -> int)
    requires StableOrder(history, out, perm, p)
    ensures out == SortDesc(history, p)
  {
    if history != [] {
      var n := |history| - 1;
      var x := history[n];
      var k := PlaceOf(history, out, perm, n, p);
      var rest := out[..k] + out[k + 1..];
      RemoveLast(history, out, perm, k, p);
      StableOrderIsUnique(history[..n], rest, perm[..k] + perm[k + 1..], p);
      SplitPlace(history, out, perm, k, p);
      InsertAt(rest, x, k, p);
      assert out == rest[..k] + [x] + rest[k..];
    }
  }

  lemma {:induction false} InsertAt<T>(s: seq<T>, x: T, k: nat, p: T -> int)
    requires k <= |s|
    requires forall i | 0 <= i < k :: p(s[i]) >= p(x)
    requires forall i | k <= i < |s| :: p(s[i]) < p(x)
    ensures Insert(s, x, p) == s[..k] + [x] + s[k..]
  {
    if k < |s| {
      var front := s[..|s| - 1];
      InsertAt(front, x, k, p);
      assert s[k..] == front[k..] + [s[|s| - 1]];
    }
  }

  lemma SplitPlace<T>(history: seq<T>, out: seq<T>, perm: seq<nat>, k: nat, p: T -> int)
    requires StableOrder(history, out, perm, p) && history != []
    requires k < |perm| && perm[k] == |history| - 1
    ensures forall i | 0 <= i < k :: p(out[i]) >= p(out[k])
    ensures forall i | k < i < |out| :: p(out[i]) < p(out[k])
  {
    forall i | 0 <= i < k
      ensures p(out[i]) >= p(out[k])
    {
      assert Before(history, perm[i], perm[k], p);
    }
    forall i | k < i < |out|
      ensures p(out[i]) < p(out[k])
    {
      assert Before(history, perm[k], perm[i], p);
    }
  }

  lemma RemoveLast<T>(history: seq<T>, out: seq<T>, perm: seq<nat>, k: nat, p: T -> int)
    requires StableOrder(history, out, perm, p) && history != []
    requires k < |perm| && perm[k] == |history| - 1
    ensures StableOrder(history[..|history| - 1], out[..k] + out[k + 1..], perm[..k] + perm[k + 1..], p)
  {
    var front, perm', out' := history[..|history| - 1], perm[..k] + perm[k + 1..], out[..k] + out[k + 1..];
    forall i | 0 <= i < |perm'|
      ensures perm'[i] < |front| && out'[i] == front[perm'[i]]
    {
      var i' := if i < k then i else i + 1;
      assert perm'[i] == perm[i'];
      if i < k { assert Before(history, perm[i], perm[k], p); } else { assert Before(history, perm[k], perm[i'], p); }
    }
    forall i, j | 0 <= i < j < |perm'|
      ensures Before(front, perm'[i], perm'[j], p)
    {
      assert Before(history, perm[if i < k then i else i + 1], perm[if j < k then j else j + 1], p);
    }
  }

  /** Every registration number has a place: distinct numbers below n fill n places. */
  lemma PlaceOf<T>(history: seq<T>, out: seq<T>, perm: seq<nat>, a: nat, p: T -> int) returns (k: nat)
    requires StableOrder(history, out, perm, p) && a < |history|
    ensures k < |perm| && perm[k] == a
  {
    forall i, j | 0 <= i < j < |perm|
      ensures perm[i] != perm[j]
    {
      assert Before(history, perm[i], perm[j], p);
    }
    if a !in perm {
      TooMany(perm, Numbers(|history|) - {a});
    }
    k :| 0 <= k < |perm| && perm[k] == a;
  }

  ghost function Numbers(n: nat): (s: set<nat>)
    ensures |s| == n
    ensures forall x: nat :: x in s <==> x < n
  {
    if n == 0 then {} else Numbers(n - 1) + {n - 1}
  }

  lemma {:induction false} TooMany(s: seq<nat>, range: set<nat>)
    requires forall i, j | 0 <= i < j < |s| :: s[i] != s[j]
    requires forall i | 0 <= i < |s| :: s[i] in range
    ensures |s| <= |range|
  {
    if s != [] {
      TooMany(s[1..], range - {s[0]});
    }
  }
}
