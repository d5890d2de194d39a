/**
 The Go rate limiter as concurrent steps. A call of `wait` is a task that checks the
 global window, then its bucket, sleeping without any lock in between; responses
 update buckets and windows at any time; the clock never goes back.
 */
module GoRateLimiter {
  import opened Common

  type Time = int
  type Key = string
  type Task = nat

  datatype Bucket = Bucket(remaining: int, resetAt: Time, known: bool)

  datatype Pc = AtGlobal | AsleepGlobal(wake: Time) | AtBucket | AsleepBucket(wake: Time)

  datatype Call = Call(key: Key, pc: Pc)

  datatype State = State(now: Time, globalUntil: Time, buckets: map<Key, Bucket>, calls: map<Task, Call>)

  datatype Event =
    | Tick(elapsed: nat)
    | Begin(task: Task, key: Key)
    | CheckGlobal(task: Task)
    | WakeGlobal(task: Task)
    | CheckBucket(task: Task)
    | WakeBucket(task: Task)
    | Cancel(task: Task)
    | Update(key: Key, remaining: int, resetAfter: int)
    | Limited(key: Key, retryAfter: nat, global: bool)

  /** The bucket of a key; a new one lets the first request through. */
  function BucketOf(s: State, key: Key): Bucket {
    if key in s.buckets then s.buckets[key] else Bucket(1, 0, false)
  }

  function PcOf(s: State, t: Task): Option<Pc> {
    if t in s.calls then Some(s.calls[t].pc) else None
  }

  predicate Enabled(s: State, e: Event) {
    match e
    case Begin(t, _) => t !in s.calls
    case CheckGlobal(t) => PcOf(s, t) == Some(AtGlobal)
    case WakeGlobal(t) => t in s.calls && s.calls[t].pc.AsleepGlobal? && s.now >= s.calls[t].pc.wake
    case CheckBucket(t) => PcOf(s, t) == Some(AtBucket)
    case WakeBucket(t) => t in s.calls && s.calls[t].pc.AsleepBucket? && s.now >= s.calls[t].pc.wake
    case Cancel(t) => t in s.calls && (s.calls[t].pc.AsleepGlobal? || s.calls[t].pc.AsleepBucket?)
    case _ => true
  }

  function Goto(s: State, t: Task, pc: Pc): State
    requires t in s.calls
  {
    s.(calls := s.calls[t := s.calls[t].(pc := pc)])
  }

  /** The bucket turns the request away until its reset time. */
  predicate Exhausted(b: Bucket, now: Time) {
    b.known && b.remaining <= 0 && now < b.resetAt
  }

  /** The bucket after letting one request through. */
  function Consume(b: Bucket): Bucket {
    if !b.known then b
    else if b.remaining <= 0 then b.(remaining := 1, known := false)
    else b.(remaining := b.remaining - 1)
  }

  function Step(s: State, e: Event): State
    requires Enabled(s, e)
  {
    match e
    case Tick(elapsed) => s.(now := s.now + elapsed)
    case Begin(t, key) => s.(calls := s.calls[t := Call(key, AtGlobal)])
    case CheckGlobal(t) => Goto(s, t, if s.now >= s.globalUntil then AtBucket else AsleepGlobal(s.globalUntil))
    case WakeGlobal(t) => Goto(s, t, AtGlobal)
    case CheckBucket(t) =>
      var key := s.calls[t].key;
      var b := BucketOf(s, key);
      if Exhausted(b, s.now) then Goto(s, t, AsleepBucket(b.resetAt))
      else s.(buckets := s.buckets[key := Consume(b)], calls := s.calls - {t})
    case WakeBucket(t) => Goto(s, t, AtBucket)
    case Cancel(t) => s.(calls := s.calls - {t})
    case Update(key, remaining, resetAfter) =>
      s.(buckets := s.buckets[key := Bucket(remaining, s.now + resetAfter, true)])
    case Limited(key, retryAfter, global) =>
      if global then s.(globalUntil := if s.now + retryAfter > s.globalUntil then s.now + retryAfter else s.globalUntil)
      else s.(buckets := s.buckets[key := Bucket(0, s.now + retryAfter, true)])
  }

  /** In this step a `wait` returns successfully. */
  predicate Returns(s: State, e: Event) {
    e.CheckBucket? && Enabled(s, e) && !Exhausted(BucketOf(s, s.calls[e.task].key), s.now)
  }

  predicate IsRun(s: State, es: seq<Event>)
    decreases |es|
  {
    es == [] || (Enabled(s, es[0]) && IsRun(Step(s, es[0]), es[1..]))
  }

  // ---- Route buckets -------------------------------------------------------

  /** Neither headers nor a 429 arrive for this key. */
  predicate QuietOn(es: seq<Event>, key: Key) {
    forall e | e in es :: !(e.Update? && e.key == key) && !(e.Limited? && !e.global && e.key == key)
  }

  /** How many waits on `key` return before time `until`. */
  function ReturnsBefore(s: State, es: seq<Event>, key: Key, until: Time): nat
    requires IsRun(s, es)
    decreases |es|
  {
    if es == [] then 0
    else
      (if Returns(s, es[0]) && s.calls[es[0].task].key == key && s.now < until then 1 else 0)
      + ReturnsBefore(Step(s, es[0]), es[1..], key, until)
  }

  lemma {:induction false} NoneLater(s: State, es: seq<Event>, key: Key, until: Time)
    requires IsRun(s, es) && s.now >= until
    ensures ReturnsBefore(s, es, key, until) == 0
    decreases |es|
  {
    if es != [] {
      NoneLater(Step(s, es[0]), es[1..], key, until);
    }
  }

  /** With `r` slots until `until`, at most `r` waits get through before then. */
  lemma {:induction false} BudgetHolds(s: State, es: seq<Event>, key: Key)
    requires IsRun(s, es) && QuietOn(es, key)
    requires key in s.buckets && s.buckets[key].known
    ensures var b := s.buckets[key];
            ReturnsBefore(s, es, key, b.resetAt) <= if b.remaining > 0 then b.remaining else 0
    decreases |es|
  {
    if es != [] {
      var b, e, next := s.buckets[key], es[0], Step(s, es[0]);
      assert e in es;
      assert forall x | x in es[1..] :: x in es;
      if s.now >= b.resetAt {
        NoneLater(s, es, key, b.resetAt);
      } else {
        BudgetHolds(next, es[1..], key);
      }
    }
  }

  /** After a header update with `r` remaining and reset time T, at most `r` waits return before T. */
  lemma HeaderBudget(s: State, key: Key, r: int, resetAfter: int, es: seq<Event>)
    requires IsRun(Step(s, Update(key, r, resetAfter)), es) && QuietOn(es, key)
    ensures ReturnsBefore(Step(s, Update(key, r, resetAfter)), es, key, s.now + resetAfter) <= if r > 0 then r else 0
  {
    BudgetHolds(Step(s, Update(key, r, resetAfter)), es, key);
  }

  /** After a route 429 no wait on that key returns before its deadline. */
  lemma RouteLimited(s: State, key: Key, retryAfter: nat, es: seq<Event>)
    requires IsRun(Step(s, Limited(key, retryAfter, false)), es) && QuietOn(es, key)
    ensures ReturnsBefore(Step(s, Limited(key, retryAfter, false)), es, key, s.now + retryAfter) == 0
  {
    BudgetHolds(Step(s, Limited(key, retryAfter, false)), es, key);
  }

  // ---- Waits that do return ------------------------------------------------

  /**
   A check of the bucket ends the call exactly when the bucket is unknown, has a slot left or its reset time
   has come; else the call sleeps until that time. What it leaves: an unknown bucket as it was, one
   slot less, or an expired bucket unknown again. No other bucket or call changes.
   */
  lemma CheckEnds(s: State, t: Task)
    requires Enabled(s, CheckBucket(t))
    ensures var next, key, b := Step(s, CheckBucket(t)), s.calls[t].key, BucketOf(s, s.calls[t].key);
            var after := BucketOf(next, key);
            && (t !in next.calls <==> !b.known || b.remaining > 0 || s.now >= b.resetAt)
            && (t in next.calls ==> next.calls == s.calls[t := Call(key, AsleepBucket(b.resetAt))] && after == b)
            && (t !in next.calls ==> next.calls == s.calls - {t})
            && (!b.known ==> after == b)
            && (b.known && b.remaining > 0 ==> after == Bucket(b.remaining - 1, b.resetAt, true))
            && (b.known && b.remaining <= 0 && s.now >= b.resetAt ==> after == Bucket(1, b.resetAt, false))
            && forall k | k != key :: BucketOf(next, k) == BucketOf(s, k)
    ensures Returns(s, CheckBucket(t)) <==> t !in Step(s, CheckBucket(t)).calls
  {
  }

  /** The global check lets the call on exactly when the window is over; else it sleeps until its end. */
  lemma GlobalCheckPasses(s: State, t: Task)
    requires Enabled(s, CheckGlobal(t))
    ensures var next := Step(s, CheckGlobal(t));
            PcOf(next, t) == Some(if s.now >= s.globalUntil then AtBucket else AsleepGlobal(s.globalUntil))
  {
  }

  predicate ChecksOn(s: State, e: Event, key: Key)
    requires Enabled(s, e)
  {
    e.CheckBucket? && s.calls[e.task].key == key
  }

  /** How many checks of the bucket of `key` a run has. */
  function Checks(s: State, es: seq<Event>, key: Key): nat
    requires IsRun(s, es)
    decreases |es|
  {
    if es == [] then 0
    else (if ChecksOn(s, es[0], key) then 1 else 0) + Checks(Step(s, es[0]), es[1..], key)
  }

  /** Every check of the bucket of `key` ends its call. */
  predicate AllChecksEnd(s: State, es: seq<Event>, key: Key)
    requires IsRun(s, es)
    decreases |es|
  {
    es == [] ||
    ((ChecksOn(s, es[0], key) ==> es[0].task !in Step(s, es[0]).calls) && AllChecksEnd(Step(s, es[0]), es[1..], key))
  }

  lemma {:induction false} SlotsAreGiven(s: State, es: seq<Event>, key: Key)
    requires IsRun(s, es) && QuietOn(es, key) && key in s.buckets
    requires s.buckets[key].known && Checks(s, es, key) <= s.buckets[key].remaining
    ensures AllChecksEnd(s, es, key)
    decreases |es|
  {
    if es != [] {
      assert es[0] in es;
      assert forall x | x in es[1..] :: x in es;
      SlotsAreGiven(Step(s, es[0]), es[1..], key);
    }
  }

  /** After headers with `r` remaining, the next `r` checks on that key all end their calls. */
  lemma HeadersGive(s: State, key: Key, r: nat, resetAfter: int, es: seq<Event>)
    requires IsRun(Step(s, Update(key, r, resetAfter)), es) && QuietOn(es, key)
    requires Checks(Step(s, Update(key, r, resetAfter)), es, key) <= r
    ensures AllChecksEnd(Step(s, Update(key, r, resetAfter)), es, key)
  {
    SlotsAreGiven(Step(s, Update(key, r, resetAfter)), es, key);
  }

  /** A call that slept on a bucket whose reset time, or 429 deadline, has come returns at its next check. */
  lemma SleeperReturns(s: State, t: Task)
    requires Enabled(s, WakeBucket(t)) && s.now >= BucketOf(s, s.calls[t].key).resetAt
    ensures Enabled(Step(s, WakeBucket(t)), CheckBucket(t))
    ensures t !in Step(Step(s, WakeBucket(t)), CheckBucket(t)).calls
  {
  }

  /** A wait on a limited route that begins at or after the deadline returns in three steps, window permitting. */
  lemma ReturnsAfterDeadline(s: State, t: Task, key: Key)
    requires t !in s.calls && s.now >= s.globalUntil && s.now >= BucketOf(s, key).resetAt
    ensures Enabled(s, Begin(t, key)) && Enabled(Step(s, Begin(t, key)), CheckGlobal(t))
    ensures var s2 := Step(Step(s, Begin(t, key)), CheckGlobal(t));
            Enabled(s2, CheckBucket(t)) && t !in Step(s2, CheckBucket(t)).calls
  {
  }

  // ---- The global window ---------------------------------------------------

  /** Some run from `s` has task `t` return from a wait before `deadline`. */
  ghost predicate MayReturnBefore(s: State, t: Task, deadline: Time) {
    exists es :: IsRun(s, es) && ReturnsInRun(s, es, t, deadline)
  }

  predicate ReturnsInRun(s: State, es: seq<Event>, t: Task, deadline: Time)
    requires IsRun(s, es)
    decreases |es|
  {
    es != [] &&
    ((Returns(s, es[0]) && es[0].task == t && s.now < deadline) || ReturnsInRun(Step(s, es[0]), es[1..], t, deadline))
  }

  /** The call has still to pass the global check, or sleeps on its bucket past the deadline. */
  predicate Held(s: State, t: Task, deadline: Time) {
    s.now >= deadline || t !in s.calls ||
    match s.calls[t].pc
    case AtGlobal => true
    case AsleepGlobal(_) => true
    case AtBucket => false
    case AsleepBucket(wake) => wake >= deadline
  }

  lemma {:induction false} HeldStays(s: State, es: seq<Event>, t: Task, deadline: Time)
    requires IsRun(s, es) && s.globalUntil >= deadline && Held(s, t, deadline)
    ensures !ReturnsInRun(s, es, t, deadline)
    decreases |es|
  {
    if es != [] {
      HeldStays(Step(s, es[0]), es[1..], t, deadline);
    }
  }

  /** A task past the global check gets through early if its bucket is refilled in time. */
  lemma EarlyRun(s: State, t: Task, deadline: Time) returns (es: seq<Event>)
    requires !Held(s, t, deadline)
    ensures IsRun(s, es) && ReturnsInRun(s, es, t, deadline)
    decreases PcOf(s, t) != Some(AtBucket)
  {
    var key, pc := s.calls[t].key, s.calls[t].pc;
    if pc == AtBucket {
      var s1 := Step(s, Update(key, 1, 0));
      es := [Update(key, 1, 0), CheckBucket(t)];
      OneMore(s1, CheckBucket(t), [], t, deadline);
      OneMore(s, Update(key, 1, 0), [CheckBucket(t)], t, deadline);
    } else {
      var elapsed := if pc.wake > s.now then pc.wake - s.now else 0;
      var s1 := Step(s, Tick(elapsed));
      var s2 := Step(s1, WakeBucket(t));
      var rest := EarlyRun(s2, t, deadline);
      es := [Tick(elapsed), WakeBucket(t)] + rest;
      OneMore(s1, WakeBucket(t), rest, t, deadline);
      OneMore(s, Tick(elapsed), [WakeBucket(t)] + rest, t, deadline);
      Assoc([Tick(elapsed)], [WakeBucket(t)], rest);
    }
  }

  lemma OneMore(s: State, e: Event, rest: seq<Event>, t: Task, deadline: Time)
    requires Enabled(s, e) && IsRun(Step(s, e), rest)
    ensures IsRun(s, [e] + rest)
    ensures ReturnsInRun(s, [e] + rest, t, deadline)
        <==> (Returns(s, e) && e.task == t && s.now < deadline) || ReturnsInRun(Step(s, e), rest, t, deadline)
  {
    assert ([e] + rest)[1..] == rest;
  }

  /**
   After a global 429 a task may still return before the deadline exactly when it had
   passed its global check and does not sleep on its bucket past the deadline. In
   particular no wait that begins later does: the window is not checked again
   after the bucket sleep.
   */
  lemma GlobalLimited(s: State, key: Key, retryAfter: nat, t: Task)
    ensures var limited, deadline := Step(s, Limited(key, retryAfter, true)), s.now + retryAfter;
            MayReturnBefore(limited, t, deadline) <==> !Held(limited, t, deadline)
  {
    var limited, deadline := Step(s, Limited(key, retryAfter, true)), s.now + retryAfter;
    if Held(limited, t, deadline) {
      forall es | IsRun(limited, es)
        ensures !ReturnsInRun(limited, es, t, deadline)
      {
        HeldStays(limited, es, t, deadline);
      }
    } else {
      var es := EarlyRun(limited, t, deadline);
      assert IsRun(limited, es) && ReturnsInRun(limited, es, t, deadline);
    }
  }
}
