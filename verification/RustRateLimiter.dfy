/**
 The Rust rate limiter as concurrent steps. A call of `acquire` looks at the global window once, then
 queues for its bucket's lock, which is handed out first come, first served, and keeps it while it
 sleeps; header updates and route penalties queue for the same lock. The clock never goes back, and
 whoever waits may be dropped.
 */
module RustRateLimiter {
  import opened Common

  type Time = int
  type Key = string
  type Task = nat

  datatype Bucket = Bucket(remaining: Option<nat>, resetAt: Option<Time>)

  /** `Arriving` is about to queue; a call that `Holds` the lock of its bucket sleeps with it until `wake`. */
  datatype Pc = AsleepGlobal(wake: Time) | Arriving | Queued | Holds(wake: Time)

  datatype Call = Call(key: Key, pc: Pc)

  /** Who queues for a bucket. A penalty carries the deadline it computed before it queued. */
  datatype Waiter =
    | Caller(task: Task)
    | Headers(remaining: Option<nat>, resetAfter: Option<nat>)
    | Penalty(until: Time)

  /** The first in a queue owns the lock. */
  datatype State = State(now: Time, globalUntil: Option<Time>, buckets: map<Key, Bucket>,
                         queues: map<Key, seq<Waiter>>, calls: map<Task, Call>)

  datatype Event =
    | Tick(elapsed: nat)
    | Begin(task: Task, key: Key)
    | WakeGlobal(task: Task)
    | Enqueue(task: Task)
    | Respond(key: Key, waiter: Waiter)  // headers or a penalty queue
    | Serve(key: Key)                    // the first in the queue gets to work
    | WakeBucket(task: Task)
    | Cancel(task: Task)
    | Withdraw(key: Key, place: nat)     // headers or a penalty are dropped from the queue
    | PenalizeAll(retryAfter: nat)

  function BucketOf(s: State, key: Key): Bucket {
    if key in s.buckets then s.buckets[key] else Bucket(None, None)
  }

  function QueueOf(s: State, key: Key): seq<Waiter> {
    if key in s.queues then s.queues[key] else []
  }

  predicate IsAt(s: State, t: Task, pc: Pc) {
    t in s.calls && s.calls[t].pc == pc
  }

  predicate Enabled(s: State, e: Event) {
    match e
    case Tick(_) => true
    case Begin(t, _) => t !in s.calls
    case WakeGlobal(t) => t in s.calls && s.calls[t].pc.AsleepGlobal? && s.now >= s.calls[t].pc.wake
    case Enqueue(t) => IsAt(s, t, Arriving)
    case Respond(_, waiter) => !waiter.Caller?
    case Serve(key) =>
      QueueOf(s, key) != [] && (QueueOf(s, key)[0].Caller? ==> IsAt(s, QueueOf(s, key)[0].task, Queued))
    case WakeBucket(t) => t in s.calls && s.calls[t].pc.Holds? && s.now >= s.calls[t].pc.wake
    case Cancel(t) => t in s.calls
    case Withdraw(key, i) => i < |QueueOf(s, key)| && !QueueOf(s, key)[i].Caller?
    case PenalizeAll(_) => true
  }

  /** The bucket makes the request wait for its reset time. */
  predicate Exhausted(b: Bucket, now: Time) {
    b.remaining == Some(0) && b.resetAt.Some? && b.resetAt.value >= now
  }

  /** The bucket after letting one request through. */
  function Consume(b: Bucket): Bucket {
    if b.remaining.Some? && b.remaining.value > 0 then b.(remaining := Some(b.remaining.value - 1)) else b
  }

  /** The bucket as headers or a penalty leave it. */
  function Written(w: Waiter, now: Time): Bucket
    requires !w.Caller?
  {
    match w
    case Headers(remaining, resetAfter) =>
      Bucket(remaining, if resetAfter.Some? then Some(now + resetAfter.value) else None)
    case Penalty(until) => Bucket(Some(0), Some(until))
  }

  function Without(q: seq<Waiter>, t: Task): seq<Waiter> {
    if q == [] then [] else if q[0] == Caller(t) then q[1..] else [q[0]] + Without(q[1..], t)
  }

  function Cut(q: seq<Waiter>, i: nat): seq<Waiter>
    requires i < |q|
  {
    q[..i] + q[i + 1..]
  }

  /** The call is over and leaves its queue. */
  function Finish(s: State, t: Task): State
    requires t in s.calls
  {
    var key := s.calls[t].key;
    s.(calls := s.calls - {t}, queues := s.queues[key := Without(QueueOf(s, key), t)])
  }

  function Goto(s: State, t: Task, pc: Pc): State
    requires t in s.calls
  {
    s.(calls := s.calls[t := s.calls[t].(pc := pc)])
  }

  function Step(s: State, e: Event): State
    requires Enabled(s, e)
  {
    match e
    case Tick(elapsed) => s.(now := s.now + elapsed)
    case Begin(t, key) =>
      var wait := s.globalUntil.Some? && s.globalUntil.value >= s.now;
      s.(calls := s.calls[t := Call(key, if wait then AsleepGlobal(s.globalUntil.value) else Arriving)])
    case WakeGlobal(t) => Goto(s, t, Arriving)
    case Enqueue(t) =>
      var key := s.calls[t].key;
      Goto(s, t, Queued).(queues := s.queues[key := QueueOf(s, key) + [Caller(t)]])
    case Respond(key, waiter) => s.(queues := s.queues[key := QueueOf(s, key) + [waiter]])
    case Serve(key) => Served(s, key, QueueOf(s, key)[0])
    case WakeBucket(t) => Finish(s.(buckets := s.buckets[s.calls[t].key := Bucket(None, None)]), t)
    case Cancel(t) => Finish(s, t)
    case Withdraw(key, i) => s.(queues := s.queues[key := Cut(QueueOf(s, key), i)])
    case PenalizeAll(retryAfter) => s.(globalUntil := Some(Later(s.globalUntil, s.now + retryAfter)))
  }

  /** The front of the queue at work: it writes and leaves, gets through, or goes to sleep with the lock. */
  function Served(s: State, key: Key, front: Waiter): State
    requires QueueOf(s, key) != [] && QueueOf(s, key)[0] == front
    requires front.Caller? ==> front.task in s.calls
  {
    var rest := s.queues[key := QueueOf(s, key)[1..]];
    var b := BucketOf(s, key);
    if !front.Caller? then s.(buckets := s.buckets[key := Written(front, s.now)], queues := rest)
    else if Exhausted(b, s.now) then Goto(s, front.task, Holds(b.resetAt.value))
    else s.(buckets := s.buckets[key := Consume(b)], queues := rest, calls := s.calls - {front.task})
  }

  function Later(until: Option<Time>, other: Time): Time {
    if until.Some? && until.value > other then until.value else other
  }

  /** The call that returns in this step, if any. */
  function Returning(s: State, e: Event): Option<Task>
    requires Enabled(s, e)
  {
    match e
    case WakeBucket(t) => Some(t)
    case Serve(key) =>
      var front := QueueOf(s, key)[0];
      if front.Caller? && !Exhausted(BucketOf(s, key), s.now) then Some(front.task) else None
    case _ => None
  }

  predicate IsRun(s: State, es: seq<Event>)
    decreases |es|
  {
    es == [] || (Enabled(s, es[0]) && IsRun(Step(s, es[0]), es[1..]))
  }

  // ---- The lock discipline ---------------------------------------------------

  /** A call stands in its own queue exactly while it waits for or holds the lock. */
  predicate Places(s: State, t: Task, key: Key) {
    (Caller(t) in QueueOf(s, key)) <==>
    (t in s.calls && s.calls[t].key == key && (s.calls[t].pc == Queued || s.calls[t].pc.Holds?))
  }

  /** A sleeper is first in its queue, and the bucket is still the one that sent it to sleep. */
  predicate Guarded(s: State, t: Task) {
    t in s.calls && s.calls[t].pc.Holds? ==>
      var key := s.calls[t].key;
      && QueueOf(s, key) != [] && QueueOf(s, key)[0] == Caller(t)
      && BucketOf(s, key) == Bucket(Some(0), Some(s.calls[t].pc.wake))
  }

  predicate Once(q: seq<Waiter>) {
    forall i, j | 0 <= i < j < |q| :: q[i].Caller? ==> q[i] != q[j]
  }

  ghost predicate Orderly(s: State) {
    && (forall t, key {:trigger Places(s, t, key)} :: Places(s, t, key))
    && (forall t {:trigger Guarded(s, t)} :: Guarded(s, t))
    && (forall key {:trigger QueueOf(s, key)} :: Once(QueueOf(s, key)))
  }

  lemma {:induction false} WithoutOnce(q: seq<Waiter>, t: Task)
    requires Once(q)
    ensures Once(Without(q, t)) && Caller(t) !in Without(q, t)
    ensures forall w | w != Caller(t) :: w in Without(q, t) <==> w in q
    ensures q != [] && q[0] != Caller(t) ==> Without(q, t) != [] && Without(q, t)[0] == q[0]
  {
    if q != [] {
      assert Once(q[1..]);
      WithoutOnce(q[1..], t);
      if q[0] == Caller(t) {
        assert forall j | 0 <= j < |q[1..]| :: q[1..][j] == q[j + 1];
      } else {
        var rest := Without(q[1..], t);
        forall j | 0 <= j < |rest|
          ensures q[0].Caller? ==> rest[j] != q[0]
        {
          assert rest[j] in rest;
          var k :| 0 <= k < |q[1..]| && q[1..][k] == rest[j];
          assert q[k + 1] == rest[j];
        }
        assert q == [q[0]] + q[1..];
      }
    }
  }

  lemma WithoutFirst(q: seq<Waiter>)
    requires q != [] && q[0].Caller?
    ensures Without(q, q[0].task) == q[1..]
  {
  }

  lemma CutOnce(q: seq<Waiter>, i: nat)
    requires Once(q) && i < |q| && !q[i].Caller?
    ensures Once(Cut(q, i)) && forall w: Waiter | w.Caller? :: w in Cut(q, i) <==> w in q
    ensures q[0].Caller? ==> Cut(q, i) != [] && Cut(q, i)[0] == q[0]
  {
    assert q == q[..i] + [q[i]] + q[i + 1..];
  }

  lemma AppendOnce(q: seq<Waiter>, w: Waiter)
    requires Once(q) && (w.Caller? ==> w !in q)
    ensures Once(q + [w])
  {
  }

  lemma TailOnce(q: seq<Waiter>)
    requires Once(q) && q != []
    ensures Once(q[1..]) && (q[0].Caller? ==> q[0] !in q[1..])
    ensures forall w | w != q[0] :: w in q[1..] <==> w in q
    ensures forall w: Waiter | !q[0].Caller? && w.Caller? :: w in q[1..] <==> w in q
  {
    assert q == [q[0]] + q[1..];
  }

  /** The one queue a step changes keeps its discipline. */
  lemma StepOnce(s: State, e: Event, key: Key)
    requires Orderly(s) && Enabled(s, e)
    ensures Once(QueueOf(Step(s, e), key))
  {
    var q := QueueOf(s, key);
    match e
    case Enqueue(t) =>
      assert Places(s, t, key);
      if s.calls[t].key == key {
        AppendOnce(q, Caller(t));
      }
    case Respond(k, w) => if k == key { AppendOnce(q, w); }
    case Serve(k) => if k == key { TailOnce(q); }
    case WakeBucket(t) => WithoutOnce(q, t);
    case Cancel(t) => WithoutOnce(q, t);
    case Withdraw(k, i) => if k == key { CutOnce(q, i); }
    case _ =>
  }

  lemma StepPlaces(s: State, e: Event, t: Task, key: Key)
    requires Orderly(s) && Enabled(s, e)
    ensures Places(Step(s, e), t, key)
  {
    var q := QueueOf(s, key);
    assert Places(s, t, key);
    match e
    case Serve(k) =>
      var front := QueueOf(s, k)[0];
      if front.Caller? {
        assert Places(s, front.task, k);
      }
      if k == key {
        TailOnce(q);
      }
    case WakeBucket(u) => WithoutOnce(q, u);
    case Cancel(u) => WithoutOnce(q, u);
    case Withdraw(k, i) => if k == key { CutOnce(q, i); }
    case _ =>
  }

  lemma StepGuarded(s: State, e: Event, t: Task)
    requires Orderly(s) && Enabled(s, e)
    ensures Guarded(Step(s, e), t)
  {
    assert Guarded(s, t);
    if t in s.calls {
      var key := s.calls[t].key;
      var q := QueueOf(s, key);
      match e
      case Serve(k) =>
        var front := QueueOf(s, k)[0];
        if front.Caller? {
          assert Places(s, front.task, k);
        }
      case WakeBucket(u) =>
        assert Guarded(s, u);
        WithoutOnce(q, u);
      case Cancel(u) => WithoutOnce(q, u);
      case Withdraw(k, i) => if k == key { CutOnce(q, i); }
      case _ =>
    }
  }

  /** Every step keeps the discipline: nobody overtakes, and nobody changes a bucket under a sleeper. */
  lemma StepOrderly(s: State, e: Event)
    requires Orderly(s) && Enabled(s, e)
    ensures Orderly(Step(s, e))
  {
    var next := Step(s, e);
    forall t, key
      ensures Places(next, t, key)
    {
      StepPlaces(s, e, t, key);
    }
    forall t
      ensures Guarded(next, t)
    {
      StepGuarded(s, e, t);
    }
    forall key
      ensures Once(QueueOf(next, key))
    {
      StepOnce(s, e, key);
    }
  }

  /** Nobody has called yet and no response has come. */
  function Initial(now: Time): State {
    State(now, None, map[], map[], map[])
  }

  function After(s: State, es: seq<Event>): State
    requires IsRun(s, es)
    decreases |es|
  {
    if es == [] then s else After(Step(s, es[0]), es[1..])
  }

  lemma {:induction false} RunOrderly(s: State, es: seq<Event>)
    requires Orderly(s) && IsRun(s, es)
    ensures Orderly(After(s, es))
    decreases |es|
  {
    if es != [] {
      StepOrderly(s, es[0]);
      RunOrderly(Step(s, es[0]), es[1..]);
    }
  }

  /** Every state a limiter can reach is orderly. */
  lemma AlwaysOrderly(now: Time, es: seq<Event>)
    requires IsRun(Initial(now), es)
    ensures Orderly(After(Initial(now), es))
  {
    RunOrderly(Initial(now), es);
  }

  // ---- Route buckets -------------------------------------------------------

  /** In this step headers or a penalty take effect on `key`. */
  predicate Writes(s: State, e: Event, key: Key)
    requires Enabled(s, e)
  {
    e == Serve(key) && !QueueOf(s, key)[0].Caller?
  }

  /** In this step a call on `key` returns. */
  predicate Spends(s: State, e: Event, key: Key)
    requires Enabled(s, e)
  {
    var t := Returning(s, e);
    t.Some? && t.value in s.calls && s.calls[t.value].key == key
  }

  /** Neither headers nor a penalty take effect on `key`. */
  predicate QuietOn(s: State, es: seq<Event>, key: Key)
    requires IsRun(s, es)
    decreases |es|
  {
    es == [] || (!Writes(s, es[0], key) && QuietOn(Step(s, es[0]), es[1..], key))
  }

  /** How many calls on `key` return before time `until`. */
  function ReturnsBefore(s: State, es: seq<Event>, key: Key, until: Time): nat
    requires IsRun(s, es)
    decreases |es|
  {
    if es == [] then 0
    else
      (if Spends(s, es[0], key) && s.now < until then 1 else 0)
      + ReturnsBefore(Step(s, es[0]), es[1..], key, until)
  }

  lemma {:induction false} NoneLater(s: State, es: seq<Event>, key: Key, until: Time)
    requires IsRun(s, es) && s.now >= until
    ensures ReturnsBefore(s, es, key, until) == 0
    decreases |es|
  {
    if es != [] {
      NoneLater(Step(s, es[0]), es[1..], key, until);
    }
  }

  /** What one step does to a bucket with `r` slots until `until`. */
  lemma BudgetStep(s: State, e: Event, key: Key, r: nat, until: Time)
    requires Orderly(s) && Enabled(s, e) && s.now < until && !Writes(s, e, key)
    requires BucketOf(s, key) == Bucket(Some(r), Some(until))
    ensures Spends(s, e, key) ==> r > 0
    ensures BucketOf(Step(s, e), key) == Bucket(Some(if Spends(s, e, key) then r - 1 else r), Some(until))
  {
    match e
    case WakeBucket(t) =>
      assert Guarded(s, t);
    case Serve(k) =>
      var front := QueueOf(s, k)[0];
      if front.Caller? {
        assert Places(s, front.task, k);
      }
    case _ =>
  }

  /** Before its reset time a bucket lets at most its remaining slots through. */
  lemma {:induction false} BudgetHolds(s: State, es: seq<Event>, key: Key, r: nat, until: Time)
    requires Orderly(s) && IsRun(s, es) && QuietOn(s, es, key)
    requires BucketOf(s, key) == Bucket(Some(r), Some(until))
    ensures ReturnsBefore(s, es, key, until) <= r
    decreases |es|
  {
    if s.now >= until {
      NoneLater(s, es, key, until);
    } else if es != [] {
      BudgetStep(s, es[0], key, r, until);
      StepOrderly(s, es[0]);
      BudgetHolds(Step(s, es[0]), es[1..], key, if Spends(s, es[0], key) then r - 1 else r, until);
    }
  }

  /** Once headers with `r` remaining and reset time T take effect, at most `r` calls return before T. */
  lemma HeaderBudget(s: State, key: Key, front: Waiter, es: seq<Event>)
    requires Orderly(s) && Enabled(s, Serve(key)) && QueueOf(s, key)[0] == front
    requires front.Headers? && front.remaining.Some? && front.resetAfter.Some?
    requires IsRun(Step(s, Serve(key)), es) && QuietOn(Step(s, Serve(key)), es, key)
    ensures ReturnsBefore(Step(s, Serve(key)), es, key, s.now + front.resetAfter.value) <= front.remaining.value
  {
    StepOrderly(s, Serve(key));
    BudgetHolds(Step(s, Serve(key)), es, key, front.remaining.value, s.now + front.resetAfter.value);
  }

  /** Once a route penalty takes effect, no call on that key returns before its deadline. */
  lemma RouteLimited(s: State, key: Key, front: Waiter, es: seq<Event>)
    requires Orderly(s) && Enabled(s, Serve(key)) && QueueOf(s, key)[0] == front && front.Penalty?
    requires IsRun(Step(s, Serve(key)), es) && QuietOn(Step(s, Serve(key)), es, key)
    ensures ReturnsBefore(Step(s, Serve(key)), es, key, front.until) == 0
  {
    StepOrderly(s, Serve(key));
    BudgetHolds(Step(s, Serve(key)), es, key, 0, front.until);
  }

  // ---- Calls that do return ------------------------------------------------

  /**
   Serving a call ends it exactly unless the bucket has no slot left and a reset time still to come, until
   which the call then sleeps with the lock. It takes a slot where slots are counted and leaves every
   other bucket, queue and call alone.
   */
  lemma ServeEnds(s: State, key: Key, t: Task)
    requires Enabled(s, Serve(key)) && QueueOf(s, key)[0] == Caller(t)
    ensures var next, b := Step(s, Serve(key)), BucketOf(s, key);
            var after := BucketOf(next, key);
            var waits := b.remaining == Some(0) && b.resetAt.Some? && s.now <= b.resetAt.value;
            && (t in next.calls <==> waits)
            && (waits ==> next.calls == s.calls[t := s.calls[t].(pc := Holds(b.resetAt.value))] && after == b
                          && QueueOf(next, key) == QueueOf(s, key))
            && (!waits ==> next.calls == s.calls - {t} && QueueOf(next, key) == QueueOf(s, key)[1..])
            && (!waits && b.remaining.Some? && b.remaining.value > 0 ==>
                  after == Bucket(Some(b.remaining.value - 1), b.resetAt))
            && (!waits && (b.remaining.None? || b.remaining == Some(0)) ==> after == b)
            && forall k | k != key :: BucketOf(next, k) == BucketOf(s, k) && QueueOf(next, k) == QueueOf(s, k)
  {
  }

  /** A sleeper that wakes returns and leaves its bucket without limits. */
  lemma WakeEnds(s: State, t: Task)
    requires Enabled(s, WakeBucket(t))
    ensures var next := Step(s, WakeBucket(t));
            t !in next.calls && BucketOf(next, s.calls[t].key) == Bucket(None, None)
  {
  }

  /** A new call sleeps exactly while the global window lasts, to its end, and else goes to its bucket. */
  lemma BeginWaits(s: State, t: Task, key: Key)
    requires Enabled(s, Begin(t, key))
    ensures Step(s, Begin(t, key)).calls[t] ==
            Call(key, if s.globalUntil.Some? && s.now <= s.globalUntil.value then AsleepGlobal(s.globalUntil.value)
                      else Arriving)
  {
  }

  /** Serving `key` in this step serves a call. */
  predicate ServesCall(s: State, e: Event, key: Key)
    requires Enabled(s, e)
  {
    e == Serve(key) && QueueOf(s, key)[0].Caller?
  }

  function Serves(s: State, es: seq<Event>, key: Key): nat
    requires IsRun(s, es)
    decreases |es|
  {
    if es == [] then 0
    else (if ServesCall(s, es[0], key) then 1 else 0) + Serves(Step(s, es[0]), es[1..], key)
  }

  predicate AllServesEnd(s: State, es: seq<Event>, key: Key)
    requires IsRun(s, es)
    decreases |es|
  {
    es == [] ||
    ((ServesCall(s, es[0], key) ==> QueueOf(s, key)[0].task !in Step(s, es[0]).calls)
     && AllServesEnd(Step(s, es[0]), es[1..], key))
  }

  /** With `r` slots left, and nobody asleep on the bucket, the next `r` calls served all return. */
  lemma {:induction false} SlotsAreGiven(s: State, es: seq<Event>, key: Key, r: nat)
    requires Orderly(s) && IsRun(s, es) && QuietOn(s, es, key)
    requires BucketOf(s, key).remaining == Some(r) && Serves(s, es, key) <= r && NoSleeper(s, key)
    ensures AllServesEnd(s, es, key)
    decreases |es|
  {
    if es != [] {
      var next := Step(s, es[0]);
      StepOrderly(s, es[0]);
      if r > 0 {
        SlotStep(s, es[0], key, r);
        SlotsAreGiven(next, es[1..], key, if ServesCall(s, es[0], key) then r - 1 else r);
      } else {
        NoServes(s, es, key);
      }
    }
  }

  ghost predicate NoSleeper(s: State, key: Key) {
    forall t | t in s.calls && s.calls[t].key == key :: !s.calls[t].pc.Holds?
  }

  lemma SlotStep(s: State, e: Event, key: Key, r: nat)
    requires Orderly(s) && Enabled(s, e) && !Writes(s, e, key) && r > 0
    requires BucketOf(s, key).remaining == Some(r) && NoSleeper(s, key)
    ensures BucketOf(Step(s, e), key).remaining == Some(if ServesCall(s, e, key) then r - 1 else r)
    ensures NoSleeper(Step(s, e), key)
    ensures ServesCall(s, e, key) ==> QueueOf(s, key)[0].task !in Step(s, e).calls
  {
    if e.Serve? && QueueOf(s, e.key)[0].Caller? {
      assert Places(s, QueueOf(s, e.key)[0].task, e.key);
    }
  }

  lemma {:induction false} NoServes(s: State, es: seq<Event>, key: Key)
    requires IsRun(s, es) && Serves(s, es, key) == 0
    ensures AllServesEnd(s, es, key)
    decreases |es|
  {
    if es != [] {
      NoServes(Step(s, es[0]), es[1..], key);
    }
  }

  /** Once headers with `r` remaining take effect, the next `r` calls served on that key all return. */
  lemma HeadersGive(s: State, key: Key, front: Waiter, es: seq<Event>)
    requires Orderly(s) && Enabled(s, Serve(key)) && QueueOf(s, key)[0] == front
    requires front.Headers? && front.remaining.Some?
    requires IsRun(Step(s, Serve(key)), es) && QuietOn(Step(s, Serve(key)), es, key)
    requires Serves(Step(s, Serve(key)), es, key) <= front.remaining.value
    ensures AllServesEnd(Step(s, Serve(key)), es, key)
  {
    var next := Step(s, Serve(key));
    StepOrderly(s, Serve(key));
    forall t | t in next.calls && next.calls[t].key == key
      ensures !next.calls[t].pc.Holds?
    {
      assert Guarded(s, t);
    }
    SlotsAreGiven(next, es, key, front.remaining.value);
  }

  // ---- The global window ---------------------------------------------------

  /** Some run from `s` has task `t` return before `deadline`. */
  ghost predicate MayReturnBefore(s: State, t: Task, deadline: Time) {
    exists es :: IsRun(s, es) && ReturnsInRun(s, es, t, deadline)
  }

  predicate ReturnsInRun(s: State, es: seq<Event>, t: Task, deadline: Time)
    requires IsRun(s, es)
    decreases |es|
  {
    es != [] &&
    ((Returning(s, es[0]) == Some(t) && s.now < deadline) || ReturnsInRun(Step(s, es[0]), es[1..], t, deadline))
  }

  /** The bucket lets nobody through before the deadline. */
  predicate Blocked(b: Bucket, deadline: Time) {
    b.remaining == Some(0) && b.resetAt.Some? && b.resetAt.value >= deadline
  }

  /** Nothing that queues before task `t` would open the bucket before the deadline. */
  predicate BlockedAhead(q: seq<Waiter>, t: Task, now: Time, deadline: Time) {
    q == [] || q[0] == Caller(t) ||
    ((q[0].Caller? || Blocked(Written(q[0], now), deadline)) && BlockedAhead(q[1..], t, now, deadline))
  }

  /** The task has not begun, sleeps past the deadline, or queues behind a bucket that stays blocked. */
  predicate Held(s: State, t: Task, deadline: Time) {
    s.now >= deadline || t !in s.calls ||
    match s.calls[t].pc
    case AsleepGlobal(wake) => wake >= deadline
    case Arriving => false
    case Queued => Blocked(BucketOf(s, s.calls[t].key), deadline)
                   && BlockedAhead(QueueOf(s, s.calls[t].key), t, s.now, deadline)
    case Holds(wake) => wake >= deadline
  }

  lemma {:induction false} BlockedLater(q: seq<Waiter>, t: Task, now: Time, later: Time, deadline: Time)
    requires BlockedAhead(q, t, now, deadline) && now <= later
    ensures BlockedAhead(q, t, later, deadline)
  {
    if q != [] && q[0] != Caller(t) {
      BlockedLater(q[1..], t, now, later, deadline);
    }
  }

  lemma {:induction false} BlockedAppend(q: seq<Waiter>, w: Waiter, t: Task, now: Time, deadline: Time)
    requires Caller(t) in q
    ensures BlockedAhead(q + [w], t, now, deadline) == BlockedAhead(q, t, now, deadline)
  {
    if q[0] != Caller(t) {
      BlockedAppend(q[1..], w, t, now, deadline);
      assert (q + [w])[1..] == q[1..] + [w];
    }
  }

  lemma {:induction false} BlockedWithout(q: seq<Waiter>, u: Task, t: Task, now: Time, deadline: Time)
    requires BlockedAhead(q, t, now, deadline) && u != t
    ensures BlockedAhead(Without(q, u), t, now, deadline)
  {
    if q != [] && q[0] != Caller(t) && q[0] != Caller(u) {
      BlockedWithout(q[1..], u, t, now, deadline);
      assert ([q[0]] + Without(q[1..], u))[1..] == Without(q[1..], u);
    }
  }

  lemma {:induction false} BlockedCut(q: seq<Waiter>, i: nat, t: Task, now: Time, deadline: Time)
    requires BlockedAhead(q, t, now, deadline) && i < |q|
    requires !q[i].Caller?
    ensures BlockedAhead(Cut(q, i), t, now, deadline)
  {
    if i == 0 {
      assert Cut(q, 0) == q[1..];
    } else if q[0] != Caller(t) {
      BlockedCut(q[1..], i - 1, t, now, deadline);
      assert Cut(q, i)[1..] == Cut(q[1..], i - 1);
    }
  }

  lemma QueuedHeldStep(s: State, e: Event, t: Task, deadline: Time)
    requires Orderly(s) && Enabled(s, e) && s.now < deadline && IsAt(s, t, Queued) && Held(s, t, deadline)
    ensures Held(Step(s, e), t, deadline) && Returning(s, e) != Some(t)
  {
    var key := s.calls[t].key;
    var q := QueueOf(s, key);
    assert Places(s, t, key);
    match e
    case Tick(elapsed) => BlockedLater(q, t, s.now, s.now + elapsed, deadline);
    case Enqueue(u) => BlockedAppend(q, Caller(u), t, s.now, deadline);
    case Respond(_, w) => BlockedAppend(q, w, t, s.now, deadline);
    case Serve(k) =>
      var front := QueueOf(s, k)[0];
      if front.Caller? {
        assert Places(s, front.task, k);
      }
    case WakeBucket(u) => assert Guarded(s, u);
    case Cancel(u) => if u != t { BlockedWithout(q, u, t, s.now, deadline); }
    case Withdraw(k, i) => if k == key { BlockedCut(q, i, t, s.now, deadline); }
    case _ =>
  }

  lemma HeldStep(s: State, e: Event, t: Task, deadline: Time)
    requires Orderly(s) && Enabled(s, e) && Held(s, t, deadline)
    requires s.globalUntil.Some? && s.globalUntil.value >= deadline
    ensures Held(Step(s, e), t, deadline) && (Returning(s, e) == Some(t) ==> s.now >= deadline)
  {
    if s.now < deadline {
      if IsAt(s, t, Queued) {
        QueuedHeldStep(s, e, t, deadline);
      } else if e.Serve? && QueueOf(s, e.key)[0].Caller? {
        assert Places(s, QueueOf(s, e.key)[0].task, e.key);
      }
    }
  }

  lemma {:induction false} HeldStays(s: State, es: seq<Event>, t: Task, deadline: Time)
    requires Orderly(s) && IsRun(s, es) && Held(s, t, deadline)
    requires s.globalUntil.Some? && s.globalUntil.value >= deadline
    ensures !ReturnsInRun(s, es, t, deadline)
    decreases |es|
  {
    if es != [] {
      HeldStep(s, es[0], t, deadline);
      StepOrderly(s, es[0]);
      HeldStays(Step(s, es[0]), es[1..], t, deadline);
    }
  }

  lemma OneMore(s: State, e: Event, rest: seq<Event>, t: Task, deadline: Time)
    requires Enabled(s, e) && IsRun(Step(s, e), rest)
    ensures IsRun(s, [e] + rest)
    ensures ReturnsInRun(s, [e] + rest, t, deadline)
        <==> (Returning(s, e) == Some(t) && s.now < deadline) || ReturnsInRun(Step(s, e), rest, t, deadline)
  {
    assert ([e] + rest)[1..] == rest;
  }

  /** A sleeper on its bucket wakes in time. */
  lemma SleeperRun(s: State, t: Task, deadline: Time) returns (es: seq<Event>)
    requires t in s.calls && s.calls[t].pc.Holds? && s.calls[t].pc.wake < deadline && s.now < deadline
    ensures IsRun(s, es) && ReturnsInRun(s, es, t, deadline)
  {
    var tick := Tick(if s.calls[t].pc.wake > s.now then s.calls[t].pc.wake - s.now else 0);
    es := [WakeBucket(t)] + [];
    OneMore(Step(s, tick), WakeBucket(t), [], t, deadline);
    OneMore(s, tick, es, t, deadline);
    es := [tick] + es;
  }

  /** First in the queue of a bucket that opens in time. */
  lemma FrontRun(s: State, t: Task, deadline: Time) returns (es: seq<Event>)
    requires IsAt(s, t, Queued) && !Held(s, t, deadline)
    requires QueueOf(s, s.calls[t].key) != [] && QueueOf(s, s.calls[t].key)[0] == Caller(t)
    ensures IsRun(s, es) && ReturnsInRun(s, es, t, deadline)
  {
    var serve := Serve(s.calls[t].key);
    var rest := [];
    if Exhausted(BucketOf(s, s.calls[t].key), s.now) {
      rest := SleeperRun(Step(s, serve), t, deadline);
    }
    OneMore(s, serve, rest, t, deadline);
    es := [serve] + rest;
  }

  /** How to get rid of the front of a queue: drop it, unless it opens the bucket. */
  function Clear(s: State, key: Key, deadline: Time): Event
    requires QueueOf(s, key) != []
  {
    var front := QueueOf(s, key)[0];
    if front.Caller? then Cancel(front.task)
    else if Blocked(Written(front, s.now), deadline) then Withdraw(key, 0)
    else Serve(key)
  }

  lemma Cleared(s: State, t: Task, deadline: Time)
    requires Orderly(s) && IsAt(s, t, Queued) && !Held(s, t, deadline)
    requires QueueOf(s, s.calls[t].key) != [] && QueueOf(s, s.calls[t].key)[0] != Caller(t)
    ensures var key, e := s.calls[t].key, Clear(s, s.calls[t].key, deadline);
            && Enabled(s, e) && IsAt(Step(s, e), t, Queued) && !Held(Step(s, e), t, deadline)
            && Step(s, e).calls[t].key == key && QueueOf(Step(s, e), key) == QueueOf(s, key)[1..]
  {
    var key := s.calls[t].key;
    var q := QueueOf(s, key);
    if q[0].Caller? {
      assert Places(s, q[0].task, key);
      WithoutFirst(q);
    } else {
      assert Cut(q, 0) == q[1..];
    }
  }

  /** Behind others, the task gets through once they have been cleared. */
  lemma {:induction false} QueuedRun(s: State, t: Task, deadline: Time) returns (es: seq<Event>)
    requires Orderly(s) && IsAt(s, t, Queued) && !Held(s, t, deadline)
    ensures IsRun(s, es) && ReturnsInRun(s, es, t, deadline)
    decreases |QueueOf(s, s.calls[t].key)|
  {
    var key := s.calls[t].key;
    assert Places(s, t, key);
    if QueueOf(s, key)[0] == Caller(t) {
      es := FrontRun(s, t, deadline);
    } else {
      var e := Clear(s, key, deadline);
      Cleared(s, t, deadline);
      StepOrderly(s, e);
      es := QueuedRun(Step(s, e), t, deadline);
      OneMore(s, e, es, t, deadline);
      es := [e] + es;
    }
  }

  lemma {:induction false} OpenAhead(q: seq<Waiter>, w: Waiter, t: Task, now: Time, deadline: Time)
    requires Caller(t) !in q && !w.Caller? && !Blocked(Written(w, now), deadline)
    ensures !BlockedAhead(q + [w] + [Caller(t)], t, now, deadline)
  {
    if q != [] {
      OpenAhead(q[1..], w, t, now, deadline);
      assert (q + [w] + [Caller(t)])[1..] == q[1..] + [w] + [Caller(t)];
    }
  }

  /** Before it queues, the task gets through if fresh headers queue first. */
  lemma ArrivingRun(s: State, t: Task, deadline: Time) returns (es: seq<Event>)
    requires Orderly(s) && IsAt(s, t, Arriving) && s.now < deadline
    ensures IsRun(s, es) && ReturnsInRun(s, es, t, deadline)
  {
    var key, refill := s.calls[t].key, Headers(None, None);
    assert Places(s, t, key);
    var s1 := Step(s, Respond(key, refill));
    var s2 := Step(s1, Enqueue(t));
    StepOrderly(s, Respond(key, refill));
    StepOrderly(s1, Enqueue(t));
    OpenAhead(QueueOf(s, key), refill, t, s.now, deadline);
    es := QueuedRun(s2, t, deadline);
    OneMore(s1, Enqueue(t), es, t, deadline);
    es := [Enqueue(t)] + es;
    OneMore(s, Respond(key, refill), es, t, deadline);
    es := [Respond(key, refill)] + es;
  }

  /** A task that is not held can get through before the deadline. */
  lemma EarlyRun(s: State, t: Task, deadline: Time) returns (es: seq<Event>)
    requires Orderly(s) && !Held(s, t, deadline)
    ensures IsRun(s, es) && ReturnsInRun(s, es, t, deadline)
  {
    match s.calls[t].pc
    case Arriving => es := ArrivingRun(s, t, deadline);
    case Queued => es := QueuedRun(s, t, deadline);
    case Holds(_) => es := SleeperRun(s, t, deadline);
    case AsleepGlobal(wake) =>
      var tick := Tick(if wake > s.now then wake - s.now else 0);
      var s1 := Step(s, tick);
      StepOrderly(s, tick);
      StepOrderly(s1, WakeGlobal(t));
      es := ArrivingRun(Step(s1, WakeGlobal(t)), t, deadline);
      OneMore(s1, WakeGlobal(t), es, t, deadline);
      es := [WakeGlobal(t)] + es;
      OneMore(s, tick, es, t, deadline);
      es := [tick] + es;
  }

  /**
   After a global 429 a task may return before its deadline exactly when it has not queued yet and sleeps
   towards an earlier time at most, sleeps on its bucket towards an earlier time, or queues
   for a bucket that opens before the deadline or is opened by headers or a penalty ahead of it. A call
   that begins later cannot; one asleep on an earlier global window can, since the window is not
   looked at again.
   */
  lemma GlobalLimited(s: State, retryAfter: nat, t: Task)
    requires Orderly(s)
    ensures var limited, deadline := Step(s, PenalizeAll(retryAfter)), s.now + retryAfter;
            MayReturnBefore(limited, t, deadline) <==> !Held(limited, t, deadline)
  {
    var limited, deadline := Step(s, PenalizeAll(retryAfter)), s.now + retryAfter;
    StepOrderly(s, PenalizeAll(retryAfter));
    if Held(limited, t, deadline) {
      forall es | IsRun(limited, es)
        ensures !ReturnsInRun(limited, es, t, deadline)
      {
        HeldStays(limited, es, t, deadline);
      }
    } else {
      var es := EarlyRun(limited, t, deadline);
      assert IsRun(limited, es) && ReturnsInRun(limited, es, t, deadline);
    }
  }
}
