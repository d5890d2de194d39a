/**
 Playback pacing of the Go client. Times are nanoseconds; how long the source, the socket
 and the scheduler take is up to the environment.
 */
module Pacing {

  /** The start of slot `n`, relative to the start of playback: 20 ms each. */
  function Slot(n: int): int { 20_000_000 * n }

  /** How late the loop may run before it gives up its schedule: 100 ms. */
  const LAG: int := 100_000_000

  /** One loop turn: an empty packet is skipped, a frame is sent and then paced. */
  datatype Turn =
    | Empty(read: nat)
    | Frame(read: nat, send: nat, oversleep: nat, pause: nat)

  datatype Pace = Slept | OnTime | Resynced

  /** Sending began and ended at these times; the loop went on at `after`. */
  datatype Sent = Sent(began: int, ended: int, pace: Pace, after: int, oversleep: nat)

  /** The first `n` frames were paced without resynchronisation. */
  predicate Steady(trace: seq<Sent>, n: nat)
    requires n <= |trace|
  {
    forall k | 0 <= k < n :: trace[k].pace != Resynced
  }

  /** However the delays fall, m - j frames later is at least 20(m - j) - 120 ms later. */
  ghost predicate NoBurst(trace: seq<Sent>) {
    forall j, m | 0 <= j < m < |trace| :: trace[m].began - trace[j].ended >= Slot(m - j) - Slot(1) - LAG
  }

  /** Without resynchronisation no frame goes out before its slot. */
  ghost predicate NeverEarly(start: int, trace: seq<Sent>) {
    forall m {:trigger Steady(trace, m)} | 0 <= m < |trace| && Steady(trace, m) :: trace[m].began >= start + Slot(m)
  }

  /** Lateness does not accumulate: after a sleep the loop is on the absolute schedule again. */
  ghost predicate NoDrift(start: int, trace: seq<Sent>) {
    forall m {:trigger Steady(trace, m)} | 0 <= m < |trace| && Steady(trace, m) && trace[m].pace == Slept ::
      trace[m].after == start + Slot(m + 1) + trace[m].oversleep
  }

  /** On schedule so far, the loop resynchronises exactly when it is more than 100 ms late. */
  ghost predicate ResyncWhenLate(start: int, trace: seq<Sent>) {
    forall m {:trigger Steady(trace, m)} | 0 <= m < |trace| && Steady(trace, m) ::
      trace[m].pace == Resynced <==> trace[m].ended > start + Slot(m + 1) + LAG
  }

  /** What `next`, the slot of the coming frame, says about the frames sent. */
  ghost predicate Schedule(start: int, trace: seq<Sent>, next: int) {
    && (forall j | 0 <= j < |trace| :: next >= trace[j].ended - LAG + Slot(|trace| - j - 1))
    && (Steady(trace, |trace|) ==> next == start + Slot(|trace|))
  }

  /** One frame sent at or after its slot and paced. */
  ghost predicate PacedBy(s: Sent, next: int, next': int) {
    && next <= s.began <= s.ended
    && match s.pace
       case Slept => s.ended < next + Slot(1) && next' == next + Slot(1) && s.after == next' + s.oversleep
       case OnTime => next' == next + Slot(1) && next' <= s.ended <= next' + LAG && s.after == s.ended
       case Resynced => s.ended > next + Slot(1) + LAG && next' == s.after >= s.ended
  }

  lemma ScheduleStep(start: int, trace: seq<Sent>, next: int, s: Sent, next': int)
    requires Schedule(start, trace, next) && PacedBy(s, next, next')
    ensures Schedule(start, trace + [s], next')
  {
    var all := trace + [s];
    assert next' >= next + Slot(1) && next' >= s.ended - LAG;
    forall j | 0 <= j < |all|
      ensures next' >= all[j].ended - LAG + Slot(|all| - j - 1)
    {
      if j < |trace| {
        assert next >= trace[j].ended - LAG + Slot(|trace| - j - 1);
      }
    }
    if Steady(all, |all|) {
      assert s == all[|trace|];
      assert forall k | 0 <= k < |trace| :: all[k] == trace[k];
      assert Steady(trace, |trace|);
    }
  }

  lemma NoBurstStep(start: int, trace: seq<Sent>, next: int, s: Sent)
    requires Schedule(start, trace, next) && next <= s.began && NoBurst(trace)
    ensures NoBurst(trace + [s])
  {
    var all := trace + [s];
    forall j, m | 0 <= j < m < |all|
      ensures all[m].began - all[j].ended >= Slot(m - j) - Slot(1) - LAG
    {
      assert all[j] == trace[j];
      if m < |trace| {
        assert all[m] == trace[m];
      }
    }
  }

  lemma SteadyPrefix(trace: seq<Sent>, s: Sent, n: nat)
    requires n <= |trace|
    ensures Steady(trace + [s], n) <==> Steady(trace, n)
  {
    var all := trace + [s];
    assert forall k | 0 <= k < n :: all[k] == trace[k];
  }

  lemma SteadyStep(start: int, trace: seq<Sent>, next: int, s: Sent, next': int)
    requires Schedule(start, trace, next) && PacedBy(s, next, next')
    requires NeverEarly(start, trace) && NoDrift(start, trace) && ResyncWhenLate(start, trace)
    ensures NeverEarly(start, trace + [s]) && NoDrift(start, trace + [s]) && ResyncWhenLate(start, trace + [s])
  {
    var all := trace + [s];
    forall m | 0 <= m < |all| && Steady(all, m)
      ensures all[m].began >= start + Slot(m)
      ensures all[m].pace == Slept ==> all[m].after == start + Slot(m + 1) + all[m].oversleep
      ensures all[m].pace == Resynced <==> all[m].ended > start + Slot(m + 1) + LAG
    {
      SteadyPrefix(trace, s, m);
      if m < |trace| {
        assert all[m] == trace[m];
      } else {
        assert all[m] == s;
      }
    }
  }

  /** Sends one frame at `now`, moves the deadline on and waits for it. */
  function SendAndPace(turn: Turn, now: int, next: int): (Sent, int)
    requires turn.Frame?
  {
    var ended := now + turn.send;
    var due := next + Slot(1);
    if due > ended then (Sent(now, ended, Slept, due + turn.oversleep, turn.oversleep), due)
    else if ended > due + LAG then
      (Sent(now, ended, Resynced, ended + turn.pause, turn.oversleep), ended + turn.pause)
    else (Sent(now, ended, OnTime, ended, turn.oversleep), due)
  }

  /** Where the loop stands: the frames sent so far, the time, and the slot of the next frame. */
  datatype State = State(trace: seq<Sent>, now: int, next: int)

  function Turned(s: State, turn: Turn): State {
    if turn.Empty? then s.(now := s.now + turn.read)
    else
      var (sent, due) := SendAndPace(turn, s.now + turn.read, s.next);
      State(s.trace + [sent], sent.after, due)
  }

  function After(start: int, turns: seq<Turn>, n: nat): State
    requires n <= |turns|
  {
    if n == 0 then State([], start, start) else Turned(After(start, turns, n - 1), turns[n - 1])
  }

  /** The playback loop: one paced frame for every non-empty packet of the source. */
  method Play(start: int, turns: seq<Turn>) returns (trace: seq<Sent>)
    ensures trace == After(start, turns, |turns|).trace && Paced(start, trace)
  {
    PlaybackIsPaced(start, turns, |turns|);
    trace := [];
    var now, next := start, start;
    for i := 0 to |turns|
      invariant After(start, turns, i) == State(trace, now, next)
    {
      now := now + turns[i].read;
      if turns[i].Empty? {
        continue;
      }
      var began := now;
      now := now + turns[i].send;
      var ended := now;
      next := next + Slot(1);
      var delay := next - now;
      var pace := OnTime;
      if delay > 0 {
        now := now + delay + turns[i].oversleep;
        pace := Slept;
      } else if delay < -LAG {
        now := now + turns[i].pause;
        next := now;
        pace := Resynced;
      }
      trace := trace + [Sent(began, ended, pace, now, turns[i].oversleep)];
    }
  }

  lemma PaceOne(turn: Turn, now: int, next: int)
    requires turn.Frame? && now >= next
    ensures var (sent, due) := SendAndPace(turn, now, next); PacedBy(sent, next, due) && sent.after >= due
  {
  }

  /** The four pacing laws of a whole playback. */
  ghost predicate Paced(start: int, trace: seq<Sent>) {
    NoBurst(trace) && NeverEarly(start, trace) && NoDrift(start, trace) && ResyncWhenLate(start, trace)
  }

  lemma PacedStep(start: int, trace: seq<Sent>, next: int, s: Sent, next': int)
    requires Schedule(start, trace, next) && PacedBy(s, next, next') && Paced(start, trace)
    ensures Schedule(start, trace + [s], next') && Paced(start, trace + [s])
  {
    ScheduleStep(start, trace, next, s, next');
    NoBurstStep(start, trace, next, s);
    SteadyStep(start, trace, next, s, next');
  }

  /** How many of the first `n` turns have a frame. */
  function Frames(turns: seq<Turn>, n: nat): nat
    requires n <= |turns|
  {
    if n == 0 then 0 else Frames(turns, n - 1) + if turns[n - 1].Frame? then 1 else 0
  }

  /** Turn `i` is the `m`-th with a frame. */
  ghost predicate IsFrame(turns: seq<Turn>, i: nat, m: nat) {
    i < |turns| && turns[i].Frame? && Frames(turns, i) == m
  }

  /**
   Every frame is sent, once and in order: the `m`-th frame begins when the loop comes back to it and its
   packet has been read, and takes as long as its sending takes.
   */
  lemma {:induction false} EveryFrameIsSent(start: int, turns: seq<Turn>, n: nat)
    requires n <= |turns|
    ensures |After(start, turns, n).trace| == Frames(turns, n)
    ensures forall i: nat, m: nat | i < n && IsFrame(turns, i, m) ::
              var trace := After(start, turns, n).trace;
              m < |trace| && trace[m].began == After(start, turns, i).now + turns[i].read
              && trace[m].ended == trace[m].began + turns[i].send
    ensures n > 0 && turns[n - 1].Empty? ==>
              After(start, turns, n) == After(start, turns, n - 1).(now := After(start, turns, n - 1).now + turns[n - 1].read)
    ensures n > 0 && turns[n - 1].Frame? ==>
              var s, trace := After(start, turns, n), After(start, turns, n).trace; s.now == trace[|trace| - 1].after
  {
    if n > 0 {
      EveryFrameIsSent(start, turns, n - 1);
    }
  }

  /** Every playback, whatever the delays, keeps all four pacing laws. */
  lemma {:induction false} PlaybackIsPaced(start: int, turns: seq<Turn>, n: nat)
    requires n <= |turns|
    ensures var s := After(start, turns, n); s.now >= s.next && Schedule(start, s.trace, s.next) && Paced(start, s.trace)
  {
    if n > 0 {
      PlaybackIsPaced(start, turns, n - 1);
      var s, turn := After(start, turns, n - 1), turns[n - 1];
      if turn.Frame? {
        var (sent, due) := SendAndPace(turn, s.now + turn.read, s.next);
        PaceOne(turn, s.now + turn.read, s.next);
        PacedStep(start, s.trace, s.next, sent, due);
      }
    }
  }

  /**
   The laws in nanoseconds. Frame m ends no burst: it begins at least 20(m - j) - 120 ms after frame j ended.
   With no resynchronisation before it, it begins at or after start + 20m ms; a sleep after it ends at
   start + 20(m + 1) ms and the oversleep; and it resynchronises exactly when it ends over 100 ms later than that.
   */
  lemma InNanoseconds(start: int, trace: seq<Sent>, j: nat, m: nat)
    requires Paced(start, trace) && j < m < |trace|
    ensures trace[m].began - trace[j].ended >= 20_000_000 * (m - j) - 120_000_000
    ensures (forall k | 0 <= k < m :: trace[k].pace != Resynced) ==>
              && trace[m].began >= start + 20_000_000 * m
              && (trace[m].pace == Slept ==> trace[m].after == start + 20_000_000 * (m + 1) + trace[m].oversleep)
              && (trace[m].pace == Resynced <==> trace[m].ended > start + 20_000_000 * (m + 1) + 100_000_000)
  {
    assert Slot(m - j) == 20_000_000 * (m - j);
    if forall k | 0 <= k < m :: trace[k].pace != Resynced {
      assert Steady(trace, m);
    }
  }
}
