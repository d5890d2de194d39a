/**
 Heartbeats of one gateway connection, as steps of the network, the reader and the heartbeat loop in
 any order. Go passes acknowledgements through a channel of size one; Rust shares one flag
 between the reader and every heartbeat loop it has spawned.
 */
module GoHeartbeat {
  import opened Common
  import GoGateway

  /**
   `unread` frames have arrived and wait to be read, `missed` is the close reason left for the reader, and
   `ended` is how the reader ended the connection.
   */
  datatype State = State(unread: nat, open: bool, missed: bool, ended: Option<GoGateway.End>,
                         ackQueued: bool, beatQueued: bool, awaiting: bool, running: bool)

  datatype Event =
    | Arrives                         // network: a frame arrives
    | AckRead                         // reader: op 11
    | BeatAsked                       // reader: op 1
    | OtherRead                       // reader: any other frame that keeps the connection
    | FrameEnds(end: GoGateway.End)   // reader: op 7 or op 9
    | ReadFails(end: GoGateway.End)   // reader: a close or a broken read, unless a reason was left
    | AckTaken                        // loop: receives from the ACK channel
    | AskedBeat                       // loop: sends because the server asked
    | TimerBeat                       // loop: the timer fires and a heartbeat goes out
    | TimerMissed                     // loop: the timer fires with no ACK; the connection is closed
    | SendFailed                      // loop: a send fails
    | Stopped                         // loop: the reader has ended

  predicate Enabled(s: State, e: Event) {
    match e
    case Arrives => s.open
    case AckRead => s.ended.None? && s.unread > 0
    case BeatAsked => s.ended.None? && s.unread > 0
    case OtherRead => s.ended.None? && s.unread > 0
    case FrameEnds(end) => s.ended.None? && s.unread > 0 && (end.ReconnectAsked? || end.Invalid?)
    case ReadFails(end) => s.ended.None? && (end.Closed? || end.Broken?)
    case AckTaken => s.running && s.ackQueued
    case AskedBeat => s.running && s.beatQueued
    case TimerBeat => s.running && !s.awaiting
    case TimerMissed => s.running && s.awaiting
    case SendFailed => s.running
    case Stopped => s.running && s.ended.Some?
  }

  function Step(s: State, e: Event): State
    requires Enabled(s, e)
  {
    match e
    case Arrives => s.(unread := s.unread + 1)
    case AckRead => s.(unread := s.unread - 1, ackQueued := true)
    case BeatAsked => s.(unread := s.unread - 1, beatQueued := true)
    case OtherRead => s.(unread := s.unread - 1)
    case FrameEnds(end) => s.(unread := s.unread - 1, ended := Some(end), open := false)
    case ReadFails(end) => s.(ended := Some(if s.missed then GoGateway.MissedAck else end), open := false)
    case AckTaken => s.(ackQueued := false, awaiting := false)
    case AskedBeat => s.(beatQueued := false, awaiting := true)
    case TimerBeat => s.(awaiting := true)
    case TimerMissed => s.(running := false, missed := true, open := false)
    case SendFailed => s.(running := false)
    case Stopped => s.(running := false)
  }

  predicate IsRun(s: State, es: seq<Event>)
    decreases |es|
  {
    es == [] || (Enabled(s, es[0]) && IsRun(Step(s, es[0]), es[1..]))
  }

  /** The state after the first `n` steps. */
  function At(s: State, es: seq<Event>, n: nat): State
    requires IsRun(s, es) && n <= |es|
    decreases |es|
  {
    if n == 0 then s else At(Step(s, es[0]), es[1..], n - 1)
  }

  function Count(es: seq<Event>, e: Event): nat {
    if es == [] then 0 else (if es[0] == e then 1 else 0) + Count(es[1..], e)
  }

  predicate Firing(e: Event) {
    e.TimerBeat? || e.TimerMissed?
  }

  lemma {:induction false} NeedsAck(s: State, es: seq<Event>, n: nat) returns (k: nat)
    requires IsRun(s, es) && s.awaiting && n < |es| && es[n] == TimerBeat
    ensures k < n && es[k] == AckTaken
    decreases |es|
  {
    if es[0] == AckTaken {
      k := 0;
    } else {
      k := NeedsAck(Step(s, es[0]), es[1..], n - 1);
      k := k + 1;
    }
  }

  /** Between two timer heartbeats the loop took an acknowledgement. */
  lemma {:induction false} AckBetweenBeats(s: State, es: seq<Event>, i: nat, j: nat) returns (k: nat)
    requires IsRun(s, es) && i < j < |es| && es[i] == TimerBeat && es[j] == TimerBeat
    ensures i < k < j && es[k] == AckTaken
    decreases |es|
  {
    if i == 0 {
      k := NeedsAck(Step(s, es[0]), es[1..], j - 1);
    } else {
      k := AckBetweenBeats(Step(s, es[0]), es[1..], i - 1, j - 1);
    }
    k := k + 1;
  }

  /** A timer that fires after an ACK was taken, with no heartbeat since, sends one. */
  lemma {:induction false} AckedFiringBeats(s: State, es: seq<Event>, i: nat, j: nat)
    requires IsRun(s, es) && i < j < |es| && es[i] == AckTaken && Firing(es[j])
    requires forall k | i < k < j :: es[k] != TimerBeat && es[k] != AskedBeat
    ensures es[j] == TimerBeat
    decreases |es|
  {
    if i == 0 {
      FreeFiringBeats(Step(s, es[0]), es[1..], j - 1);
    } else {
      AckedFiringBeats(Step(s, es[0]), es[1..], i - 1, j - 1);
    }
  }

  lemma {:induction false} FreeFiringBeats(s: State, es: seq<Event>, j: nat)
    requires IsRun(s, es) && !s.awaiting && j < |es| && Firing(es[j])
    requires forall k | 0 <= k < j :: es[k] != TimerBeat && es[k] != AskedBeat
    ensures es[j] == TimerBeat
    decreases |es|
  {
    if j > 0 {
      FreeFiringBeats(Step(s, es[0]), es[1..], j - 1);
    }
  }

  /** An ACK that was read can be taken until it is: it is not lost while the loop runs. */
  lemma {:induction false} AckStaysQueued(s: State, es: seq<Event>)
    requires IsRun(s, es) && s.ackQueued && forall k | 0 <= k < |es| :: es[k] != AckTaken
    ensures At(s, es, |es|).running ==> Enabled(At(s, es, |es|), AckTaken)
    decreases |es|
  {
    if es != [] {
      AckStaysQueued(Step(s, es[0]), es[1..]);
    }
  }

  /** No acknowledgement counts twice: heartbeats by timer outnumber received ACKs by at most one. */
  lemma {:induction false} BeatsArePaidFor(s: State, es: seq<Event>)
    requires IsRun(s, es)
    ensures Count(es, TimerBeat) <= Count(es, AckTaken) + (if s.awaiting then 0 else 1)
    ensures Count(es, AckTaken) <= Count(es, AckRead) + (if s.ackQueued then 1 else 0)
    decreases |es|
  {
    if es != [] {
      BeatsArePaidFor(Step(s, es[0]), es[1..]);
    }
  }

  // ---- A missing acknowledgement ends the connection -------------------------

  predicate ByReader(e: Event) {
    e.AckRead? || e.BeatAsked? || e.OtherRead? || e.FrameEnds? || e.ReadFails?
  }

  /** Frames taken off the connection. */
  function Reads(es: seq<Event>): nat {
    if es == [] then 0 else (if ByReader(es[0]) && !es[0].ReadFails? then 1 else 0) + Reads(es[1..])
  }

  /** How a connection may stand after its ACK was missed while the reader was at `mid`. */
  ghost predicate Recycled(mid: State, es: seq<Event>, last: State) {
    && Reads(es) <= mid.unread
    && (last.ended.Some? ==>
          || last.ended == Some(GoGateway.MissedAck)
          || exists k :: 0 <= k < |es| && es[k].FrameEnds? && last.ended == Some(es[k].end))
    && (last.ended.None? && Reads(es) == mid.unread ==>
          forall e | ByReader(e) && Enabled(last, e) :: Step(last, e).ended == Some(GoGateway.MissedAck))
  }

  lemma {:induction false} Frozen(s: State, es: seq<Event>)
    requires IsRun(s, es) && s.ended.Some?
    ensures At(s, es, |es|).ended == s.ended && Reads(es) == 0
    decreases |es|
  {
    if es != [] {
      Frozen(Step(s, es[0]), es[1..]);
    }
  }

  /** Once the reason is left and the socket closed, the reader only works off what has arrived. */
  lemma {:induction false} WorksOff(s: State, es: seq<Event>)
    requires IsRun(s, es) && s.missed && !s.open && s.ended.None?
    ensures Recycled(s, es, At(s, es, |es|))
    decreases |es|
  {
    if es != [] {
      var next, rest := Step(s, es[0]), es[1..];
      if next.ended.Some? {
        Frozen(next, rest);
        assert es[0].FrameEnds? ==> next.ended == Some(es[0].end);
      } else {
        WorksOff(next, rest);
        EarlierStep(s, es, At(next, rest, |rest|));
      }
    }
  }

  lemma EarlierStep(s: State, es: seq<Event>, last: State)
    requires es != [] && Enabled(s, es[0]) && !s.open && Step(s, es[0]).ended.None?
    requires Recycled(Step(s, es[0]), es[1..], last)
    ensures Recycled(s, es, last)
  {
    var rest := es[1..];
    if k :| 0 <= k < |rest| && rest[k].FrameEnds? && last.ended == Some(rest[k].end) {
      assert es[k + 1] == rest[k];
    }
  }

  /** A timer that fires again with no ACK taken since finds it missing. */
  lemma {:induction false} SecondFiringMisses(s: State, es: seq<Event>, j: nat)
    requires IsRun(s, es) && s.awaiting && j < |es| && Firing(es[j])
    requires forall k | 0 <= k < j :: es[k] != AckTaken
    ensures es[j] == TimerMissed
    decreases |es|
  {
    if j > 0 {
      SecondFiringMisses(Step(s, es[0]), es[1..], j - 1);
    }
  }

  lemma {:induction false} MissRecycles(s: State, es: seq<Event>, j: nat)
    requires IsRun(s, es) && j < |es| && es[j] == TimerMissed
    ensures var mid, last := At(s, es, j), At(s, es, |es|);
            && (mid.ended.Some? ==> last.ended == mid.ended)
            && (mid.ended.None? ==> Recycled(mid, es[j + 1..], last))
    decreases |es|
  {
    var next, rest := Step(s, es[0]), es[1..];
    if j > 0 {
      MissRecycles(next, rest, j - 1);
      assert rest[j..] == es[j + 1..];
    } else if next.ended.Some? {
      Frozen(next, rest);
    } else {
      WorksOff(next, rest);
    }
  }

  /**
   Two timer firings with no ACK taken between them: the second finds it missing. Unless the reader had
   already ended the connection, it then works off at most the frames that have arrived, one of
   which may end it, and after them can only end it as a missed ACK, which is resumed.
   */
  lemma {:induction false} MissEndsForResume(s: State, es: seq<Event>, i: nat, j: nat)
    requires IsRun(s, es) && i < j < |es| && es[i] == TimerBeat && Firing(es[j])
    requires forall k | i < k < j :: es[k] != AckTaken
    ensures es[j] == TimerMissed
    ensures var mid, last := At(s, es, j), At(s, es, |es|);
            && (mid.ended.Some? ==> last.ended == mid.ended)
            && (mid.ended.None? ==> Recycled(mid, es[j + 1..], last))
    ensures forall frames :: GoGateway.ActionAfter(GoGateway.Live(frames, GoGateway.MissedAck)) == GoGateway.Resume
    decreases |es|
  {
    if i == 0 {
      SecondFiringMisses(Step(s, es[0]), es[1..], j - 1);
      MissRecycles(s, es, j);
    } else {
      MissEndsForResume(Step(s, es[0]), es[1..], i - 1, j - 1);
      assert es[1..][j..] == es[j + 1..];
    }
  }

  /** Once a timer finds the ACK missing, the loop sends nothing more on this connection. */
  lemma {:induction false} SilentAfterMiss(s: State, es: seq<Event>, i: nat, j: nat)
    requires IsRun(s, es) && i < j < |es| && es[i] == TimerMissed
    ensures !es[j].TimerBeat? && !es[j].AskedBeat?
    decreases |es|
  {
    if i > 0 {
      SilentAfterMiss(Step(s, es[0]), es[1..], i - 1, j - 1);
    } else {
      SilentOnceStopped(Step(s, es[0]), es[1..], j - 1);
    }
  }

  lemma {:induction false} SilentOnceStopped(s: State, es: seq<Event>, j: nat)
    requires IsRun(s, es) && !s.running && j < |es|
    ensures !es[j].TimerBeat? && !es[j].AskedBeat?
    decreases |es|
  {
    if j > 0 {
      SilentOnceStopped(Step(s, es[0]), es[1..], j - 1);
    }
  }
}

module RustHeartbeat {
  import opened Common
  import RustGateway

  datatype Outgoing = Payload | MissedAck

  /** A loop sleeps, or waits for room in the outbound channel. */
  datatype Phase = Asleep | Sending(message: Outgoing)

  /**
   `loops` holds every spawned loop that has not stopped, aborted ones included; `current` is the one that is
   not aborted. `ended` is what the reader does next once it has left the connection.
   */
  datatype State = State(ackReceived: bool, loops: map<nat, Phase>, current: Option<nat>,
                         outbound: seq<Outgoing>, ended: Option<RustGateway.Action>)

  const INITIAL := State(true, map[], None, [], None)

  datatype Event =
    | Ack                                     // reader: op 11
    | Hello(spawned: nat)                     // reader: op 10; the previous loop is aborted, a new one spawned
    | Take(sent: bool)                        // reader: takes the next outbound message and sends it
    | Otherwise(action: RustGateway.Action)   // reader: ends for any other cause
    | Beat(loop: nat)                         // a loop found the flag set, cleared it and has a heartbeat to send
    | Late(loop: nat)                         // a loop found the flag clear and has a missed ACK to report
    | Push(loop: nat)                         // a loop's message gets into the channel
    | Gone(loop: nat)                         // an aborted loop stops, or one whose connection has ended

  predicate Enabled(s: State, e: Event) {
    match e
    case Ack => s.ended.None?
    case Hello(t) => s.ended.None? && t !in s.loops
    case Take(_) => s.ended.None? && s.outbound != []
    case Otherwise(_) => s.ended.None?
    case Beat(t) => t in s.loops && s.loops[t] == Asleep && s.ackReceived
    case Late(t) => t in s.loops && s.loops[t] == Asleep && !s.ackReceived
    case Push(t) => s.ended.None? && t in s.loops && s.loops[t].Sending? && |s.outbound| < 64
    case Gone(t) => t in s.loops && (s.current != Some(t) || s.ended.Some?)
  }

  function Step(s: State, e: Event): State
    requires Enabled(s, e)
  {
    match e
    case Ack => s.(ackReceived := true)
    case Hello(t) => s.(ackReceived := true, loops := s.loops[t := Asleep], current := Some(t))
    case Take(sent) =>
      var next := s.(outbound := s.outbound[1..]);
      if s.outbound[0] == MissedAck || !sent then next.(ended := Some(RustGateway.Resume)) else next
    case Otherwise(action) => s.(ended := Some(action))
    case Beat(t) => s.(ackReceived := false, loops := s.loops[t := Sending(Payload)])
    case Late(t) => s.(loops := s.loops[t := Sending(MissedAck)])
    case Push(t) =>
      var message := s.loops[t].message;
      s.(outbound := s.outbound + [message],
         loops := if message == MissedAck then s.loops - {t} else s.loops[t := Asleep])
    case Gone(t) => s.(loops := s.loops - {t})
  }

  predicate IsRun(s: State, es: seq<Event>)
    decreases |es|
  {
    es == [] || (Enabled(s, es[0]) && IsRun(Step(s, es[0]), es[1..]))
  }

  function After(s: State, es: seq<Event>): State
    requires IsRun(s, es)
    decreases |es|
  {
    if es == [] then s else After(Step(s, es[0]), es[1..])
  }

  function Beats(es: seq<Event>): nat {
    if es == [] then 0 else (if es[0].Beat? then 1 else 0) + Beats(es[1..])
  }

  predicate Grants(e: Event) {
    e.Ack? || e.Hello?
  }

  function Granted(es: seq<Event>): nat {
    if es == [] then 0 else (if Grants(es[0]) then 1 else 0) + Granted(es[1..])
  }

  lemma {:induction false} NeedsGrant(s: State, es: seq<Event>, n: nat) returns (k: nat)
    requires IsRun(s, es) && !s.ackReceived && n < |es| && es[n].Beat?
    ensures k < n && Grants(es[k])
    decreases |es|
  {
    if Grants(es[0]) {
      k := 0;
    } else {
      k := NeedsGrant(Step(s, es[0]), es[1..], n - 1);
      k := k + 1;
    }
  }

  /** Between two heartbeats, of the same loop or of different ones, the reader saw an ACK or a HELLO. */
  lemma {:induction false} GrantBetweenBeats(s: State, es: seq<Event>, i: nat, j: nat) returns (k: nat)
    requires IsRun(s, es) && i < j < |es| && es[i].Beat? && es[j].Beat?
    ensures i < k < j && Grants(es[k])
    decreases |es|
  {
    if i == 0 {
      k := NeedsGrant(Step(s, es[0]), es[1..], j - 1);
    } else {
      k := GrantBetweenBeats(Step(s, es[0]), es[1..], i - 1, j - 1);
    }
    k := k + 1;
  }

  /** A loop that looks at the flag after an ACK or a HELLO, with no heartbeat since, sends one. */
  lemma {:induction false} GrantedFiringBeats(s: State, es: seq<Event>, i: nat, j: nat)
    requires IsRun(s, es) && i < j < |es| && Grants(es[i]) && (es[j].Beat? || es[j].Late?)
    requires forall k | i < k < j :: !es[k].Beat?
    ensures es[j].Beat?
    decreases |es|
  {
    if i == 0 {
      FreeFiringBeats(Step(s, es[0]), es[1..], j - 1);
    } else {
      GrantedFiringBeats(Step(s, es[0]), es[1..], i - 1, j - 1);
    }
  }

  lemma {:induction false} FreeFiringBeats(s: State, es: seq<Event>, j: nat)
    requires IsRun(s, es) && s.ackReceived && j < |es| && (es[j].Beat? || es[j].Late?)
    requires forall k | 0 <= k < j :: !es[k].Beat?
    ensures es[j].Beat?
    decreases |es|
  {
    if j > 0 {
      FreeFiringBeats(Step(s, es[0]), es[1..], j - 1);
    }
  }

  lemma {:induction false} BeatsFrom(s: State, es: seq<Event>)
    requires IsRun(s, es)
    ensures Beats(es) <= Granted(es) + (if s.ackReceived && s.loops != map[] then 1 else 0)
    decreases |es|
  {
    if es != [] {
      BeatsFrom(Step(s, es[0]), es[1..]);
    }
  }

  /** On a whole connection there are never more heartbeats than ACKs and HELLOs together. */
  lemma BeatsArePaidFor(es: seq<Event>)
    requires IsRun(INITIAL, es)
    ensures Beats(es) <= Granted(es)
  {
    BeatsFrom(INITIAL, es);
  }

  /** A loop that is gone, say because it reported a missed ACK, sends again only if a HELLO spawns it anew. */
  lemma {:induction false} SilentAfterMiss(s: State, es: seq<Event>, t: nat, j: nat)
    requires IsRun(s, es) && t !in s.loops && j < |es| && es[j] == Beat(t)
    ensures exists k :: 0 <= k < j && es[k] == Hello(t)
    decreases |es|
  {
    if es[0] != Hello(t) {
      SilentAfterMiss(Step(s, es[0]), es[1..], t, j - 1);
      var k :| 0 <= k < j - 1 && es[1..][k] == Hello(t);
      assert es[k + 1] == Hello(t);
    }
  }

  // ---- A missing acknowledgement ends the connection -------------------------

  /** The flag is looked at again with no ACK or HELLO since the last heartbeat: it is found clear. */
  lemma {:induction false} SecondFiringMisses(s: State, es: seq<Event>, i: nat, j: nat)
    requires IsRun(s, es) && i < j < |es| && es[i].Beat? && (es[j].Beat? || es[j].Late?)
    requires forall k | i < k < j :: !Grants(es[k])
    ensures es[j].Late?
  {
    if es[j].Beat? {
      var k := GrantBetweenBeats(s, es, i, j);
    }
  }

  function Takes(es: seq<Event>): nat {
    if es == [] then 0 else (if es[0].Take? then 1 else 0) + Takes(es[1..])
  }

  /** The reader ended for resume, or for another cause that came up. */
  ghost predicate EndedWell(es: seq<Event>, action: RustGateway.Action) {
    action == RustGateway.Resume || Otherwise(action) in es
  }

  lemma {:induction false} Frozen(s: State, es: seq<Event>)
    requires IsRun(s, es) && s.ended.Some?
    ensures After(s, es).ended == s.ended
    decreases |es|
  {
    if es != [] {
      Frozen(Step(s, es[0]), es[1..]);
    }
  }

  lemma {:induction false} EndsWell(s: State, es: seq<Event>)
    requires IsRun(s, es) && s.ended.None? && After(s, es).ended.Some?
    ensures EndedWell(es, After(s, es).ended.value)
    decreases |es|
  {
    var next, rest := Step(s, es[0]), es[1..];
    assert forall e | e in rest :: e in es;
    if next.ended.Some? {
      Frozen(next, rest);
      assert es[0] in es;
    } else {
      EndsWell(next, rest);
    }
  }

  /** A report at place `p` of the channel ends the connection by the reader's next `p + 1` takes. */
  lemma {:induction false} QueuedMissEnds(s: State, es: seq<Event>, p: nat)
    requires IsRun(s, es) && s.ended.None? && p < |s.outbound| && s.outbound[p] == MissedAck
    ensures After(s, es).ended.Some? ||
            (Takes(es) <= p < Takes(es) + |After(s, es).outbound| && After(s, es).outbound[p - Takes(es)] == MissedAck)
    decreases |es|
  {
    if es != [] {
      var next, rest := Step(s, es[0]), es[1..];
      if next.ended.Some? {
        Frozen(next, rest);
      } else {
        QueuedMissEnds(next, rest, if es[0].Take? then p - 1 else p);
      }
    }
  }

  /** The report of loop `t` is in its hand or in the channel, or the reader has ended the connection. */
  ghost predicate Reported(t: nat, es: seq<Event>, last: State) {
    if last.ended.Some? then EndedWell(es, last.ended.value)
    else (t in last.loops && last.loops[t] == Sending(MissedAck)) || MissedAck in last.outbound
  }

  /**
   The current loop found the ACK missing. Until a new HELLO its report is on its way to the reader, in hand
   or in the channel, or the reader has ended the connection: for resume, unless another cause came up.
   */
  lemma {:induction false} MissEndsForResume(s: State, es: seq<Event>, t: nat)
    requires IsRun(s, es) && s.ended.None? && s.current == Some(t)
    requires t in s.loops && s.loops[t] == Sending(MissedAck)
    requires forall e | e in es :: !e.Hello?
    ensures Reported(t, es, After(s, es))
    decreases |es|
  {
    if After(s, es).ended.Some? {
      EndsWell(s, es);
    } else if es != [] {
      var next, rest := Step(s, es[0]), es[1..];
      assert es[0] in es && forall e | e in rest :: e in es;
      if next.ended.Some? {
        Frozen(next, rest);
      } else if es[0] == Push(t) {
        QueuedMissEnds(next, rest, |s.outbound|);
      } else {
        MissEndsForResume(next, rest, t);
      }
    }
  }

  /** The state after the first `n` steps. */
  function At(s: State, es: seq<Event>, n: nat): State
    requires IsRun(s, es) && n <= |es|
    decreases |es|
  {
    if n == 0 then s else At(Step(s, es[0]), es[1..], n - 1)
  }

  lemma {:induction false} ReportEnds(s: State, es: seq<Event>, j: nat)
    requires IsRun(s, es) && j < |es| && es[j].Late?
    requires At(s, es, j).ended.None? && At(s, es, j).current == Some(es[j].loop)
    requires forall k | j < k < |es| :: !es[k].Hello?
    ensures Reported(es[j].loop, es[j + 1..], After(s, es))
    decreases |es|
  {
    var next, rest := Step(s, es[0]), es[1..];
    if j == 0 {
      MissEndsForResume(next, rest, es[0].loop);
    } else {
      ReportEnds(next, rest, j - 1);
      assert rest[j..] == es[j + 1..];
    }
  }

  /**
   A loop looks at the flag twice with no ACK or HELLO between: the second time it finds the ACK missing, and
   if it is the current one its report ends the connection for resume unless another cause does.
   */
  lemma TwoFiringsEnd(s: State, es: seq<Event>, i: nat, j: nat)
    requires IsRun(s, es) && i < j < |es| && es[i].Beat? && (es[j].Beat? || es[j].Late?)
    requires forall k | i < k < j :: !Grants(es[k])
    requires forall k | j < k < |es| :: !es[k].Hello?
    ensures es[j].Late?
    ensures At(s, es, j).ended.None? && At(s, es, j).current == Some(es[j].loop) ==>
              Reported(es[j].loop, es[j + 1..], After(s, es))
  {
    SecondFiringMisses(s, es, i, j);
    if At(s, es, j).ended.None? && At(s, es, j).current == Some(es[j].loop) {
      ReportEnds(s, es, j);
    }
  }
}
