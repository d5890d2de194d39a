/**
 The Go gateway client over whole runs: connect, handshake, read frames, decide how
 to come back. A run is described by what the network did on each connection.
 */
module GoGateway {
  import opened Common
  import opened GatewayHistory

  datatype Action = Resume | Reidentify | Fatal

  function Classify(code: int): Action {
    if code == 4004 || 4010 <= code <= 4014 then Fatal
    else if code == 4003 || code == 4007 || code == 4009 then Reidentify
    else Resume
  }

  /** A frame that keeps the connection open; `ready` is set for a READY that decodes. */
  datatype Frame = Frame(sequence: Option<int>, ready: Option<(string, string)>)

  datatype End =
    | Closed(code: int)
    | MissedAck
    | Broken
    | ReconnectAsked(sequence: Option<int>)
    | Invalid(resumable: bool, sequence: Option<int>)

  /** A close that comes before HELLO is part of `NoHello`: its code is never looked at. */
  datatype Connection =
    | Unreachable
    | NoHello
    | HandshakeLost
    | Live(frames: seq<Frame>, end: End)

  datatype Handshake = Identify | ResumeWith(session: string, sequence: int)

  // ---- What the run should do, read off the connections --------------------

  function AfterFrame(h: History<string>, f: Frame): History<string> {
    var next := WithSequence(h, f.sequence);
    if f.ready.Some? then Then(next, Session(f.ready.value.0, f.ready.value.1)) else next
  }

  /** After the first `n` frames of a connection. */
  function AfterFrames(h: History<string>, fs: seq<Frame>, n: nat): History<string>
    requires n <= |fs|
  {
    if n == 0 then h else AfterFrame(AfterFrames(h, fs, n - 1), fs[n - 1])
  }

  function EndSequence(end: End): Option<int> {
    if end.ReconnectAsked? || end.Invalid? then end.sequence else None
  }

  /** The session is lost: closed as not authenticated, at a bad sequence or timed out, or invalid for good. */
  predicate Loses(c: Connection) {
    && c.Live?
    && ((c.end.Closed? && (c.end.code == 4003 || c.end.code == 4007 || c.end.code == 4009))
        || (c.end.Invalid? && !c.end.resumable))
  }

  /** The client gives up: authentication, sharding, API version or intents are refused. */
  predicate Stops(c: Connection) {
    c.Live? && c.end.Closed? && (c.end.code == 4004 || 4010 <= c.end.code <= 4014)
  }

  /** What the client does after a connection. */
  function ActionAfter(c: Connection): Action {
    if c.Live? && c.end.Closed? then Classify(c.end.code)
    else if c.Live? && c.end.Invalid? && !c.end.resumable then Reidentify
    else Resume
  }

  /** What was read on one connection. */
  function AfterReading(h: History<string>, c: Connection): History<string> {
    if c.Live? then WithSequence(AfterFrames(h, c.frames, |c.frames|), EndSequence(c.end)) else h
  }

  function AfterConnection(h: History<string>, c: Connection): History<string> {
    if Loses(c) then Then(AfterReading(h, c), Cleared) else AfterReading(h, c)
  }

  /** Everything learnt before the run and on its first `n` connections. */
  function Learnt(before: History<string>, cs: seq<Connection>, n: nat): History<string>
    requires n <= |cs|
  {
    if n == 0 then before else AfterConnection(Learnt(before, cs, n - 1), cs[n - 1])
  }

  predicate CanResume(h: History<string>) {
    LatestSession(h).Some? && LatestSession(h).value.0 != "" && LatestSession(h).value.1 != ""
  }

  function Decide(h: History<string>): Handshake {
    if CanResume(h) then ResumeWith(LatestSession(h).value.0, LastSequence(h).GetOr(0)) else Identify
  }

  /** The handshake of connection `i`, if it gets that far; a run opens with an IDENTIFY whatever it knows. */
  function Expected(before: History<string>, cs: seq<Connection>, i: nat): Option<Handshake>
    requires i < |cs|
  {
    if cs[i].Unreachable? || cs[i].NoHello? then None
    else Some(if i == 0 then Identify else Decide(Learnt(before, cs, i)))
  }

  /** `n` connections are made: a fatal close is the last, and nothing else stops the client. */
  predicate StopsAfter(cs: seq<Connection>, n: nat) {
    && n <= |cs|
    && (forall k | 0 <= k < n - 1 :: !Stops(cs[k]))
    && (n < |cs| ==> n > 0 && Stops(cs[n - 1]))
  }

  // ---- The client ----------------------------------------------------------

  class Gateway {
    var sessionID: string
    var resumeGatewayURL: string
    var sequence: int

    constructor ()
      ensures Knows(Start)
    {
      sessionID, resumeGatewayURL, sequence := "", "", 0;
    }

    /** The fields hold what the history says. */
    ghost predicate Knows(h: History<string>)
      reads this
    {
      && (LatestSession(h).None? ==> sessionID == "" && resumeGatewayURL == "")
      && (LatestSession(h).Some? ==> (sessionID, resumeGatewayURL) == LatestSession(h).value)
      && sequence == LastSequence(h).GetOr(0)
    }

    /** The reconnect loop, on a new gateway or a used one. Handshakes are exactly those the history calls for. */
    method Run(cs: seq<Connection>, ghost before: History<string>) returns (sent: seq<Option<Handshake>>)
      requires Knows(before)
      modifies this
      ensures StopsAfter(cs, |sent|)
      ensures forall i | 0 <= i < |sent| :: sent[i] == Expected(before, cs, i)
      ensures Knows(Learnt(before, cs, |sent|))
    {
      sent := [];
      var resume := false;
      for i := 0 to |cs|
        invariant |sent| == i && forall k | 0 <= k < i :: !Stops(cs[k])
        invariant forall k | 0 <= k < i :: sent[k] == Expected(before, cs, k)
        invariant Knows(Learnt(before, cs, i)) && resume == (i > 0 && CanResume(Learnt(before, cs, i)))
      {
        ghost var h := Learnt(before, cs, i);
        var handshake := RunOnce(cs[i], resume, h);
        sent := sent + [handshake];
        match ActionAfter(cs[i]) {
          case Fatal =>
            return;
          case Reidentify =>
            ClearSession(AfterReading(h, cs[i]));
            resume := false;
          case Resume =>
            resume := sessionID != "" && resumeGatewayURL != "";
        }
      }
    }

    method ClearSession(ghost h: History<string>)
      modifies this
      ensures Knows(Then(h, Cleared))
    {
      sessionID, resumeGatewayURL, sequence := "", "", 0;
    }

    /** One connection: the handshake and then the read loop. */
    method RunOnce(c: Connection, resume: bool, ghost h: History<string>) returns (handshake: Option<Handshake>)
      requires Knows(h) && (resume ==> CanResume(h))
      modifies this
      ensures Knows(AfterReading(h, c))
      ensures handshake ==
              if c.Unreachable? || c.NoHello? then None else Some(if resume then Decide(h) else Identify)
      ensures handshake.Some? && resume ==> handshake == Some(ResumeWith(old(sessionID), old(sequence)))
    {
      if c.Unreachable? || c.NoHello? {
        return None;
      }
      handshake := Some(if resume then ResumeWith(sessionID, sequence) else Identify);
      if c.HandshakeLost? {
        return;
      }
      for i := 0 to |c.frames|
        invariant Knows(AfterFrames(h, c.frames, i))
      {
        var f := c.frames[i];
        if f.sequence.Some? {
          sequence := f.sequence.value;
        }
        if f.ready.Some? {
          sessionID, resumeGatewayURL := f.ready.value.0, f.ready.value.1;
        }
      }
      if EndSequence(c.end).Some? {
        sequence := EndSequence(c.end).value;
      }
    }
  }

  // ---- What follows for every run ------------------------------------------

  /**
   Connection `i` resumes exactly when it is not the first of its run, gets to its handshake and a READY
   with a session id and an address stands, neither replaced nor cleared; it then presents that id and the
   sequence number that stands, or 0 if none does.
   */
  lemma ResumesLatestSession(before: History<string>, cs: seq<Connection>, i: nat, session: string, n: int)
    requires i < |cs|
    ensures Expected(before, cs, i) == Some(ResumeWith(session, n)) <==>
            && i > 0 && !cs[i].Unreachable? && !cs[i].NoHello? && session != ""
            && (exists url :: url != "" && SessionStands(Learnt(before, cs, i), session, url))
            && PresentsSequence(Learnt(before, cs, i), n)
  {
    var h := Learnt(before, cs, i);
    forall url {
      LatestSessionStands(h, session, url);
    }
    PresentedSequence(h, n);
  }

  predicate HasReady(c: Connection) {
    c.Live? && exists k :: 0 <= k < |c.frames| && c.frames[k].ready.Some?
  }

  lemma {:induction false} FramesAddNoSession(h: History<string>, fs: seq<Frame>, n: nat)
    requires n <= |fs| && forall k | 0 <= k < |fs| :: fs[k].ready.None?
    ensures NoSessionSince(AfterFrames(h, fs, n), h)
    decreases n
  {
    if n > 0 {
      FramesAddNoSession(h, fs, n - 1);
    }
  }

  lemma {:induction false} GoneUntilReady(before: History<string>, cs: seq<Connection>, i: nat, j: nat)
    requires i < j <= |cs| && Loses(cs[i])
    requires forall k | i < k < j :: !HasReady(cs[k])
    ensures LatestSession(Learnt(before, cs, j)) == None
    decreases j
  {
    if j > i + 1 {
      var c, h := cs[j - 1], Learnt(before, cs, j - 1);
      GoneUntilReady(before, cs, i, j - 1);
      if c.Live? {
        FramesAddNoSession(h, c.frames, |c.frames|);
        NoneAppears(AfterFrames(h, c.frames, |c.frames|), h);
      }
    }
  }

  /** After close 4003, 4007 or 4009 or a non-resumable INVALID_SESSION, only IDENTIFY until a READY. */
  lemma IdentifiesUntilReady(before: History<string>, cs: seq<Connection>, i: nat, j: nat)
    requires i < j < |cs| && cs[i].Live?
    requires cs[i].end in {Closed(4003), Closed(4007), Closed(4009)} || (cs[i].end.Invalid? && !cs[i].end.resumable)
    requires forall k | i < k < j :: !HasReady(cs[k])
    ensures Expected(before, cs, j) != None ==> Expected(before, cs, j) == Some(Identify)
  {
    GoneUntilReady(before, cs, i, j);
  }

  lemma {:induction false} FramesKeepSession(h: History<string>, fs: seq<Frame>, n: nat)
    requires n <= |fs| && forall k | 0 <= k < |fs| :: fs[k].ready.None?
    ensures LatestSession(AfterFrames(h, fs, n)) == LatestSession(h)
    decreases n
  {
    if n > 0 {
      FramesKeepSession(h, fs, n - 1);
    }
  }

  /**
   Every other end keeps the session: a connection that brings no READY and ends by RECONNECT, a resumable
   INVALID_SESSION, a missed ACK, a broken read, a failed handshake or any other close leaves it standing.
   */
  lemma SessionSurvives(before: History<string>, cs: seq<Connection>, i: nat, id: string, url: string)
    requires i < |cs| && !HasReady(cs[i]) && SessionStands(Learnt(before, cs, i), id, url)
    requires cs[i].Live? ==>
               cs[i].end !in {Closed(4003), Closed(4007), Closed(4009)} && (cs[i].end.Invalid? ==> cs[i].end.resumable)
    ensures SessionStands(Learnt(before, cs, i + 1), id, url)
  {
    var h := Learnt(before, cs, i);
    LatestSessionStands(h, id, url);
    LatestSessionStands(Learnt(before, cs, i + 1), id, url);
    if cs[i].Live? {
      FramesKeepSession(h, cs[i].frames, |cs[i].frames|);
    }
  }

  /** What stands after the frames of a connection is what the last READY among them said. */
  lemma {:induction false} ReadyStands(h: History<string>, fs: seq<Frame>, k: nat, n: nat)
    requires k < n <= |fs| && fs[k].ready.Some? && forall j | k < j < n :: fs[j].ready.None?
    ensures LatestSession(AfterFrames(h, fs, n)) == fs[k].ready
    decreases n
  {
    if n > k + 1 {
      ReadyStands(h, fs, k, n - 1);
    }
  }

  /** So is the last sequence number among them, whatever else its frame is. */
  lemma {:induction false} NumberStands(h: History<string>, fs: seq<Frame>, k: nat, n: nat)
    requires k < n <= |fs| && fs[k].sequence.Some? && forall j | k < j < n :: fs[j].sequence.None?
    ensures LastSequence(AfterFrames(h, fs, n)) == fs[k].sequence
    decreases n
  {
    if n > k + 1 {
      NumberStands(h, fs, k, n - 1);
    }
  }

  lemma {:induction false} FramesKeepNumber(h: History<string>, fs: seq<Frame>, n: nat)
    requires n <= |fs| && forall k | 0 <= k < n :: fs[k].sequence.None?
    ensures LastSequence(AfterFrames(h, fs, n)) == LastSequence(h)
    decreases n
  {
    if n > 0 {
      FramesKeepNumber(h, fs, n - 1);
    }
  }

  /** The frame that ends a connection counts for the sequence number too, and for nothing else. */
  lemma EndCounts(h: History<string>, frames: seq<Frame>, end: End)
    ensures var read, all := AfterFrames(h, frames, |frames|), AfterReading(h, Live(frames, end));
            && LatestSession(all) == LatestSession(read)
            && LastSequence(all) == if (end.ReconnectAsked? || end.Invalid?) && end.sequence.Some? then end.sequence
                                    else LastSequence(read)
  {
  }
}
