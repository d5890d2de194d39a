/**
 The Rust gateway runner over whole runs. Frames before and after HELLO go through one
 loop, every HELLO is answered with a handshake, and whether the connection
 resumes is settled before it opens.
 */
module RustGateway {
  import opened Common
  import opened GatewayHistory

  datatype Action = Resume | Reidentify | Fatal

  function Classify(code: Option<int>): Action {
    match code
    case None => Resume
    case Some(c) =>
      if c == 4004 || 4010 <= c <= 4014 then Fatal
      else if c == 1000 || c == 1001 || c == 4007 || c == 4009 then Reidentify
      else Resume
  }

  type Text = Option<string>

  /** A websocket message that keeps the loop going; an undecodable one is `Other(None)`. */
  datatype Message =
    | Hello(sequence: Option<int>)
    | Ready(sequence: Option<int>, id: Text, url: Text)
    | CloseFrame(code: Option<int>)
    | Other(sequence: Option<int>)

  datatype End =
    | StreamEnded
    | Broken
    | ReconnectAsked(sequence: Option<int>)
    | Invalid(resumable: bool, sequence: Option<int>)
    | Stopped

  /** A connection that cannot be opened is reported; `heard` is false when nobody listens any more. */
  datatype Connection = Unreachable(heard: bool) | Live(messages: seq<Message>, end: End)

  datatype Handshake = Identify | ResumeWith(session: string, sequence: int)

  // ---- What the run should do, read off the connections --------------------

  function AfterMessage(h: History<Text>, m: Message): History<Text> {
    match m
    case Ready(n, id, url) => Then(WithSequence(h, n), Session(id, url))
    case CloseFrame(_) => h
    case Hello(n) => WithSequence(h, n)
    case Other(n) => WithSequence(h, n)
  }

  function AfterMessages(h: History<Text>, ms: seq<Message>, n: nat): History<Text>
    requires n <= |ms|
  {
    if n == 0 then h else AfterMessage(AfterMessages(h, ms, n - 1), ms[n - 1])
  }

  /** The code of the last close frame among the first `n` messages. */
  function CloseCode(ms: seq<Message>, n: nat): Option<int>
    requires n <= |ms|
  {
    if n == 0 then None else if ms[n - 1].CloseFrame? then ms[n - 1].code else CloseCode(ms, n - 1)
  }

  function ActionAfter(c: Connection): Action {
    if c.Unreachable? then (if c.heard then Resume else Fatal)
    else match c.end
      case StreamEnded => Classify(CloseCode(c.messages, |c.messages|))
      case Invalid(resumable, _) => if resumable then Resume else Reidentify
      case Stopped => Fatal
      case _ => Resume
  }

  function AfterConnection(h: History<Text>, c: Connection): History<Text> {
    if c.Unreachable? then h
    else
      var read := AfterMessages(h, c.messages, |c.messages|);
      var last := if c.end.ReconnectAsked? || c.end.Invalid? then WithSequence(read, c.end.sequence) else read;
      if ActionAfter(c) == Reidentify then Then(last, Cleared) else last
  }

  function Learnt(cs: seq<Connection>, n: nat): History<Text>
    requires n <= |cs|
  {
    if n == 0 then Start else AfterConnection(Learnt(cs, n - 1), cs[n - 1])
  }

  function SessionId(h: History<Text>): Text {
    if LatestSession(h).Some? then LatestSession(h).value.0 else None
  }

  function Url(h: History<Text>): Text {
    if LatestSession(h).Some? then LatestSession(h).value.1 else None
  }

  function Answer(h: History<Text>, resuming: bool): Handshake {
    if resuming then ResumeWith(SessionId(h).GetOr(""), LastSequence(h).GetOr(0)) else Identify
  }

  /** The handshakes answering the HELLOs among the first `n` messages. */
  function Answers(h: History<Text>, resuming: bool, ms: seq<Message>, n: nat): seq<Handshake>
    requires n <= |ms|
  {
    if n == 0 then []
    else
      Answers(h, resuming, ms, n - 1)
      + (if ms[n - 1].Hello? then [Answer(AfterMessages(h, ms, n), resuming)] else [])
  }

  /** The handshakes of connection `i`: it resumes when a session id is known beforehand. */
  function Expected(cs: seq<Connection>, i: nat): seq<Handshake>
    requires i < |cs|
  {
    if cs[i].Unreachable? then []
    else Answers(Learnt(cs, i), SessionId(Learnt(cs, i)).Some?, cs[i].messages, |cs[i].messages|)
  }

  predicate StopsAfter(cs: seq<Connection>, n: nat) {
    && n <= |cs|
    && (forall k | 0 <= k < n - 1 :: ActionAfter(cs[k]) != Fatal)
    && (n < |cs| ==> n > 0 && ActionAfter(cs[n - 1]) == Fatal)
  }

  function Hellos(ms: seq<Message>, n: nat): nat
    requires n <= |ms|
  {
    if n == 0 then 0 else Hellos(ms, n - 1) + if ms[n - 1].Hello? then 1 else 0
  }

  // ---- The runner ----------------------------------------------------------

  class GatewayRunner {
    var sessionId: Text
    var resumeGatewayUrl: Text
    var sequence: Option<int>

    constructor ()
      ensures Knows(Start)
    {
      sessionId, resumeGatewayUrl, sequence := None, None, None;
    }

    ghost predicate Knows(h: History<Text>)
      reads this
    {
      sessionId == SessionId(h) && resumeGatewayUrl == Url(h) && sequence == LastSequence(h)
    }

    method Run(cs: seq<Connection>) returns (sent: seq<seq<Handshake>>)
      requires Knows(Start)
      modifies this
      ensures StopsAfter(cs, |sent|)
      ensures forall i | 0 <= i < |sent| :: sent[i] == Expected(cs, i)
    {
      sent := [];
      var resume := false;
      for i := 0 to |cs|
        invariant |sent| == i && forall k | 0 <= k < i :: ActionAfter(cs[k]) != Fatal
        invariant forall k | 0 <= k < i :: sent[k] == Expected(cs, k)
        invariant Knows(Learnt(cs, i)) && (resume || sessionId.None?)
      {
        var answers, next := RunConnection(cs[i], resume, Learnt(cs, i));
        sent := sent + [answers];
        if next == Fatal {
          return;
        }
        resume := next == Resume;
      }
    }

    /** One connection. A connect error that is heard counts as resumable; so does any broken socket. */
    method RunConnection(c: Connection, resume: bool, ghost h: History<Text>)
      returns (answers: seq<Handshake>, next: Action)
      requires Knows(h) && (resume || sessionId.None?)
      modifies this
      ensures next == ActionAfter(c)
      ensures next != Fatal ==> Knows(AfterConnection(h, c))
      ensures next == Reidentify ==> sessionId.None?
      ensures answers ==
              if c.Unreachable? then [] else Answers(h, SessionId(h).Some?, c.messages, |c.messages|)
    {
      if c.Unreachable? {
        return [], if c.heard then Resume else Fatal;
      }
      var closeCode;
      answers, closeCode := ReadLoop(c.messages, resume, h);
      match c.end {
        case StreamEnded =>
          next := Classify(closeCode);
        case Broken =>
          next := Resume;
        case ReconnectAsked(n) =>
          sequence := if n.Some? then n else sequence;
          next := Resume;
        case Invalid(resumable, n) =>
          sequence := if n.Some? then n else sequence;
          next := if resumable then Resume else Reidentify;
        case Stopped =>
          next := Fatal;
      }
      if next == Reidentify {
        sessionId, resumeGatewayUrl, sequence := None, None, None;
      }
    }

    method ReadLoop(ms: seq<Message>, resume: bool, ghost h: History<Text>)
      returns (answers: seq<Handshake>, closeCode: Option<int>)
      requires Knows(h) && (resume || sessionId.None?)
      modifies this
      ensures Knows(AfterMessages(h, ms, |ms|)) && closeCode == CloseCode(ms, |ms|)
      ensures answers == Answers(h, SessionId(h).Some?, ms, |ms|) && |answers| == Hellos(ms, |ms|)
    {
      var canResume := resume && sessionId.Some?;
      answers, closeCode := [], None;
      for i := 0 to |ms|
        invariant Knows(AfterMessages(h, ms, i)) && closeCode == CloseCode(ms, i)
        invariant answers == Answers(h, canResume, ms, i) && |answers| == Hellos(ms, i)
      {
        match ms[i] {
          case CloseFrame(code) =>
            closeCode := code;
          case Hello(n) =>
            sequence := if n.Some? then n else sequence;
            answers := answers
              + [if canResume then ResumeWith(sessionId.GetOr(""), sequence.GetOr(0)) else Identify];
          case Ready(n, id, url) =>
            sequence := if n.Some? then n else sequence;
            sessionId, resumeGatewayUrl := id, url;
          case Other(n) =>
            sequence := if n.Some? then n else sequence;
        }
      }
    }
  }

  // ---- What follows for every run ------------------------------------------

  lemma {:induction false} AnswerAt(h: History<Text>, resuming: bool, ms: seq<Message>, n: nat, a: Handshake)
    requires n <= |ms| && a in Answers(h, resuming, ms, n)
    ensures exists k :: 0 < k <= n && ms[k - 1].Hello? && a == Answer(AfterMessages(h, ms, k), resuming)
    decreases n
  {
    if ms[n - 1].Hello? && a == Answer(AfterMessages(h, ms, n), resuming) {
    } else {
      AnswerAt(h, resuming, ms, n - 1, a);
    }
  }

  lemma {:induction false} HelloAnswered(h: History<Text>, resuming: bool, ms: seq<Message>, n: nat, k: nat)
    requires 0 < k <= n <= |ms| && ms[k - 1].Hello?
    ensures Answer(AfterMessages(h, ms, k), resuming) in Answers(h, resuming, ms, n)
    decreases n
  {
    if k < n {
      HelloAnswered(h, resuming, ms, n - 1, k);
    }
  }

  /** A session with an id stands. */
  ghost predicate Known(h: History<Text>) {
    exists id: string, url: Text :: SessionStands(h, Some(id), url)
  }

  lemma KnownSession(h: History<Text>)
    ensures Known(h) <==> SessionId(h).Some?
  {
    forall id: string, url: Text {
      LatestSessionStands(h, Some(id), url);
    }
    if SessionId(h).Some? {
      assert SessionStands(h, Some(LatestSession(h).value.0.value), LatestSession(h).value.1);
    }
  }

  /** The HELLO that is message `k` meets this session id and sequence number. */
  ghost predicate Meets(h: History<Text>, ms: seq<Message>, k: nat, session: string, n: int)
    requires 0 < k <= |ms|
  {
    var now := AfterMessages(h, ms, k);
    && ms[k - 1].Hello? && PresentsSequence(now, n)
    && exists id: Text, url: Text :: SessionStands(now, id, url) && session == id.GetOr("")
  }

  lemma AnswerMeets(h: History<Text>, ms: seq<Message>, k: nat, session: string, n: int)
    requires 0 < k <= |ms| && ms[k - 1].Hello? && LatestSession(h).Some?
    ensures Meets(h, ms, k, session, n) <==> Answer(AfterMessages(h, ms, k), true) == ResumeWith(session, n)
  {
    var now := AfterMessages(h, ms, k);
    SessionKept(h, ms, k);
    PresentedSequence(now, n);
    forall id: Text, url: Text {
      LatestSessionStands(now, id, url);
    }
    var (id, url) := LatestSession(now).value;
    assert SessionStands(now, id, url);
  }

  /**
   Connection `i` sends this RESUME exactly when a session with an id stood as it opened and some HELLO on it
   meets this session and sequence number: those that stand at that moment, an id that the last
   READY left out counting as empty and no number as 0.
   */
  lemma ResumesLatestSession(cs: seq<Connection>, i: nat, session: string, n: int)
    requires i < |cs|
    ensures ResumeWith(session, n) in Expected(cs, i) <==>
            && cs[i].Live? && Known(Learnt(cs, i))
            && exists k :: 0 < k <= |cs[i].messages| && Meets(Learnt(cs, i), cs[i].messages, k, session, n)
  {
    var h := Learnt(cs, i);
    KnownSession(h);
    if cs[i].Live? {
      var ms := cs[i].messages;
      if ResumeWith(session, n) in Expected(cs, i) {
        AnswerAt(h, SessionId(h).Some?, ms, |ms|, ResumeWith(session, n));
        var k :| 0 < k <= |ms| && ms[k - 1].Hello?
                 && ResumeWith(session, n) == Answer(AfterMessages(h, ms, k), SessionId(h).Some?);
        AnswerMeets(h, ms, k, session, n);
      }
      if k :| Known(h) && 0 < k <= |ms| && Meets(h, ms, k, session, n) {
        AnswerMeets(h, ms, k, session, n);
        HelloAnswered(h, true, ms, |ms|, k);
      }
    }
  }

  /**
   On a connection that opened with a session id, the RESUME answering a HELLO names the standing session
   exactly when the last READY before it carried an id; else it goes out with an empty one.
   */
  lemma ResumeNamesSession(cs: seq<Connection>, i: nat, k: nat)
    requires i < |cs| && cs[i].Live? && Known(Learnt(cs, i))
    requires 0 < k <= |cs[i].messages| && cs[i].messages[k - 1].Hello?
    ensures var now := AfterMessages(Learnt(cs, i), cs[i].messages, k);
            var n := LastSequence(now).GetOr(0);
            && (Known(now) ==> exists id: string, url: Text ::
                  SessionStands(now, Some(id), url) && ResumeWith(id, n) in Expected(cs, i))
            && (!Known(now) ==> ResumeWith("", n) in Expected(cs, i))
  {
    var h, ms := Learnt(cs, i), cs[i].messages;
    var now := AfterMessages(h, ms, k);
    KnownSession(h);
    KnownSession(now);
    SessionKept(h, ms, k);
    HelloAnswered(h, true, ms, |ms|, k);
    var (id, url) := LatestSession(now).value;
    LatestSessionStands(now, id, url);
    if id.Some? {
      assert SessionStands(now, Some(id.value), url);
    }
  }

  /** A READY without an id, then another HELLO: the RESUME goes out with an empty session id. */
  lemma EmptyResume()
    ensures var cs := [Live([Hello(None), Ready(Some(1), Some("a"), Some("u"))], StreamEnded),
                       Live([Ready(Some(2), None, None), Hello(None)], StreamEnded)];
            ResumeWith("", 2) in Expected(cs, 1)
  {
    var cs := [Live([Hello(None), Ready(Some(1), Some("a"), Some("u"))], StreamEnded),
               Live([Ready(Some(2), None, None), Hello(None)], StreamEnded)];
    var first, second := cs[0].messages, cs[1].messages;
    var h1 := AfterMessages(Start, first, 1);
    var h2 := AfterMessages(Start, first, 2);
    assert h1 == Start && h2 == Then(Then(Start, Sequence(1)), Session(Some("a"), Some("u")));
    assert CloseCode(first, 2) == CloseCode(first, 1) == CloseCode(first, 0) == None;
    assert Learnt(cs, 1) == AfterConnection(Learnt(cs, 0), cs[0]) == h2;
    var now := AfterMessages(h2, second, 1);
    assert now == Then(Then(h2, Sequence(2)), Session(None, None));
    assert AfterMessages(h2, second, 2) == now;
    HelloAnswered(h2, true, second, 2, 2);
  }

  /** Reading messages replaces a session but never drops it. */
  lemma {:induction false} SessionKept(h: History<Text>, ms: seq<Message>, n: nat)
    requires n <= |ms| && LatestSession(h).Some?
    ensures LatestSession(AfterMessages(h, ms, n)).Some?
    decreases n
  {
    if n > 0 {
      SessionKept(h, ms, n - 1);
    }
  }

  predicate HasReady(c: Connection) {
    c.Live? && exists k :: 0 <= k < |c.messages| && c.messages[k].Ready?
  }

  lemma {:induction false} MessagesAddNoSession(h: History<Text>, ms: seq<Message>, n: nat)
    requires n <= |ms| && forall k | 0 <= k < |ms| :: !ms[k].Ready?
    ensures NoSessionSince(AfterMessages(h, ms, n), h)
    decreases n
  {
    if n > 0 {
      MessagesAddNoSession(h, ms, n - 1);
    }
  }

  lemma {:induction false} GoneUntilReady(cs: seq<Connection>, i: nat, j: nat)
    requires i < j <= |cs| && ActionAfter(cs[i]) == Reidentify
    requires forall k | i < k < j :: !HasReady(cs[k])
    ensures LatestSession(Learnt(cs, j)) == None
    decreases j
  {
    if j > i + 1 {
      var c, h := cs[j - 1], Learnt(cs, j - 1);
      GoneUntilReady(cs, i, j - 1);
      if c.Live? {
        MessagesAddNoSession(h, c.messages, |c.messages|);
        NoneAppears(AfterMessages(h, c.messages, |c.messages|), h);
      }
    }
  }

  lemma {:induction false} AllIdentify(h: History<Text>, ms: seq<Message>, n: nat)
    requires n <= |ms|
    ensures forall a | a in Answers(h, false, ms, n) :: a == Identify
  {
    if n > 0 {
      AllIdentify(h, ms, n - 1);
    }
  }

  /** Message `k` is the last close frame. */
  ghost predicate LastClose(ms: seq<Message>, k: nat) {
    k < |ms| && ms[k].CloseFrame? && forall j | k < j < |ms| :: !ms[j].CloseFrame?
  }

  /** The stream ended, and the last close frame carried one of these codes. */
  ghost predicate ClosedBy(c: Connection, codes: set<int>) {
    c.Live? && c.end.StreamEnded? &&
    exists k: nat :: LastClose(c.messages, k) && c.messages[k].code.Some? && c.messages[k].code.value in codes
  }

  lemma {:induction false} CodeFound(ms: seq<Message>, n: nat) returns (k: nat)
    requires n <= |ms| && CloseCode(ms, n).Some?
    ensures k < n && ms[k] == CloseFrame(CloseCode(ms, n)) && forall j | k < j < n :: !ms[j].CloseFrame?
    decreases n
  {
    k := n - 1;
    if !ms[n - 1].CloseFrame? {
      k := CodeFound(ms, n - 1);
    }
  }

  lemma {:induction false} CodeOfLast(ms: seq<Message>, k: nat, n: nat)
    requires k < n <= |ms| && ms[k].CloseFrame? && forall j | k < j < n :: !ms[j].CloseFrame?
    ensures CloseCode(ms, n) == ms[k].code
    decreases n
  {
    if n > k + 1 {
      CodeOfLast(ms, k, n - 1);
    }
  }

  lemma ClosedByCode(c: Connection, codes: set<int>)
    requires c.Live? && c.end.StreamEnded?
    ensures var code := CloseCode(c.messages, |c.messages|);
            ClosedBy(c, codes) <==> code.Some? && code.value in codes
  {
    var ms := c.messages;
    if CloseCode(ms, |ms|).Some? {
      var k := CodeFound(ms, |ms|);
      assert LastClose(ms, k);
    }
    if ClosedBy(c, codes) {
      var k: nat :| LastClose(ms, k) && ms[k].code.Some? && ms[k].code.value in codes;
      CodeOfLast(ms, k, |ms|);
    }
  }

  /** What follows a connection: the session is lost, the runner stops, or it resumes. */
  lemma Actions(c: Connection)
    ensures ActionAfter(c) == Reidentify <==>
            ClosedBy(c, {1000, 1001, 4007, 4009}) || (c.Live? && c.end.Invalid? && !c.end.resumable)
    ensures ActionAfter(c) == Fatal <==>
            || ClosedBy(c, {4004, 4010, 4011, 4012, 4013, 4014})
            || (c.Live? && c.end.Stopped?) || (c.Unreachable? && !c.heard)
  {
    if c.Live? && c.end.StreamEnded? {
      ClosedByCode(c, {1000, 1001, 4007, 4009});
      ClosedByCode(c, {4004, 4010, 4011, 4012, 4013, 4014});
    }
  }

  /** After close 1000, 1001, 4007 or 4009 or a non-resumable INVALID_SESSION, only IDENTIFY until a READY. */
  lemma IdentifiesUntilReady(cs: seq<Connection>, i: nat, j: nat)
    requires i < j < |cs|
    requires ClosedBy(cs[i], {1000, 1001, 4007, 4009}) || (cs[i].Live? && cs[i].end.Invalid? && !cs[i].end.resumable)
    requires forall k | i < k < j :: !HasReady(cs[k])
    ensures forall a | a in Expected(cs, j) :: a == Identify
  {
    Actions(cs[i]);
    GoneUntilReady(cs, i, j);
    if cs[j].Live? {
      AllIdentify(Learnt(cs, j), cs[j].messages, |cs[j].messages|);
    }
  }

  lemma {:induction false} MessagesKeepSession(h: History<Text>, ms: seq<Message>, n: nat)
    requires n <= |ms| && forall k | 0 <= k < |ms| :: !ms[k].Ready?
    ensures LatestSession(AfterMessages(h, ms, n)) == LatestSession(h)
    decreases n
  {
    if n > 0 {
      MessagesKeepSession(h, ms, n - 1);
    }
  }

  /** Every other end keeps the session: a connection that brings no READY leaves it standing. */
  lemma SessionSurvives(cs: seq<Connection>, i: nat, id: Text, url: Text)
    requires i < |cs| && !HasReady(cs[i]) && SessionStands(Learnt(cs, i), id, url)
    requires !ClosedBy(cs[i], {1000, 1001, 4007, 4009}) && (cs[i].Live? && cs[i].end.Invalid? ==> cs[i].end.resumable)
    ensures SessionStands(Learnt(cs, i + 1), id, url)
  {
    Actions(cs[i]);
    var h := Learnt(cs, i);
    LatestSessionStands(h, id, url);
    LatestSessionStands(Learnt(cs, i + 1), id, url);
    if cs[i].Live? {
      MessagesKeepSession(h, cs[i].messages, |cs[i].messages|);
    }
  }

  /** What ends the runner: a fatal close, a shutdown or a connect error that nobody hears. */
  ghost predicate Stops(c: Connection) {
    || ClosedBy(c, {4004, 4010, 4011, 4012, 4013, 4014})
    || (c.Live? && c.end.Stopped?) || (c.Unreachable? && !c.heard)
  }

  /** The runner makes every connection up to the first that ends it, and no more. */
  lemma StopsExactly(cs: seq<Connection>, n: nat)
    requires StopsAfter(cs, n)
    ensures forall k | 0 <= k < n - 1 :: !Stops(cs[k])
    ensures n < |cs| ==> n > 0 && Stops(cs[n - 1])
  {
    forall k | 0 <= k < n {
      Actions(cs[k]);
    }
  }

  /** What stands after the messages of a connection is what the last READY among them said. */
  lemma {:induction false} ReadyStands(h: History<Text>, ms: seq<Message>, k: nat, n: nat)
    requires k < n <= |ms| && ms[k].Ready? && forall j | k < j < n :: !ms[j].Ready?
    ensures LatestSession(AfterMessages(h, ms, n)) == Some((ms[k].id, ms[k].url))
    decreases n
  {
    if n > k + 1 {
      ReadyStands(h, ms, k, n - 1);
    }
  }

  predicate Numbered(m: Message) {
    !m.CloseFrame? && m.sequence.Some?
  }

  /** So is the last sequence number among them, whatever else its message is. */
  lemma {:induction false} NumberStands(h: History<Text>, ms: seq<Message>, k: nat, n: nat)
    requires k < n <= |ms| && Numbered(ms[k]) && forall j | k < j < n :: !Numbered(ms[j])
    ensures LastSequence(AfterMessages(h, ms, n)) == ms[k].sequence
    decreases n
  {
    if n > k + 1 {
      NumberStands(h, ms, k, n - 1);
    }
  }

  lemma {:induction false} MessagesKeepNumber(h: History<Text>, ms: seq<Message>, n: nat)
    requires n <= |ms| && forall k | 0 <= k < n :: !Numbered(ms[k])
    ensures LastSequence(AfterMessages(h, ms, n)) == LastSequence(h)
    decreases n
  {
    if n > 0 {
      MessagesKeepNumber(h, ms, n - 1);
    }
  }

  /** The message that ends a connection for resume counts for the sequence number too, and for nothing else. */
  lemma EndCounts(h: History<Text>, ms: seq<Message>, end: End)
    requires end.ReconnectAsked? || (end.Invalid? && end.resumable)
    ensures var read, all := AfterMessages(h, ms, |ms|), AfterConnection(h, Live(ms, end));
            && LatestSession(all) == LatestSession(read)
            && LastSequence(all) == if end.sequence.Some? then end.sequence else LastSequence(read)
  {
  }
}
