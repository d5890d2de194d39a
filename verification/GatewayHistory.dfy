/** What a gateway client has learnt about its session, in the order it learnt it. */
module GatewayHistory {
  import opened Common

  /** `Id` is how the client stores a session id or resume address. */
  datatype Mark<Id> = Sequence(n: int) | Session(id: Id, url: Id) | Cleared

  datatype History<Id> = Start | Then(past: History<Id>, mark: Mark<Id>)

  /** The READY that counts: the last one, unless the session was cleared after it. */
  function LatestSession<Id>(h: History<Id>): Option<(Id, Id)> {
    match h
    case Start => None
    case Then(_, Cleared) => None
    case Then(_, Session(id, url)) => Some((id, url))
    case Then(past, Sequence(_)) => LatestSession(past)
  }

  /** The last sequence number received since the session was last cleared. */
  function LastSequence<Id>(h: History<Id>): Option<int> {
    match h
    case Start => None
    case Then(_, Cleared) => None
    case Then(_, Sequence(n)) => Some(n)
    case Then(past, Session(_, _)) => LastSequence(past)
  }

  function WithSequence<Id>(h: History<Id>, n: Option<int>): History<Id> {
    if n.Some? then Then(h, Sequence(n.value)) else h
  }

  /** After `g` only sequence numbers came. */
  ghost predicate OnlySequencesSince<Id>(h: History<Id>, g: History<Id>) {
    h == g || (h.Then? && h.mark.Sequence? && OnlySequencesSince(h.past, g))
  }

  /** After `g` only sessions came. */
  ghost predicate OnlySessionsSince<Id>(h: History<Id>, g: History<Id>) {
    h == g || (h.Then? && h.mark.Session? && OnlySessionsSince(h.past, g))
  }

  /** After `g` no session came. */
  ghost predicate NoSessionSince<Id>(h: History<Id>, g: History<Id>) {
    h == g || (h.Then? && !h.mark.Session? && NoSessionSince(h.past, g))
  }

  /** The session named `id` at `url` was learnt at some point, and neither replaced nor cleared since. */
  ghost predicate SessionStands<Id(!new)>(h: History<Id>, id: Id, url: Id) {
    exists g: History<Id> :: OnlySequencesSince(h, Then(g, Session(id, url)))
  }

  /** Sequence number `n` was received at some point, and neither replaced nor cleared since. */
  ghost predicate SequenceStands<Id(!new)>(h: History<Id>, n: int) {
    exists g: History<Id> :: OnlySessionsSince(h, Then(g, Sequence(n)))
  }

  lemma {:induction false} LatestSessionStands<Id(!new)>(h: History<Id>, id: Id, url: Id)
    ensures LatestSession(h) == Some((id, url)) <==> SessionStands(h, id, url)
  {
    if h.Then? && h.mark == Session(id, url) {
      assert OnlySequencesSince(h, Then(h.past, Session(id, url)));
    } else if h.Then? && h.mark.Sequence? {
      LatestSessionStands(h.past, id, url);
      assert forall g: History<Id> ::
          OnlySequencesSince(h, Then(g, Session(id, url))) <==> OnlySequencesSince(h.past, Then(g, Session(id, url)));
    }
  }

  lemma {:induction false} LastSequenceStands<Id(!new)>(h: History<Id>, n: int)
    ensures LastSequence(h) == Some(n) <==> SequenceStands(h, n)
  {
    if h.Then? && h.mark == Sequence(n) {
      assert OnlySessionsSince(h, Then(h.past, Sequence(n)));
    } else if h.Then? && h.mark.Session? {
      LastSequenceStands(h.past, n);
      assert forall g: History<Id> ::
          OnlySessionsSince(h, Then(g, Sequence(n))) <==> OnlySessionsSince(h.past, Then(g, Sequence(n)));
    }
  }

  /** The sequence number a RESUME presents: the one that stands, or 0 if none does. */
  ghost predicate PresentsSequence<Id(!new)>(h: History<Id>, n: int) {
    SequenceStands(h, n) || (n == 0 && forall m: int :: !SequenceStands(h, m))
  }

  lemma PresentedSequence<Id(!new)>(h: History<Id>, n: int)
    ensures PresentsSequence(h, n) <==> n == LastSequence(h).GetOr(0)
  {
    forall m {
      LastSequenceStands(h, m);
    }
  }

  /** Without a new session none appears. */
  lemma {:induction false} NoneAppears<Id>(h: History<Id>, g: History<Id>)
    requires LatestSession(g) == None && NoSessionSince(h, g)
    ensures LatestSession(h) == None
  {
    if h != g {
      NoneAppears(h.past, g);
    }
  }
}
