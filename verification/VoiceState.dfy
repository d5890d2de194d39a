/** Voice gateway state of the Rust client: sequence tracking and the SSRC-to-user map. */
module VoiceState {
  import opened Common
  import opened Rtp

  /**
   A decoded payload: the fields the state machine looks at, None where the field is
   missing or does not parse. `info` stands for the rest of the content, defaults filled in.
   */
  datatype Payload = Payload(sequence: Option<int>, op: int, ssrc: Option<nat>, userId: Option<nat>,
                             audioSsrc: Option<nat>, info: nat)

  datatype Notice =
    | Hello(info: nat) | Ready(info: nat) | SessionDescription(info: nat)
    | Speaking(userId: nat, ssrc: u32, info: nat) | HeartbeatAck | Resumed
    | ClientDisconnect(userId: nat) | Dave(op: int, info: nat)

  /** Casting a 64-bit number to 32 bits keeps its low half. */
  function Low32(n: nat): u32 { n % 0x1_0000_0000 }

  /** The payload says that `ssrc` belongs to `user`. */
  predicate Announces(p: Payload, ssrc: u32, user: nat) {
    || (p.op == 5 && p.ssrc.Some? && Low32(p.ssrc.value) == ssrc && p.userId == Some(user))
    || (p.op == 12 && p.audioSsrc.Some? && p.audioSsrc.value != 0 && Low32(p.audioSsrc.value) == ssrc
        && p.userId == Some(user))
  }

  predicate Leaves(p: Payload, user: nat) {
    p.op == 13 && p.userId == Some(user)
  }

  /** Payload `k` is the latest announcement of `ssrc`, it named `user`, and `user` has not left since. */
  ghost predicate BelongsSince(h: seq<Payload>, ssrc: u32, user: nat, k: nat) {
    && k < |h| && Announces(h[k], ssrc, user)
    && forall j | k < j < |h| :: !Leaves(h[j], user) && forall other: nat :: !Announces(h[j], ssrc, other)
  }

  ghost predicate Belongs(h: seq<Payload>, ssrc: u32, user: nat) {
    exists k: nat :: BelongsSince(h, ssrc, user, k)
  }

  /** The last sequence number seen in any payload, or -1. */
  ghost predicate IsSeqAck(h: seq<Payload>, n: int) {
    if exists k :: 0 <= k < |h| && h[k].sequence.Some? then
      exists k :: 0 <= k < |h| && h[k].sequence == Some(n) && forall j | k < j < |h| :: h[j].sequence.None?
    else n == -1
  }

  lemma BelongsStep(h: seq<Payload>, p: Payload, ssrc: u32, user: nat)
    ensures Belongs(h + [p], ssrc, user) <==>
            || Announces(p, ssrc, user)
            || (Belongs(h, ssrc, user) && !Leaves(p, user) && forall other: nat :: !Announces(p, ssrc, other))
  {
    var all, n := h + [p], |h|;
    assert BelongsSince(all, ssrc, user, n) <==> Announces(p, ssrc, user);
    forall k: nat | k < n
      ensures BelongsSince(all, ssrc, user, k) <==>
              BelongsSince(h, ssrc, user, k) && !Leaves(p, user) && forall other: nat :: !Announces(p, ssrc, other)
    {
      OlderStep(h, p, ssrc, user, k);
    }
  }

  lemma OlderStep(h: seq<Payload>, p: Payload, ssrc: u32, user: nat, k: nat)
    requires k < |h|
    ensures BelongsSince(h + [p], ssrc, user, k) <==>
            BelongsSince(h, ssrc, user, k) && !Leaves(p, user) && forall other: nat :: !Announces(p, ssrc, other)
  {
    var all := h + [p];
    assert all[|h|] == p && forall j | 0 <= j < |h| :: all[j] == h[j];
  }

  lemma SeqAckStep(h: seq<Payload>, p: Payload, n: int)
    requires IsSeqAck(h, n)
    ensures IsSeqAck(h + [p], if p.sequence.Some? then p.sequence.value else n)
  {
    var all := h + [p];
    assert forall k | 0 <= k < |h| :: all[k] == h[k];
    if p.sequence.Some? {
      assert all[|h|].sequence == p.sequence;
    } else if k :| 0 <= k < |h| && h[k].sequence.Some? {
      assert all[k].sequence.Some?;
      var l :| 0 <= l < |h| && h[l].sequence == Some(n) && forall j | l < j < |h| :: h[j].sequence.None?;
      assert all[l].sequence == Some(n);
    }
  }

  /** The payload the caller is told about, if this notice tells it. */
  predicate Tells(notice: Notice, p: Payload) {
    match notice
    case Hello(info) => p.op == 8 && info == p.info
    case Ready(info) => p.op == 2 && info == p.info
    case SessionDescription(info) => p.op == 4 && info == p.info
    case Speaking(user, ssrc, info) => p.op == 5 && Announces(p, ssrc, user) && info == p.info
    case HeartbeatAck => p.op == 6
    case Resumed => p.op == 9
    case ClientDisconnect(user) => Leaves(p, user)
    case Dave(op, info) => 21 <= op <= 31 && p.op == op && info == p.info
  }

  /** What one payload does to the SSRC map. */
  function Remap(m: map<u32, nat>, p: Payload): map<u32, nat> {
    if p.op == 5 && p.ssrc.Some? && p.userId.Some? then m[Low32(p.ssrc.value) := p.userId.value]
    else if p.op == 12 && p.userId.Some? && p.audioSsrc.Some? && p.audioSsrc.value != 0 then
      m[Low32(p.audioSsrc.value) := p.userId.value]
    else if p.op == 13 && p.userId.Some? then map s | s in m && m[s] != p.userId.value :: m[s]
    else m
  }

  /** The map answers for every SSRC what the history says. */
  ghost predicate Mirrors(m: map<u32, nat>, h: seq<Payload>) {
    forall s: u32, u: nat :: Belongs(h, s, u) <==> (s in m && m[s] == u)
  }

  lemma RemapMirrors(m: map<u32, nat>, h: seq<Payload>, p: Payload)
    requires Mirrors(m, h)
    ensures Mirrors(Remap(m, p), h + [p])
  {
    forall s: u32, u: nat
      ensures Belongs(h + [p], s, u) <==> (s in Remap(m, p) && Remap(m, p)[s] == u)
    {
      BelongsStep(h, p, s, u);
      if p.op == 5 && p.ssrc.Some? && p.userId.Some? {
        assert Announces(p, Low32(p.ssrc.value), p.userId.value);
      } else if p.op == 12 && p.userId.Some? && p.audioSsrc.Some? && p.audioSsrc.value != 0 {
        assert Announces(p, Low32(p.audioSsrc.value), p.userId.value);
      } else {
        assert forall other: nat :: !Announces(p, s, other);
      }
    }
  }

  class VoiceGatewayState {
    var lastSequence: int
    var ready: Option<nat>
    var description: Option<nat>
    var ssrcToUser: map<u32, nat>
    /** Every payload handled so far. */
    ghost var history: seq<Payload>

    constructor ()
      ensures Valid() && history == [] && lastSequence == -1 && ready == None && description == None
    {
      lastSequence, ready, description, ssrcToUser, history := -1, None, None, map[], [];
    }

    ghost predicate Valid()
      reads this
    {
      IsSeqAck(history, lastSequence) && Mirrors(ssrcToUser, history)
    }

    /** After any history the map and the sequence number say exactly what the history says. */
    method HandlePayload(p: Payload) returns (notice: Option<Notice>)
      requires Valid()
      modifies this
      ensures Valid() && history == old(history) + [p]
      ensures ready == (if p.op == 2 then Some(p.info) else old(ready))
      ensures description == (if p.op == 4 then Some(p.info) else old(description))
      ensures forall n :: notice == Some(n) <==> Tells(n, p)
    {
      RemapMirrors(ssrcToUser, history, p);
      SeqAckStep(history, p, lastSequence);
      history := history + [p];
      if p.sequence.Some? {
        lastSequence := p.sequence.value;
      }
      if p.op == 8 {
        notice := Some(Hello(p.info));
      } else if p.op == 2 {
        ready := Some(p.info);
        notice := Some(Ready(p.info));
      } else if p.op == 4 {
        description := Some(p.info);
        notice := Some(SessionDescription(p.info));
      } else if p.op == 5 {
        if p.ssrc.None? || p.userId.None? {
          return None;
        }
        ssrcToUser := ssrcToUser[Low32(p.ssrc.value) := p.userId.value];
        notice := Some(Speaking(p.userId.value, Low32(p.ssrc.value), p.info));
      } else if p.op == 6 {
        notice := Some(HeartbeatAck);
      } else if p.op == 9 {
        notice := Some(Resumed);
      } else if p.op == 12 {
        if p.userId.Some? && p.audioSsrc.Some? && p.audioSsrc.value != 0 {
          ssrcToUser := ssrcToUser[Low32(p.audioSsrc.value) := p.userId.value];
        }
        notice := None;
      } else if p.op == 13 {
        if p.userId.None? {
          return None;
        }
        ssrcToUser := map s | s in ssrcToUser && ssrcToUser[s] != p.userId.value :: ssrcToUser[s];
        notice := Some(ClientDisconnect(p.userId.value));
      } else if 21 <= p.op <= 31 {
        notice := Some(Dave(p.op, p.info));
      } else {
        notice := None;
      }
    }
  }
}
