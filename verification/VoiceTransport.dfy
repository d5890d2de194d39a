/**
 The voice media path: an outbound session that seals opus frames into RTP datagrams,
 the encrypted envelope, and the receiver that opens them again. The cipher is any pair of
 functions in which opening undoes sealing.
 */
module VoiceTransport {
  import opened Common
  import opened Rtp
  import VoiceState

  /** `enc(header, plaintext, counter)` and `dec(header, ciphertext, nonce4)`. */
  datatype Cipher = Cipher(enc: (bytes, bytes, u32) -> bytes, dec: (bytes, bytes, bytes) -> Option<bytes>)

  ghost predicate Sound(c: Cipher) {
    forall h: bytes, p: bytes, n: u32 :: c.dec(h, c.enc(h, p, n), Be32(n)) == Some(p)
  }

  /** Ciphertext followed by the 4-byte counter, as `seal` puts it on the wire. */
  function Seal(c: Cipher, header: bytes, plaintext: bytes, counter: u32): bytes {
    c.enc(header, plaintext, counter) + Be32(counter)
  }

  /** Drops the decrypted extension words announced in the clear preamble. */
  function StripExtension(packet: RtpPacket, plaintext: bytes): bytes
    requires packet.extension ==> |packet.header| >= 2
  {
    if !packet.extension then plaintext
    else
      var n := |packet.header|;
      var skip := U16(packet.header[n - 2], packet.header[n - 1]) * 4;
      if skip <= |plaintext| then plaintext[skip..] else []
  }

  function OpenPacket(c: Cipher, data: bytes): Result<(RtpPacket, bytes)> {
    match ParseRtp(data)
    case Err(e) => Err(e)
    case Ok(packet) =>
      var n := |packet.payload|;
      if n < 4 then Err(NoNonce)
      else
        match c.dec(packet.header, packet.payload[..n - 4], packet.payload[n - 4..])
        case None => Err(NotAuthentic)
        case Some(plaintext) => Ok((packet, StripExtension(packet, plaintext)))
  }

  lemma EnvelopeBack(c: Cipher, header: bytes, plaintext: bytes, counter: u32)
    requires Sound(c)
    ensures var sealed := Seal(c, header, plaintext, counter); var n := |sealed|;
            n >= 4 && c.dec(header, sealed[..n - 4], sealed[n - 4..]) == Some(plaintext)
  {
    var ct := c.enc(header, plaintext, counter);
    assert |Be32(counter)| == 4;
    assert Seal(c, header, plaintext, counter)[..|ct|] == ct;
    assert Seal(c, header, plaintext, counter)[|ct|..] == Be32(counter);
  }

  lemma LastWordCount(p: Prefix)
    requires ValidPrefix(p) && p.extension.Some?
    ensures var h := Encode(p); |h| >= 2 && U16(h[|h| - 2], h[|h| - 1]) == p.extension.value.1
  {
    var count := Be16(p.extension.value.1);
    Be16RoundTrip(p.extension.value.1, 0, 0);
    assert Encode(p)[|Encode(p)| - 2..] == count;
  }

  /**
   For any CSRC list and any extension length, opening a sealed packet gives back the
   packet and exactly the media: the encrypted extension words are cut off and no more.
   */
  lemma OpensToMedia(c: Cipher, p: Prefix, words: bytes, media: bytes, counter: u32)
    requires Sound(c) && ValidPrefix(p)
    requires |words| == if p.extension.Some? then 4 * p.extension.value.1 else 0
    ensures var sealed := Seal(c, Encode(p), words + media, counter);
            OpenPacket(c, Encode(p) + sealed) == Ok((PacketOf(p, sealed), media))
  {
    var sealed := Seal(c, Encode(p), words + media, counter);
    ParseUndoesEncode(p, sealed);
    EnvelopeBack(c, Encode(p), words + media, counter);
    assert (words + media)[|words|..] == media;
    if p.extension.Some? {
      LastWordCount(p);
    }
  }

  /** A plaintext shorter than the announced extension words leaves no media. */
  lemma ShortExtension(c: Cipher, p: Prefix, plaintext: bytes, counter: u32)
    requires Sound(c) && ValidPrefix(p) && p.extension.Some? && |plaintext| <= 4 * p.extension.value.1
    ensures var sealed := Seal(c, Encode(p), plaintext, counter);
            OpenPacket(c, Encode(p) + sealed) == Ok((PacketOf(p, sealed), []))
  {
    var sealed := Seal(c, Encode(p), plaintext, counter);
    ParseUndoesEncode(p, sealed);
    EnvelopeBack(c, Encode(p), plaintext, counter);
    NothingLeft(p, sealed, plaintext);
  }

  lemma NothingLeft(p: Prefix, payload: bytes, plaintext: bytes)
    requires ValidPrefix(p) && p.extension.Some? && |plaintext| <= 4 * p.extension.value.1
    ensures |Encode(p)| >= 2 && StripExtension(PacketOf(p, payload), plaintext) == []
  {
    LastWordCount(p);
    assert plaintext[|plaintext|..] == [];
  }

  /** Opening fails exactly on what is no packet, has no room for the nonce or the cipher does not accept. */
  lemma OpenFails(c: Cipher, p: Prefix, payload: bytes)
    requires ValidPrefix(p)
    ensures var n := |payload|;
            OpenPacket(c, Encode(p) + payload).Err? <==>
            n < 4 || c.dec(Encode(p), payload[..n - 4], payload[n - 4..]).None?
  {
    ParseUndoesEncode(p, payload);
  }

  // ---- Outbound ------------------------------------------------------------

  /** The header of frame `n` of a session. */
  function FramePrefix(ssrc: u32, n: nat): Prefix {
    Prefix(2, false, false, 0x78, n % 0x1_0000, (960 * n) % 0x1_0000_0000, ssrc, [], None)
  }

  function FrameHeader(ssrc: u32, n: nat): bytes {
    Encode(FramePrefix(ssrc, n))
  }

  function SealedFrame(c: Cipher, ssrc: u32, n: nat, opus: bytes): bytes {
    FrameHeader(ssrc, n) + Seal(c, FrameHeader(ssrc, n), opus, n % 0x1_0000_0000)
  }

  /** `copy_from_slice` into the middle of a buffer. */
  method CopyInto(buffer: array<byte>, at: nat, part: bytes)
    requires at + |part| <= buffer.Length
    modifies buffer
    ensures buffer[at..at + |part|] == part
    ensures buffer[..at] == old(buffer[..at]) && buffer[at + |part|..] == old(buffer[at + |part|..])
  {
    forall k | 0 <= k < |part| {
      buffer[at + k] := part[k];
    }
  }

  method BuildRtpHeader(payloadType: byte, sequence: u16, timestamp: u32, ssrc: u32) returns (header: array<byte>)
    ensures fresh(header)
    ensures header[..] == Encode(Prefix(2, false, false, (payloadType % 128) as nat, sequence, timestamp, ssrc, [], None))
  {
    header := new byte[12](_ => 0);
    header[0] := 0x80;
    header[1] := payloadType % 128;
    assert header[..2] == [0x80, payloadType % 128];
    CopyInto(header, 2, Be16(sequence));
    assert header[..4] == header[..2] + Be16(sequence);
    CopyInto(header, 4, Be32(timestamp));
    assert header[..8] == header[..4] + Be32(timestamp);
    CopyInto(header, 8, Be32(ssrc));
    assert header[..] == header[..8] + Be32(ssrc);
  }

  class RtpSession {
    const ssrc: u32
    var sequence: u16
    var timestamp: u32
    var nonce: u32
    /** Frames sealed so far. */
    ghost var sent: nat

    constructor (ssrc: u32)
      ensures Valid() && sent == 0 && this.ssrc == ssrc
    {
      this.ssrc := ssrc;
      sequence, timestamp, nonce, sent := 0, 0, 0, 0;
    }

    ghost predicate Valid()
      reads this
    {
      sequence == sent % 0x1_0000 && timestamp == (960 * sent) % 0x1_0000_0000 && nonce == sent % 0x1_0000_0000
    }

    method SealFrame(c: Cipher, opus: bytes) returns (packet: bytes)
      requires Valid()
      modifies this
      ensures Valid() && sent == old(sent) + 1
      ensures packet == SealedFrame(c, ssrc, old(sent), opus)
    {
      var header := BuildRtpHeader(0x78 as byte, sequence, timestamp, ssrc);
      packet := header[..] + Seal(c, header[..], opus, nonce);
      Advance(960);
    }

    /** Moves on to the next frame: by one frame of samples, the counters stay those of the frames sent. */
    method Advance(step: u32)
      modifies this
      ensures sent == old(sent) + 1 && (old(Valid()) && step == 960 ==> Valid())
      ensures timestamp == (old(timestamp) + step) % 0x1_0000_0000
    {
      Wrap16(sent, 1);
      Wrap32(sent, 1);
      Wrap32(960 * sent, 960);
      sequence := (sequence + 1) % 0x1_0000;
      timestamp := (timestamp + step) % 0x1_0000_0000;
      nonce := (nonce + 1) % 0x1_0000_0000;
      sent := sent + 1;
    }
  }

  // ---- Inbound -------------------------------------------------------------

  datatype ReceivedFrame = ReceivedFrame(userId: Option<nat>, ssrc: u32, sequence: u16, timestamp: u32, opus: bytes)

  function Lookup(users: map<u32, nat>, ssrc: u32): Option<nat> {
    if ssrc in users then Some(users[ssrc]) else None
  }

  /** The payload that announces an SSRC, and the one that says a user has left. */
  function Announcement(ssrc: u32, userId: nat): VoiceState.Payload {
    VoiceState.Payload(None, 5, Some(ssrc), Some(userId), None, 0)
  }

  function Departure(userId: nat): VoiceState.Payload {
    VoiceState.Payload(None, 13, None, Some(userId), None, 0)
  }

  class VoiceReceiver {
    const cipher: Cipher
    var ssrcToUser: map<u32, nat>
    /** The announcements and departures this receiver was told of. */
    ghost var told: seq<VoiceState.Payload>

    constructor (cipher: Cipher)
      ensures Valid() && this.cipher == cipher && told == []
    {
      this.cipher := cipher;
      ssrcToUser, told := map[], [];
    }

    /** An SSRC resolves to a user exactly when that user announced it last and has not left since. */
    ghost predicate Valid()
      reads this
    {
      VoiceState.Mirrors(ssrcToUser, told)
    }

    method MapSsrc(ssrc: u32, userId: nat)
      requires Valid()
      modifies this
      ensures Valid() && told == old(told) + [Announcement(ssrc, userId)]
    {
      VoiceState.RemapMirrors(ssrcToUser, told, Announcement(ssrc, userId));
      ssrcToUser := ssrcToUser[ssrc := userId];
      told := told + [Announcement(ssrc, userId)];
    }

    method ForgetUser(userId: nat)
      requires Valid()
      modifies this
      ensures Valid() && told == old(told) + [Departure(userId)]
    {
      VoiceState.RemapMirrors(ssrcToUser, told, Departure(userId));
      ssrcToUser := map s | s in ssrcToUser && ssrcToUser[s] != userId :: ssrcToUser[s];
      told := told + [Departure(userId)];
    }

    /**
     RTCP, and nothing else, gives no frame; only what does not open is an error. A datagram that was sealed
     from any packet opens to that packet's media and counters, so frame `n` of a session arrives as
     it was sent, with whoever owns its SSRC.
     */
    method Process(datagram: bytes) returns (r: Result<Option<ReceivedFrame>>)
      requires Valid()
      ensures r == Ok(None) <==> |datagram| >= 2 && 200 <= datagram[1] <= 204
      ensures r.Err? <==> !IsRtcp(datagram) && OpenPacket(cipher, datagram).Err?
      ensures r.Err? ==> r.failure == OpenPacket(cipher, datagram).failure
      ensures r.Ok? && r.value.Some? ==> Owner(told, r.value.value.ssrc, r.value.value.userId)
      ensures r.Ok? && r.value.Some? ==> IsFrom(r.value.value, OpenPacket(cipher, datagram))
      ensures forall ssrc: u32, n: nat, opus: bytes {:trigger SealedFrame(cipher, ssrc, n, opus)} |
                Sound(cipher) && datagram == SealedFrame(cipher, ssrc, n, opus) ::
                r.Ok? && r.value.Some? && Carries(r.value.value, ssrc, n, opus)
    {
      forall ssrc: u32, n: nat, opus: bytes | Sound(cipher) && datagram == SealedFrame(cipher, ssrc, n, opus)
        ensures Arrives(cipher, datagram, ssrc, n, opus)
      {
        FrameArrives(cipher, ssrc, n, opus);
      }
      if IsRtcp(datagram) {
        return Ok(None);
      }
      match OpenPacket(cipher, datagram) {
        case Err(e) => r := Err(e);
        case Ok((p, opus)) =>
          LookupOwner(ssrcToUser, told, p.ssrc);
          r := Ok(Some(ReceivedFrame(Lookup(ssrcToUser, p.ssrc), p.ssrc, p.sequence, p.timestamp, opus)));
      }
    }
  }

  /** `user` is the one the SSRC belongs to, None if it belongs to nobody. */
  ghost predicate Owner(told: seq<VoiceState.Payload>, ssrc: u32, user: Option<nat>) {
    forall u: nat :: VoiceState.Belongs(told, ssrc, u) <==> user == Some(u)
  }

  lemma LookupOwner(users: map<u32, nat>, told: seq<VoiceState.Payload>, ssrc: u32)
    requires VoiceState.Mirrors(users, told)
    ensures Owner(told, ssrc, Lookup(users, ssrc))
  {
  }

  /** The frame has the counters and the media of the opened packet. */
  predicate IsFrom(f: ReceivedFrame, content: Result<(RtpPacket, bytes)>) {
    && content.Ok? && f.ssrc == content.value.0.ssrc && f.sequence == content.value.0.sequence
    && f.timestamp == content.value.0.timestamp && f.opus == content.value.1
  }

  /** The frame is frame `n` of a session: its opus bytes, its SSRC and the wrapped counters. */
  predicate Carries(f: ReceivedFrame, ssrc: u32, n: nat, opus: bytes) {
    f.ssrc == ssrc && f.sequence == n % 0x1_0000 && f.timestamp == (960 * n) % 0x1_0000_0000 && f.opus == opus
  }

  predicate Arrives(c: Cipher, datagram: bytes, ssrc: u32, n: nat, opus: bytes) {
    var content := OpenPacket(c, datagram);
    && !IsRtcp(datagram) && content.Ok?
    && var (p, media) := content.value;
       p.ssrc == ssrc && p.sequence == n % 0x1_0000 && p.timestamp == (960 * n) % 0x1_0000_0000 && media == opus
  }

  /** Frame `n` of a session is never taken for RTCP and opens to the same opus bytes, SSRC and counters. */
  lemma FrameArrives(c: Cipher, ssrc: u32, n: nat, opus: bytes)
    requires Sound(c)
    ensures Arrives(c, SealedFrame(c, ssrc, n, opus), ssrc, n, opus)
  {
    var p := FramePrefix(ssrc, n);
    assert [] + opus == opus;
    OpensToMedia(c, p, [], opus, n % 0x1_0000_0000);
    assert SealedFrame(c, ssrc, n, opus)[1] == SecondByte(p) == 0x78;
  }

  // ---- Counters ------------------------------------------------------------

  lemma Be32Injective(a: u32, b: u32)
    ensures Be32(a) == Be32(b) ==> a == b
  {
    WordRoundTrip(a, [], []);
    WordRoundTrip(b, [], []);
  }

  /** The nonce suffix of a datagram. */
  function NonceOf(packet: bytes): bytes
    requires |packet| >= 4
  {
    packet[|packet| - 4..]
  }

  /** Two frames of one session carry equal nonces exactly when a multiple of 2^32 frames apart. */
  lemma NoncesRepeat(c: Cipher, ssrc: u32, i: nat, j: nat, a: bytes, b: bytes)
    requires i <= j
    ensures |SealedFrame(c, ssrc, i, a)| >= 4 && |SealedFrame(c, ssrc, j, b)| >= 4
    ensures NonceOf(SealedFrame(c, ssrc, i, a)) == NonceOf(SealedFrame(c, ssrc, j, b))
       <==> (j - i) % 0x1_0000_0000 == 0
  {
    NonceIsCounter(c, ssrc, i, a);
    NonceIsCounter(c, ssrc, j, b);
    Be32Injective(i % 0x1_0000_0000, j % 0x1_0000_0000);
    SameResidue32(i, j);
  }

  lemma NonceIsCounter(c: Cipher, ssrc: u32, n: nat, opus: bytes)
    ensures |SealedFrame(c, ssrc, n, opus)| >= 4
    ensures NonceOf(SealedFrame(c, ssrc, n, opus)) == Be32(n % 0x1_0000_0000)
  {
    WordRoundTrip(n % 0x1_0000_0000, [], []);
    var front, counter := FrameHeader(ssrc, n) + c.enc(FrameHeader(ssrc, n), opus, n % 0x1_0000_0000), n % 0x1_0000_0000;
    Assoc(FrameHeader(ssrc, n), c.enc(FrameHeader(ssrc, n), opus, counter), Be32(counter));
    assert SealedFrame(c, ssrc, n, opus) == front + Be32(counter);
  }

  lemma SameResidue32(i: nat, j: nat)
    requires i <= j
    ensures i % 0x1_0000_0000 == j % 0x1_0000_0000 <==> (j - i) % 0x1_0000_0000 == 0
  {
  }

  lemma SameResidue16(i: nat, j: nat)
    requires i <= j
    ensures i % 0x1_0000 == j % 0x1_0000 <==> (j - i) % 0x1_0000 == 0
  {
  }

  lemma Wrap32(x: nat, step: nat)
    ensures (x % 0x1_0000_0000 + step) % 0x1_0000_0000 == (x + step) % 0x1_0000_0000
  {
  }

  lemma Wrap16(x: nat, step: nat)
    ensures (x % 0x1_0000 + step) % 0x1_0000 == (x + step) % 0x1_0000
  {
  }

  /** 15 is invertible modulo 2^26: 15 * 49213167 == 1 + 11 * 2^26. */
  lemma Multiple(d: nat, k: nat)
    requires 15 * d == 0x400_0000 * k
    ensures d % 0x400_0000 == 0
  {
    assert d == 0x400_0000 * (49213167 * k - 11 * d);
  }

  lemma Forward(d: nat)
    requires (960 * d) % 0x1_0000_0000 == 0
    ensures d % 0x400_0000 == 0
  {
    var k := 960 * d / 0x1_0000_0000;
    assert 960 * d == 0x1_0000_0000 * k;
    Multiple(d, k);
  }

  lemma Backward(d: nat)
    requires d % 0x400_0000 == 0
    ensures (960 * d) % 0x1_0000_0000 == 0
  {
    var q := d / 0x400_0000;
    assert d == 0x400_0000 * q;
    assert 960 * d == 0x1_0000_0000 * (15 * q);
  }

  /** Only multiples of 2^26 frames repeat the timestamp. */
  lemma TimestampPeriod(d: nat)
    ensures (960 * d) % 0x1_0000_0000 == 0 <==> d % 0x400_0000 == 0
  {
    if (960 * d) % 0x1_0000_0000 == 0 {
      Forward(d);
    }
    if d % 0x400_0000 == 0 {
      Backward(d);
    }
  }

  /** Two frames of one session carry equal headers exactly when a multiple of 2^26 frames apart. */
  lemma HeadersRepeat(ssrc: u32, i: nat, j: nat)
    requires i <= j
    ensures FrameHeader(ssrc, i) == FrameHeader(ssrc, j) <==> (j - i) % 0x400_0000 == 0
  {
    Periods(i, j);
    var p, q := FramePrefix(ssrc, i), FramePrefix(ssrc, j);
    ParseUndoesEncode(p, []);
    ParseUndoesEncode(q, []);
  }

  lemma Periods(i: nat, j: nat)
    requires i <= j
    ensures i % 0x1_0000 == j % 0x1_0000 && (960 * i) % 0x1_0000_0000 == (960 * j) % 0x1_0000_0000
       <==> (j - i) % 0x400_0000 == 0
  {
    SameResidue16(i, j);
    Timestamps(i, j);
    Coarser(j - i);
  }

  lemma Timestamps(i: nat, j: nat)
    requires i <= j
    ensures (960 * i) % 0x1_0000_0000 == (960 * j) % 0x1_0000_0000 <==> (j - i) % 0x400_0000 == 0
  {
    SameResidue32(960 * i, 960 * j);
    TimestampPeriod(j - i);
    assert 960 * j - 960 * i == 960 * (j - i);
  }

  lemma Coarser(d: nat)
    ensures d % 0x400_0000 == 0 ==> d % 0x1_0000 == 0
  {
    var q := d / 0x400_0000;
    if d % 0x400_0000 == 0 {
      assert d == 0x1_0000 * (0x400 * q);
    }
  }
}
