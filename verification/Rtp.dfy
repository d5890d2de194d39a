/**
 RTP packets of the voice transport: header building and parsing after section 5.1 of
 RFC 3550, the header extension of section 5.3.1, and the encrypted envelope
 `prefix || ciphertext || nonce`.
 */
module Rtp {
  import opened Common

  type bytes = seq<byte>

  type u16 = n: nat | n < 0x1_0000
  type u32 = n: nat | n < 0x1_0000_0000

  function Be16(n: u16): bytes {
    [(n / 256) as byte, (n % 256) as byte]
  }

  function Be32(n: u32): bytes {
    Be16(n / 0x1_0000) + Be16(n % 0x1_0000)
  }

  function U16(a: byte, b: byte): u16 {
    a as nat * 256 + b as nat
  }

  function U32(a: byte, b: byte, c: byte, d: byte): u32 {
    U16(a, b) * 0x1_0000 + U16(c, d)
  }

  /** The 32-bit word at `offset`. */
  function Word(data: bytes, offset: nat): u32
    requires offset + 4 <= |data|
  {
    U32(data[offset], data[offset + 1], data[offset + 2], data[offset + 3])
  }

  lemma Be16RoundTrip(n: u16, a: byte, b: byte)
    ensures U16(Be16(n)[0], Be16(n)[1]) == n
    ensures Be16(U16(a, b)) == [a, b]
  {
  }

  lemma WordRoundTrip(n: u32, front: bytes, rest: bytes)
    ensures |Be32(n)| == 4 && Word(front + Be32(n) + rest, |front|) == n
  {
    Be16RoundTrip(n / 0x1_0000, 0, 0);
    Be16RoundTrip(n % 0x1_0000, 0, 0);
    var data := front + Be32(n) + rest;
    assert data[|front|..|front| + 4] == Be32(n);
    assert forall k | 0 <= k < 4 :: data[|front| + k] == Be32(n)[k];
  }

  lemma FourBytes(data: bytes, at: nat)
    requires at + 4 <= |data|
    ensures data[at..at + 4] == [data[at], data[at + 1]] + [data[at + 2], data[at + 3]]
  {
  }

  lemma BytesOfWord(data: bytes, offset: nat)
    requires offset + 4 <= |data|
    ensures Be32(Word(data, offset)) == data[offset..offset + 4]
  {
    var a, b, c, d := data[offset], data[offset + 1], data[offset + 2], data[offset + 3];
    Be16RoundTrip(0, a, b);
    Be16RoundTrip(0, c, d);
    FourBytes(data, offset);
    assert Word(data, offset) / 0x1_0000 == U16(a, b) && Word(data, offset) % 0x1_0000 == U16(c, d);
  }

  // ---- Parsing -------------------------------------------------------------

  datatype RtpPacket = RtpPacket(version: nat, padding: bool, extension: bool, marker: bool, payloadType: nat,
                                 sequence: u16, timestamp: u32, ssrc: u32, csrcs: seq<u32>,
                                 header: bytes, payload: bytes)

  datatype Failure = TooShort | TruncatedCsrc | TruncatedExtension | NoNonce | NotAuthentic

  datatype Result<T> = Ok(value: T) | Err(failure: Failure)

  predicate IsRtcp(data: bytes) {
    |data| >= 2 && 200 <= data[1] <= 204
  }

  function CsrcCount(first: byte): nat { (first % 16) as nat }

  predicate HasExtension(first: byte) { (first / 16) % 2 == 1 }

  /** Length of the part that travels in the clear. */
  function PrefixLen(first: byte): nat {
    12 + 4 * CsrcCount(first) + (if HasExtension(first) then 4 else 0)
  }

  function Words(data: bytes, offset: nat, count: nat): seq<u32>
    requires offset + 4 * count <= |data|
  {
    if count == 0 then [] else Words(data, offset, count - 1) + [Word(data, offset + 4 * (count - 1))]
  }

  function ParseRtp(data: bytes): Result<RtpPacket> {
    if |data| < 12 then Err(TooShort)
    else if |data| < 12 + 4 * CsrcCount(data[0]) then Err(TruncatedCsrc)
    else if |data| < PrefixLen(data[0]) then Err(TruncatedExtension)
    else
      var offset := PrefixLen(data[0]);
      Ok(RtpPacket((data[0] / 64) as nat, (data[0] / 32) % 2 == 1, HasExtension(data[0]),
                   data[1] >= 128, (data[1] % 128) as nat,
                   U16(data[2], data[3]), Word(data, 4), Word(data, 8),
                   Words(data, 12, CsrcCount(data[0])), data[..offset], data[offset..]))
  }

  method ParseRtpPacket(data: bytes) returns (r: Result<RtpPacket>)
    ensures r == ParseRtp(data)
  {
    if |data| < 12 {
      return Err(TooShort);
    }
    var first, second := data[0], data[1];
    var csrcCount := (first % 16) as nat;
    var offset := 12;
    if |data| < offset + csrcCount * 4 {
      return Err(TruncatedCsrc);
    }
    var csrcs := [];
    for i := 0 to csrcCount
      invariant offset == 12 + 4 * i
      invariant csrcs == Words(data, 12, i)
    {
      csrcs := csrcs + [U32(data[offset], data[offset + 1], data[offset + 2], data[offset + 3])];
      offset := offset + 4;
    }
    if HasExtension(first) {
      if |data| < offset + 4 {
        return Err(TruncatedExtension);
      }
      offset := offset + 4;
    }
    r := Ok(RtpPacket((first / 64) as nat, (first / 32) % 2 == 1, HasExtension(first),
                      second >= 128, (second % 128) as nat,
                      U16(data[2], data[3]), Word(data, 4), Word(data, 8),
                      csrcs, data[..offset], data[offset..]));
  }

  // ---- Building ------------------------------------------------------------

  /** The clear part of a packet; `extension` is the profile and the number of words. */
  datatype Prefix = Prefix(version: nat, padding: bool, marker: bool, payloadType: nat, sequence: u16,
                           timestamp: u32, ssrc: u32, csrcs: seq<u32>, extension: Option<(u16, u16)>)

  predicate ValidPrefix(p: Prefix) {
    p.version < 4 && p.payloadType < 128 && |p.csrcs| <= 15
  }

  function FirstByte(p: Prefix): byte
    requires ValidPrefix(p)
  {
    (p.version * 64 + (if p.padding then 32 else 0) + (if p.extension.Some? then 16 else 0) + |p.csrcs|) as byte
  }

  function SecondByte(p: Prefix): byte
    requires ValidPrefix(p)
  {
    ((if p.marker then 128 else 0) + p.payloadType) as byte
  }

  /** The first `n` words, most significant byte first. */
  function WordBytes(ws: seq<u32>, n: nat): bytes
    requires n <= |ws|
  {
    if n == 0 then [] else WordBytes(ws, n - 1) + Be32(ws[n - 1])
  }

  function ExtensionBytes(e: Option<(u16, u16)>): bytes {
    if e.Some? then Be16(e.value.0) + Be16(e.value.1) else []
  }

  function Fixed(p: Prefix): bytes
    requires ValidPrefix(p)
  {
    [FirstByte(p), SecondByte(p)] + Be16(p.sequence) + Be32(p.timestamp) + Be32(p.ssrc)
  }

  function Encode(p: Prefix): bytes
    requires ValidPrefix(p)
  {
    Fixed(p) + WordBytes(p.csrcs, |p.csrcs|) + ExtensionBytes(p.extension)
  }

  lemma {:induction false} WordBytesLen(ws: seq<u32>, n: nat)
    requires n <= |ws|
    ensures |WordBytes(ws, n)| == 4 * n
  {
    if n > 0 {
      WordBytesLen(ws, n - 1);
    }
  }

  lemma WordAt(data: bytes, at: nat, n: u32)
    requires at + 4 <= |data| && data[at..at + 4] == Be32(n)
    ensures Word(data, at) == n
  {
    WordRoundTrip(n, [], []);
    FourBytes(data, at);
    assert [] + Be32(n) + [] == Be32(n);
  }

  lemma SliceOfTwo(data: bytes, at: nat, a: bytes, b: bytes)
    requires at + |a| + |b| <= |data| && data[at..at + |a| + |b|] == a + b
    ensures data[at..at + |a|] == a && data[at + |a|..at + |a| + |b|] == b
  {
    var both := data[at..at + |a| + |b|];
    assert data[at..at + |a|] == both[..|a|];
    assert data[at + |a|..at + |a| + |b|] == both[|a|..];
  }

  lemma {:induction false} WordsBack(data: bytes, offset: nat, ws: seq<u32>, n: nat)
    requires n <= |ws| && offset + 4 * n <= |data| && data[offset..offset + 4 * n] == WordBytes(ws, n)
    ensures Words(data, offset, n) == ws[..n]
  {
    if n > 0 {
      WordBytesLen(ws, n - 1);
      SliceOfTwo(data, offset, WordBytes(ws, n - 1), Be32(ws[n - 1]));
      WordsBack(data, offset, ws, n - 1);
      WordAt(data, offset + 4 * (n - 1), ws[n - 1]);
    }
  }

  lemma FirstByteBack(p: Prefix)
    requires ValidPrefix(p)
    ensures var b := FirstByte(p);
            && (b / 64) as nat == p.version && ((b / 32) % 2 == 1) == p.padding
            && HasExtension(b) == p.extension.Some? && CsrcCount(b) == |p.csrcs|
    ensures var b := SecondByte(p);
            (b >= 128) == p.marker && (b % 128) as nat == p.payloadType
  {
  }

  lemma FixedBack(p: Prefix, rest: bytes)
    requires ValidPrefix(p)
    ensures var data := Fixed(p) + rest;
            && |Fixed(p)| == 12 && data[0] == FirstByte(p) && data[1] == SecondByte(p)
            && U16(data[2], data[3]) == p.sequence && Word(data, 4) == p.timestamp && Word(data, 8) == p.ssrc
  {
    var data := Fixed(p) + rest;
    var two := [FirstByte(p), SecondByte(p)] + Be16(p.sequence);
    Be16RoundTrip(p.sequence, 0, 0);
    WordRoundTrip(p.timestamp, two, Be32(p.ssrc) + rest);
    assert data == two + Be32(p.timestamp) + (Be32(p.ssrc) + rest);
    WordRoundTrip(p.ssrc, two + Be32(p.timestamp), rest);
    assert data == (two + Be32(p.timestamp)) + Be32(p.ssrc) + rest;
  }

  function PacketOf(p: Prefix, payload: bytes): RtpPacket
    requires ValidPrefix(p)
  {
    RtpPacket(p.version, p.padding, p.extension.Some?, p.marker, p.payloadType, p.sequence, p.timestamp, p.ssrc,
              p.csrcs, Encode(p), payload)
  }

  lemma Regroup(a: bytes, b: bytes, c: bytes, d: bytes)
    ensures a + b + c + d == a + (b + (c + d))
    ensures a + b + c + d == a + b + (c + d)
  {
    Assoc(a + b, c, d);
    Assoc(a, b, c + d);
  }

  /** Every field of every packet comes back, whatever its CSRC list and extension. */
  lemma ParseUndoesEncode(p: Prefix, payload: bytes)
    requires ValidPrefix(p)
    ensures ParseRtp(Encode(p) + payload) == Ok(PacketOf(p, payload))
  {
    var data := Encode(p) + payload;
    var rest := ExtensionBytes(p.extension) + payload;
    Regroup(Fixed(p), WordBytes(p.csrcs, |p.csrcs|), ExtensionBytes(p.extension), payload);
    FixedBack(p, WordBytes(p.csrcs, |p.csrcs|) + rest);
    WordBytesLen(p.csrcs, |p.csrcs|);
    assert data[12..12 + 4 * |p.csrcs|] == WordBytes(p.csrcs, |p.csrcs|);
    WordsBack(data, 12, p.csrcs, |p.csrcs|);
    assert p.csrcs[..|p.csrcs|] == p.csrcs;
    FirstByteBack(p);
    assert |Encode(p)| == PrefixLen(data[0]);
    assert data[..|Encode(p)|] == Encode(p) && data[|Encode(p)|..] == payload;
  }

  /** The prefix a parsed packet was sent with. */
  function PrefixOf(r: RtpPacket): Prefix
    requires |r.header| >= 4
  {
    var n := |r.header|;
    Prefix(r.version, r.padding, r.marker, r.payloadType, r.sequence, r.timestamp, r.ssrc, r.csrcs,
           if r.extension then Some((U16(r.header[n - 4], r.header[n - 3]), U16(r.header[n - 2], r.header[n - 1])))
           else None)
  }

  lemma {:induction false} WordBytesBack(data: bytes, offset: nat, ws: seq<u32>, n: nat)
    requires n <= |ws| && offset + 4 * n <= |data|
    requires forall k | 0 <= k < n :: ws[k] == Word(data, offset + 4 * k)
    ensures WordBytes(ws, n) == data[offset..offset + 4 * n]
  {
    if n > 0 {
      var end := offset + 4 * (n - 1);
      WordBytesBack(data, offset, ws, n - 1);
      BytesOfWord(data, end);
      assert data[offset..end] + data[end..end + 4] == data[offset..end + 4];
    }
  }

  lemma {:induction false} WordsAre(data: bytes, offset: nat, count: nat)
    requires offset + 4 * count <= |data|
    ensures |Words(data, offset, count)| == count
    ensures forall k | 0 <= k < count :: Words(data, offset, count)[k] == Word(data, offset + 4 * k)
  {
    if count > 0 {
      WordsAre(data, offset, count - 1);
    }
  }

  lemma FirstByteOf(first: byte, second: byte, p: Prefix)
    requires p.version == (first / 64) as nat && p.padding == ((first / 32) % 2 == 1)
    requires p.extension.Some? == HasExtension(first) && |p.csrcs| == CsrcCount(first)
    requires p.marker == (second >= 128) && p.payloadType == (second % 128) as nat
    ensures ValidPrefix(p) && FirstByte(p) == first && SecondByte(p) == second
  {
    var f := first as int;
    assert f == (f / 64) * 64 + ((f / 32) % 2) * 32 + ((f / 16) % 2) * 16 + f % 16;
  }

  lemma FixedOf(data: bytes, p: Prefix)
    requires |data| >= 12 && ValidPrefix(p) && FirstByte(p) == data[0] && SecondByte(p) == data[1]
    requires p.sequence == U16(data[2], data[3]) && p.timestamp == Word(data, 4) && p.ssrc == Word(data, 8)
    ensures Fixed(p) == data[..12]
  {
    Be16RoundTrip(0, data[2], data[3]);
    BytesOfWord(data, 4);
    BytesOfWord(data, 8);
    Twelve(data);
  }

  lemma Twelve(data: bytes)
    requires |data| >= 12
    ensures data[..12] == [data[0], data[1]] + [data[2], data[3]] + data[4..8] + data[8..12]
  {
  }

  lemma Split(data: bytes, a: nat, b: nat)
    requires a <= b <= |data|
    ensures data[..a] + data[a..b] == data[..b] && data[..b] + data[b..] == data
  {
  }

  lemma ExtensionOf(data: bytes, at: nat)
    requires at + 4 <= |data|
    ensures ExtensionBytes(Some((U16(data[at], data[at + 1]), U16(data[at + 2], data[at + 3])))) == data[at..at + 4]
  {
    Be16RoundTrip(0, data[at], data[at + 1]);
    Be16RoundTrip(0, data[at + 2], data[at + 3]);
    FourBytes(data, at);
  }

  /** Parsing loses nothing: the datagram can be rebuilt from the parsed packet. */
  lemma EncodeUndoesParse(data: bytes)
    requires ParseRtp(data).Ok?
    ensures var r := ParseRtp(data).value;
            |r.header| >= 4 && ValidPrefix(PrefixOf(r)) && Encode(PrefixOf(r)) + r.payload == data
  {
    var r := ParseRtp(data).value;
    var p, words, end := PrefixOf(r), 12 + 4 * CsrcCount(data[0]), PrefixLen(data[0]);
    WordsAre(data, 12, CsrcCount(data[0]));
    WordBytesBack(data, 12, r.csrcs, CsrcCount(data[0]));
    FirstByteOf(data[0], data[1], p);
    FixedOf(data, p);
    if r.extension {
      ExtensionOf(data, words);
    }
    assert ExtensionBytes(p.extension) == data[words..end];
    Split(data, 12, words);
    Split(data, words, end);
  }

  /** Parsing succeeds on exactly the datagrams that start with some encoded prefix. */
  lemma ParsesExactlyPackets(data: bytes)
    ensures ParseRtp(data).Ok? <==> exists p: Prefix, payload: bytes :: ValidPrefix(p) && data == Encode(p) + payload
  {
    if ParseRtp(data).Ok? {
      EncodeUndoesParse(data);
    }
    if p: Prefix, payload: bytes :| ValidPrefix(p) && data == Encode(p) + payload {
      ParseUndoesEncode(p, payload);
    }
  }
}
