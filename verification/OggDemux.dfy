/**
 The incremental Ogg demuxer: page search, partial pages and lacing. Pages follow
 sections 5 and 6 of RFC 3533.
 */
module OggDemux {
  import opened Common

  type bytes = seq<byte>

  /** "OggS" */
  const CAPTURE: bytes := [0x4F, 0x67, 0x67, 0x53]

  predicate CaptureAt(s: bytes, i: nat) {
    i + 4 <= |s| && s[i] == 0x4F && s[i + 1] == 0x67 && s[i + 2] == 0x67 && s[i + 3] == 0x53
  }

  /** The capture pattern occurs at `i` and nowhere earlier. */
  ghost predicate FirstAt(s: bytes, i: nat) {
    CaptureAt(s, i) && forall j: nat | j < i :: !CaptureAt(s, j)
  }

  /** `bytes.Index` for the capture pattern, searching from `i`. */
  function FindFrom(s: bytes, i: nat): (start: int)
    ensures start >= 0 ==> start >= i && CaptureAt(s, start)
    ensures forall j: nat | i <= j && (start < 0 || j < start) :: !CaptureAt(s, j)
    decreases |s| - i
  {
    if CaptureAt(s, i) then i
    else if i >= |s| then -1
    else FindFrom(s, i + 1)
  }

  function Find(s: bytes): int { FindFrom(s, 0) }

  lemma FindIsFirst(s: bytes, i: nat)
    requires FirstAt(s, i)
    ensures Find(s) == i
  {
  }

  function Sum(lacing: bytes): nat {
    if lacing == [] then 0 else lacing[0] as nat + Sum(lacing[1..])
  }

  function HeaderLen(b: bytes): nat
    requires |b| >= 27
  {
    27 + b[26] as nat
  }

  function LacingOf(b: bytes): bytes
    requires |b| >= 27 && |b| >= HeaderLen(b)
  {
    b[27..HeaderLen(b)]
  }

  function PageLen(b: bytes): nat
    requires |b| >= 27 && |b| >= HeaderLen(b)
  {
    HeaderLen(b) + Sum(LacingOf(b))
  }

  /** A whole page lies at the front of `b`. */
  predicate Complete(b: bytes) {
    |b| >= 27 && |b| >= HeaderLen(b) && |b| >= PageLen(b)
  }

  datatype Pieces = Pieces(packets: seq<bytes>, tail: bytes)

  /** Cuts a page body by its lacing values; `open` is the packet begun so far. */
  function Cut(lacing: bytes, body: bytes, open: bytes): Pieces
    requires |body| == Sum(lacing)
  {
    if lacing == [] then Pieces([], open)
    else
      var n := lacing[0] as nat;
      var grown := open + body[..n];
      if lacing[0] < 255 then
        var rest := Cut(lacing[1..], body[n..], []);
        Pieces([grown] + rest.packets, rest.tail)
      else Cut(lacing[1..], body[n..], grown)
  }

  function CutPage(b: bytes): Pieces
    requires Complete(b)
  {
    Cut(LacingOf(b), b[HeaderLen(b)..PageLen(b)], [])
  }

  lemma {:induction false} CutTailLen(lacing: bytes, body: bytes, open: bytes)
    requires |body| == Sum(lacing)
    ensures |Cut(lacing, body, open).tail| <= |open| + |body|
  {
    if lacing != [] {
      var n := lacing[0] as nat;
      CutTailLen(lacing[1..], body[n..], if lacing[0] < 255 then [] else open + body[..n]);
    }
  }

  /** The buffer once the first page of `b` has been taken out. */
  function AfterPage(b: bytes): (rest: bytes)
    requires Complete(b)
    ensures |rest| + 27 <= |b|
  {
    CutTailLen(LacingOf(b), b[HeaderLen(b)..PageLen(b)], []);
    CutPage(b).tail + b[PageLen(b)..]
  }

  function LastThree(s: bytes): bytes {
    if |s| > 3 then s[|s| - 3..] else s
  }

  datatype Parsed = Parsed(packets: seq<bytes>, buffer: bytes) {
    /** The same outcome with earlier packets in front. */
    function After(earlier: seq<bytes>): Parsed {
      Parsed(earlier + packets, buffer)
    }
  }

  /** What the page loop makes of a buffer. */
  function Parse(s: bytes): Parsed
    decreases |s|
  {
    var start := Find(s);
    if start < 0 then Parsed([], LastThree(s))
    else if !Complete(s[start..]) then Parsed([], s[start..])
    else Parse(AfterPage(s[start..])).After(CutPage(s[start..]).packets)
  }

  class OggDemuxer {
    var buffer: bytes
    var packets: seq<bytes>

    constructor ()
      ensures buffer == [] && packets == []
    {
      buffer, packets := [], [];
    }

    method Write(data: bytes)
      modifies this
      ensures packets == old(packets) + Parse(old(buffer) + data).packets
      ensures buffer == Parse(old(buffer) + data).buffer
    {
      buffer := buffer + data;
      ParsePages();
    }

    method NextPacket() returns (packet: Option<bytes>)
      modifies this`packets
      ensures old(packets) == [] ==> packet == None && packets == []
      ensures old(packets) != [] ==> packet == Some(old(packets)[0]) && packets == old(packets)[1..]
    {
      if |packets| == 0 {
        return None;
      }
      packet := Some(packets[0]);
      packets := packets[1..];
    }

    method ParsePages()
      modifies this
      ensures packets == old(packets) + Parse(old(buffer)).packets
      ensures buffer == Parse(old(buffer)).buffer
    {
      var more := true;
      while more
        invariant packets + (if more then Parse(buffer).packets else []) == old(packets) + Parse(old(buffer)).packets
        invariant (if more then Parse(buffer).buffer else buffer) == Parse(old(buffer)).buffer
        decreases more, |buffer|
      {
        more := TryPage();
      }
    }

    /** One turn of the page loop; every page taken shrinks the buffer. */
    method TryPage() returns (more: bool)
      modifies this
      ensures more ==> |buffer| < |old(buffer)|
      ensures packets + (if more then Parse(buffer).packets else []) == old(packets) + Parse(old(buffer)).packets
      ensures (if more then Parse(buffer).buffer else buffer) == Parse(old(buffer)).buffer
    {
      more := Seek();
      if more {
        ghost var page, queued := buffer, packets;
        more := TakeFront();
        if more {
          Assoc(queued, CutPage(page).packets, Parse(buffer).packets);
        }
      }
    }

    /** Drops the bytes before the next capture pattern, keeping three that may begin one. */
    method Seek() returns (found: bool)
      modifies this`buffer
      ensures found == (Find(old(buffer)) >= 0)
      ensures buffer == if found then old(buffer)[Find(old(buffer))..] else LastThree(old(buffer))
    {
      var start := Find(buffer);
      if start < 0 {
        if |buffer| > 3 {
          buffer := buffer[|buffer| - 3..];
        }
        return false;
      }
      if start > 0 {
        buffer := buffer[start..];
      }
      return true;
    }

    /** Takes the page at the front of the buffer, once all of it has arrived. */
    method TakeFront() returns (taken: bool)
      modifies this
      ensures taken == Complete(old(buffer))
      ensures taken ==> buffer == AfterPage(old(buffer)) && packets == old(packets) + CutPage(old(buffer)).packets
      ensures !taken ==> buffer == old(buffer) && packets == old(packets)
    {
      if |buffer| < 27 {
        return false;
      }
      var segmentCount := buffer[26] as nat;
      var headerLen := 27 + segmentCount;
      if |buffer| < headerLen {
        return false;
      }
      var lacing := buffer[27..headerLen];
      var bodyLen := AddUp(lacing);
      if |buffer| < headerLen + bodyLen {
        return false;
      }
      TakePage(lacing, buffer[headerLen..headerLen + bodyLen], buffer[headerLen + bodyLen..]);
      return true;
    }

    /** The lacing loop; an unfinished packet goes back in front of the remainder. */
    method TakePage(lacing: bytes, body: bytes, remainder: bytes)
      requires |body| == Sum(lacing)
      modifies this
      ensures packets == old(packets) + Cut(lacing, body, []).packets
      ensures buffer == Cut(lacing, body, []).tail + remainder
    {
      var offset, packet := 0, [];
      for i := 0 to |lacing|
        invariant offset <= |body| && |body[offset..]| == Sum(lacing[i..])
        invariant packets + Cut(lacing[i..], body[offset..], packet).packets
               == old(packets) + Cut(lacing, body, []).packets
        invariant Cut(lacing[i..], body[offset..], packet).tail == Cut(lacing, body, []).tail
      {
        assert lacing[i..][0] == lacing[i] && lacing[i..][1..] == lacing[i + 1..];
        var next := offset + lacing[i] as nat;
        assert body[offset..][..lacing[i] as nat] == body[offset..next];
        assert body[offset..][lacing[i] as nat..] == body[next..];
        packet := packet + body[offset..next];
        offset := next;
        if lacing[i] < 255 {
          packets := packets + [packet];
          packet := [];
        }
      }
      buffer := packet + remainder;
    }
  }

  method AddUp(lacing: bytes) returns (total: nat)
    ensures total == Sum(lacing)
  {
    total := 0;
    for i := 0 to |lacing|
      invariant total + Sum(lacing[i..]) == Sum(lacing)
    {
      assert lacing[i..][1..] == lacing[i + 1..];
      total := total + lacing[i] as nat;
    }
  }
}
