/** What the demuxer yields for whole byte streams, however they are chunked. */
module OggStream {
  import opened Common
  import opened OggDemux

  // ---- Chunking ------------------------------------------------------------

  lemma CapturePrefix(s: bytes, more: bytes)
    ensures forall j: nat | j + 4 <= |s| :: CaptureAt(s + more, j) == CaptureAt(s, j)
  {
  }

  lemma CaptureShift(s: bytes, k: nat)
    requires k <= |s|
    ensures forall j: nat :: CaptureAt(s[k..], j) == CaptureAt(s, k + j)
  {
  }

  /** More bytes never move the first page found, and never change a whole page. */
  lemma PageStays(s: bytes, more: bytes)
    requires Find(s) >= 0
    ensures Find(s + more) == Find(s)
    ensures (s + more)[Find(s)..] == s[Find(s)..] + more
  {
    CapturePrefix(s, more);
    FindIsFirst(s + more, Find(s));
  }

  lemma CompleteStays(b: bytes, more: bytes)
    requires Complete(b)
    ensures Complete(b + more) && CutPage(b + more) == CutPage(b)
    ensures AfterPage(b + more) == AfterPage(b) + more
  {
    assert LacingOf(b + more) == LacingOf(b);
    assert (b + more)[HeaderLen(b)..PageLen(b)] == b[HeaderLen(b)..PageLen(b)];
    assert (b + more)[PageLen(b)..] == b[PageLen(b)..] + more;
  }

  /** Bytes before the first capture pattern do not matter. */
  lemma SkipTo(s: bytes, k: nat)
    requires k <= |s| && forall j: nat | j < k :: !CaptureAt(s, j)
    requires Find(s) >= 0 || k + 3 <= |s|
    ensures Parse(s) == Parse(s[k..])
  {
    var start := Find(s);
    CaptureShift(s, k);
    if start >= 0 {
      FindIsFirst(s[k..], start - k);
      assert s[k..][start - k..] == s[start..];
    } else {
      assert Find(s[k..]) < 0;
      assert LastThree(s[k..]) == LastThree(s);
    }
  }

  lemma AppendToNoPage(s: bytes, more: bytes)
    requires Find(s) < 0
    ensures Parse(s + more) == Parse(LastThree(s) + more)
  {
    if |s| > 3 {
      CapturePrefix(s, more);
      SkipTo(s + more, |s| - 3);
      assert (s + more)[|s| - 3..] == LastThree(s) + more;
    }
  }

  lemma AppendToPage(s: bytes, more: bytes)
    requires Find(s) >= 0 && Complete(s[Find(s)..])
    ensures var b := s[Find(s)..];
            Parse(s + more) == Parse(AfterPage(b) + more).After(CutPage(b).packets)
  {
    PageStays(s, more);
    CompleteStays(s[Find(s)..], more);
  }

  lemma AppendToPart(s: bytes, more: bytes)
    requires Find(s) >= 0 && !Complete(s[Find(s)..])
    ensures Parse(s + more) == Parse(s[Find(s)..] + more)
  {
    PageStays(s, more);
    SkipTo(s + more, Find(s));
  }

  /** Parsing in two steps: the bytes kept after the first step are enough. */
  lemma {:induction false} ParseAppend(s: bytes, more: bytes)
    ensures Parse(s + more) == Parse(Parse(s).buffer + more).After(Parse(s).packets)
    decreases |s|
  {
    var start := Find(s);
    if start < 0 {
      AppendToNoPage(s, more);
    } else if !Complete(s[start..]) {
      AppendToPart(s, more);
    } else {
      var b := s[start..];
      var here, rest := CutPage(b).packets, Parse(AfterPage(b));
      calc {
        Parse(s + more);
        { AppendToPage(s, more); }
        Parse(AfterPage(b) + more).After(here);
        { ParseAppend(AfterPage(b), more); }
        Parse(rest.buffer + more).After(rest.packets).After(here);
        { AfterTwice(here, rest.packets, Parse(rest.buffer + more)); }
        Parse(rest.buffer + more).After(here + rest.packets);
      }
    }
  }

  lemma AfterTwice(a: seq<bytes>, b: seq<bytes>, r: Parsed)
    ensures r.After(b).After(a) == r.After(a + b)
  {
    assert a + (b + r.packets) == (a + b) + r.packets;
  }

  /** The bytes kept after parsing hold no further page. */
  lemma Settled(s: bytes)
    ensures Parse(Parse(s).buffer) == Parsed([], Parse(s).buffer)
  {
    ParseAppend(s, []);
    assert s + [] == s && Parse(s).buffer + [] == Parse(s).buffer;
  }

  /** Feeding a list of chunks to a demuxer whose buffer is `buffer`. */
  function Feed(buffer: bytes, chunks: seq<bytes>): Parsed
    decreases |chunks|
  {
    if chunks == [] then Parsed([], buffer)
    else
      var first := Parse(buffer + chunks[0]);
      Feed(first.buffer, chunks[1..]).After(first.packets)
  }

  /** However a stream is cut into one or more chunks, the demuxer ends in the same state. */
  lemma {:induction false} ChunkingIsInvisible(buffer: bytes, chunks: seq<bytes>)
    requires chunks != []
    ensures Feed(buffer, chunks) == Parse(buffer + Flatten(chunks))
    decreases |chunks|
  {
    var first := Parse(buffer + chunks[0]);
    if |chunks| == 1 {
      assert Flatten(chunks) == chunks[0];
      assert Feed(first.buffer, chunks[1..]) == Parsed([], first.buffer);
    } else {
      ChunkingIsInvisible(first.buffer, chunks[1..]);
      ParseAppend(buffer + chunks[0], Flatten(chunks[1..]));
      assert (buffer + chunks[0]) + Flatten(chunks[1..]) == buffer + Flatten(chunks);
    }
  }

  // ---- Pages ---------------------------------------------------------------

  /** `fields` are the 22 header bytes between the capture pattern and the segment count. */
  datatype Page = Page(fields: bytes, packets: seq<bytes>, tail: bytes)

  /** Lacing values of one finished packet. */
  function LacingFor(n: nat): bytes {
    if n < 255 then [n as byte] else [255] + LacingFor(n - 255)
  }

  /** Lacing values of a packet that goes on on the next page. */
  function OpenLacing(n: nat): bytes {
    if n < 255 then [] else [255] + OpenLacing(n - 255)
  }

  function Lacing(packets: seq<bytes>, tail: bytes): bytes {
    if packets == [] then OpenLacing(|tail|) else LacingFor(|packets[0]|) + Lacing(packets[1..], tail)
  }

  predicate ValidPage(page: Page) {
    |page.fields| == 22 && |page.tail| % 255 == 0 && |Lacing(page.packets, page.tail)| <= 255
  }

  function Encode(page: Page): bytes
    requires ValidPage(page)
  {
    var lacing := Lacing(page.packets, page.tail);
    CAPTURE + page.fields + [|lacing| as byte] + lacing + (Flatten(page.packets) + page.tail)
  }

  function EncodeAll(pages: seq<Page>): bytes
    requires forall p | p in pages :: ValidPage(p)
  {
    if pages == [] then [] else Encode(pages[0]) + EncodeAll(pages[1..])
  }

  lemma {:induction false} SumOfOpen(n: nat)
    ensures n % 255 == 0 ==> Sum(OpenLacing(n)) == n
  {
    if n >= 255 {
      SumOfOpen(n - 255);
    }
  }

  lemma CutStep(lace: byte, lacing: bytes, part: bytes, body: bytes, open: bytes)
    requires |part| == lace as nat && |body| == Sum(lacing)
    ensures Sum([lace] + lacing) == |part + body|
    ensures lace == 255 ==> Cut([lace] + lacing, part + body, open) == Cut(lacing, body, open + part)
    ensures lace < 255 ==>
              var rest := Cut(lacing, body, []);
              Cut([lace] + lacing, part + body, open) == Pieces([open + part] + rest.packets, rest.tail)
  {
    assert ([lace] + lacing)[1..] == lacing;
    assert (part + body)[..|part|] == part && (part + body)[|part|..] == body;
  }

  /** Cutting gives back the packet that was laced. */
  lemma {:induction false} CutPacket(open: bytes, packet: bytes, lacing: bytes, body: bytes)
    requires |body| == Sum(lacing)
    ensures Sum(LacingFor(|packet|) + lacing) == |packet + body|
    ensures var rest := Cut(lacing, body, []);
            Cut(LacingFor(|packet|) + lacing, packet + body, open) == Pieces([open + packet] + rest.packets, rest.tail)
    decreases |packet|
  {
    if |packet| < 255 {
      CutStep(|packet| as byte, lacing, packet, body, open);
    } else {
      var head, more := packet[..255], packet[255..];
      assert head + more == packet;
      CutPacket(open + head, more, lacing, body);
      Assoc([255], LacingFor(|more|), lacing);
      Assoc(head, more, body);
      Assoc(open, head, more);
      CutStep(255, LacingFor(|more|) + lacing, head, more + body, open);
    }
  }

  lemma {:induction false} CutOpen(open: bytes, tail: bytes)
    requires |tail| % 255 == 0
    ensures Sum(OpenLacing(|tail|)) == |tail|
    ensures Cut(OpenLacing(|tail|), tail, open) == Pieces([], open + tail)
    decreases |tail|
  {
    SumOfOpen(|tail|);
    if |tail| >= 255 {
      CutOpen(open + tail[..255], tail[255..]);
      assert OpenLacing(|tail|)[1..] == OpenLacing(|tail[255..]|);
      assert (open + tail[..255]) + tail[255..] == open + tail;
    }
  }

  lemma CutFirst(packet: bytes, lacing: bytes, body: bytes, packets: seq<bytes>, tail: bytes)
    requires |body| == Sum(lacing) && Cut(lacing, body, []) == Pieces(packets, tail)
    ensures Sum(LacingFor(|packet|) + lacing) == |packet + body|
    ensures Cut(LacingFor(|packet|) + lacing, packet + body, []) == Pieces([packet] + packets, tail)
  {
    CutPacket([], packet, lacing, body);
    assert [] + packet == packet;
  }

  /** Lacing is undone by cutting: the finished packets and the unfinished tail come back. */
  lemma {:induction false} CutUndoesLacing(packets: seq<bytes>, tail: bytes)
    requires |tail| % 255 == 0
    ensures Sum(Lacing(packets, tail)) == |Flatten(packets) + tail|
    ensures Cut(Lacing(packets, tail), Flatten(packets) + tail, []) == Pieces(packets, tail)
  {
    if packets == [] {
      CutOpen([], tail);
      assert Flatten(packets) + tail == tail && [] + tail == tail;
    } else {
      var first, rest := packets[0], packets[1..];
      var body := Flatten(rest) + tail;
      CutUndoesLacing(rest, tail);
      CutFirst(first, Lacing(rest, tail), body, rest, tail);
      assert first + body == Flatten(packets) + tail;
      assert [first] + rest == packets;
    }
  }

  lemma EncodedPage(page: Page)
    requires ValidPage(page)
    ensures Complete(Encode(page)) && CaptureAt(Encode(page), 0) && PageLen(Encode(page)) == |Encode(page)|
    ensures CutPage(Encode(page)) == Pieces(page.packets, page.tail)
  {
    var b, lacing := Encode(page), Lacing(page.packets, page.tail);
    CutUndoesLacing(page.packets, page.tail);
    assert b[26] == |lacing| as byte;
    assert LacingOf(b) == lacing;
    assert b[HeaderLen(b)..] == Flatten(page.packets) + page.tail;
    assert b[HeaderLen(b)..PageLen(b)] == b[HeaderLen(b)..];
  }

  /** An encoded page in front of anything yields its packets and leaves its tail in front. */
  lemma ParsePage(page: Page, rest: bytes)
    requires ValidPage(page)
    ensures Parse(Encode(page) + rest) == Parse(page.tail + rest).After(page.packets)
  {
    var b := Encode(page);
    EncodedPage(page);
    CompleteStays(b, rest);
    FindIsFirst(b + rest, 0);
    assert (b + rest)[0..] == b + rest;
    assert b[PageLen(b)..] == [];
  }

  // ---- Streams -------------------------------------------------------------

  function AllPackets(pages: seq<Page>): seq<bytes> {
    if pages == [] then [] else pages[0].packets + AllPackets(pages[1..])
  }

  ghost predicate EndsOnPages(pages: seq<Page>) {
    forall p | p in pages :: ValidPage(p) && p.tail == []
  }

  /** A tail in which the page search cannot stop before the next page. */
  ghost predicate CleanTail(tail: bytes) {
    forall j: nat | j < |tail| :: !CaptureAt(tail + CAPTURE, j)
  }

  /** No unfinished packet is followed by a page it could hide; the last page's tail may hold anything. */
  ghost predicate CleanStream(pages: seq<Page>) {
    && (forall i | 0 <= i < |pages| :: ValidPage(pages[i]))
    && (forall i | 0 <= i < |pages| - 1 :: CleanTail(pages[i].tail))
  }

  lemma CleanSkip(tail: bytes, next: Page, rest: bytes)
    requires CleanTail(tail) && ValidPage(next)
    ensures Parse(tail + (Encode(next) + rest)) == Parse(Encode(next) + rest)
  {
    var s := tail + (Encode(next) + rest);
    EncodedPage(next);
    forall j: nat | j < |tail|
      ensures !CaptureAt(s, j)
    {
      assert s[..|tail| + 4] == tail + CAPTURE;
      assert CaptureAt(s, j) ==> CaptureAt(tail + CAPTURE, j);
    }
    assert CaptureAt(s, |tail|);
    FindIsFirst(s, |tail|);
    SkipTo(s, |tail|);
    assert s[|tail|..] == Encode(next) + rest;
  }

  function LastTail(pages: seq<Page>): bytes {
    if pages == [] then [] else pages[|pages| - 1].tail
  }

  /**
   What the demuxer really yields: the packets finished on each page. Tails are dropped, except that the last
   one is searched for pages itself.
   */
  lemma {:induction false} CleanStreamYields(pages: seq<Page>)
    requires CleanStream(pages)
    ensures Parse(EncodeAll(pages)) == Parse(LastTail(pages)).After(AllPackets(pages))
  {
    if |pages| == 1 {
      OnePageYields(pages);
    } else if |pages| > 1 {
      RestIsClean(pages);
      CleanStreamYields(pages[1..]);
      FirstPageYields(pages);
      AfterTwice(pages[0].packets, AllPackets(pages[1..]), Parse(LastTail(pages[1..])));
    }
  }

  lemma RestIsClean(pages: seq<Page>)
    requires CleanStream(pages) && |pages| > 1
    ensures CleanStream(pages[1..]) && LastTail(pages[1..]) == LastTail(pages)
  {
    assert forall i | 0 <= i < |pages| - 1 :: pages[1..][i] == pages[i + 1];
  }

  lemma OnePageYields(pages: seq<Page>)
    requires CleanStream(pages) && |pages| == 1
    ensures Parse(EncodeAll(pages)) == Parse(LastTail(pages)).After(AllPackets(pages))
  {
    ParsePage(pages[0], []);
    assert EncodeAll(pages) == Encode(pages[0]) + [];
    Assoc(pages[0].tail, [], []);
    Assoc(pages[0].packets, [], []);
  }

  lemma FirstPageYields(pages: seq<Page>)
    requires CleanStream(pages) && |pages| > 1
    ensures CleanStream(pages[1..])
    ensures Parse(EncodeAll(pages)) == Parse(EncodeAll(pages[1..])).After(pages[0].packets)
  {
    RestIsClean(pages);
    ParsePage(pages[0], EncodeAll(pages[1..]));
    CleanSkip(pages[0].tail, pages[1], EncodeAll(pages[1..][1..]));
  }

  /** Round trip for pages that finish their packets, for every way of chunking the bytes. */
  lemma RoundTrip(pages: seq<Page>, chunks: seq<bytes>)
    requires EndsOnPages(pages) && Flatten(chunks) == EncodeAll(pages)
    ensures Feed([], chunks) == Parsed(AllPackets(pages), [])
  {
    assert CleanStream(pages);
    CleanStreamYields(pages);
    Assoc(AllPackets(pages), [], []);
    if chunks == [] {
      assert pages == [];
    } else {
      ChunkingIsInvisible([], chunks);
      assert [] + Flatten(chunks) == EncodeAll(pages);
    }
  }

  // ---- Packets that span pages ---------------------------------------------

  /** Section 5 of RFC 3533: a page's first packet continues the previous page's tail. */
  function Reassemble(carry: bytes, pages: seq<Page>): seq<bytes>
    decreases |pages|
  {
    if pages == [] then []
    else
      var page := pages[0];
      if page.packets == [] then Reassemble(carry + page.tail, pages[1..])
      else [carry + page.packets[0]] + page.packets[1..] + Reassemble(page.tail, pages[1..])
  }

  /** No packet is begun on one page and finished on a later one. */
  predicate NoneSpans(carry: bytes, pages: seq<Page>)
    decreases |pages|
  {
    pages == [] ||
    var page := pages[0];
    if page.packets == [] then NoneSpans(carry + page.tail, pages[1..])
    else carry == [] && NoneSpans(page.tail, pages[1..])
  }

  lemma {:induction false} ReassembleLen(carry: bytes, pages: seq<Page>)
    ensures |Reassemble(carry, pages)| == |AllPackets(pages)|
    decreases |pages|
  {
    if pages != [] {
      ReassembleLen(if pages[0].packets == [] then carry + pages[0].tail else pages[0].tail, pages[1..]);
    }
  }

  lemma {:induction false} SpanningIsLost(carry: bytes, pages: seq<Page>)
    ensures AllPackets(pages) == Reassemble(carry, pages) <==> NoneSpans(carry, pages)
    decreases |pages|
  {
    if pages != [] {
      var page, rest := pages[0], pages[1..];
      if page.packets == [] {
        SpanningIsLost(carry + page.tail, rest);
        assert AllPackets(pages) == AllPackets(rest);
      } else {
        SpanningIsLost(page.tail, rest);
        ReassembleLen(page.tail, rest);
        var k := |page.packets|;
        var actual, due := AllPackets(pages), Reassemble(carry, pages);
        assert actual[k..] == AllPackets(rest) && due[k..] == Reassemble(page.tail, rest);
        assert actual[0] == page.packets[0] && due[0] == carry + page.packets[0];
        assert |due[0]| == |carry| + |actual[0]|;
        if carry == [] {
          assert carry + page.packets[0] == page.packets[0];
          assert [page.packets[0]] + page.packets[1..] == page.packets;
        }
      }
    }
  }

  /**
   The demuxer reassembles packets as the format asks exactly when none of them spans pages and the unfinished
   end of the stream does not itself look like pages with packets. An unfinished packet is put in
   front of the next page and then skipped there as bytes before the capture pattern.
   */
  lemma ReassemblesIffNoneSpans(pages: seq<Page>)
    requires CleanStream(pages)
    ensures Parse(EncodeAll(pages)).packets == Reassemble([], pages)
       <==> NoneSpans([], pages) && Parse(LastTail(pages)).packets == []
  {
    var extra := Parse(LastTail(pages)).packets;
    CleanStreamYields(pages);
    SpanningIsLost([], pages);
    ReassembleLen([], pages);
    assert |AllPackets(pages) + extra| == |AllPackets(pages)| ==> extra == [];
    Assoc(AllPackets(pages), [], []);
  }

  // ---- A packet that is lost -------------------------------------------------

  function Zeros(n: nat): bytes {
    seq(n, _ => 0)
  }

  /** A packet of 256 zeros, its last byte on a second page. */
  function SplitPacket(): seq<Page> {
    [Page(Zeros(22), [], Zeros(255)), Page(Zeros(22), [Zeros(1)], [])]
  }

  /** The packet comes back as its last byte alone. */
  lemma SplitPacketIsLost()
    ensures CleanStream(SplitPacket()) && !NoneSpans([], SplitPacket())
    ensures Reassemble([], SplitPacket()) == [Zeros(255) + Zeros(1)]
    ensures Parse(EncodeAll(SplitPacket())).packets == [Zeros(1)]
  {
    var pages := SplitPacket();
    SplitPacketIsClean();
    CleanStreamYields(pages);
    assert pages[1..] == [pages[1]] && pages[1..][1..] == [];
    assert [] + Zeros(255) == Zeros(255);
    assert AllPackets(pages) == [Zeros(1)];
    assert pages[1].packets[1..] == [];
  }

  lemma SplitPacketIsClean()
    ensures CleanStream(SplitPacket())
  {
    assert Lacing([], Zeros(255)) == [255] + OpenLacing(0);
    assert Lacing([Zeros(1)], []) == LacingFor(1) + Lacing([], []);
    forall j: nat | j < 255
      ensures !CaptureAt(Zeros(255) + CAPTURE, j)
    {
      assert (Zeros(255) + CAPTURE)[j] == 0;
    }
  }
}
