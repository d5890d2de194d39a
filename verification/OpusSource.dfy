/** The ffmpeg audio source: pulls bytes, demuxes them and skips the two header packets. */
module OpusSource {
  import opened Common
  import opened OggDemux
  import OggStream

  /** One `Read` on ffmpeg's output; bytes may come together with the final error. */
  datatype Read = Read(data: bytes, failed: bool)

  datatype Outcome = Packet(opus: bytes) | EndOfStream | ProcessFailed

  /** The bytes the source will ever see: everything up to the first failing read. */
  function Content(input: seq<Read>): bytes {
    if input == [] then []
    else input[0].data + (if input[0].failed then [] else Content(input[1..]))
  }

  lemma ContentStep(input: seq<Read>)
    ensures input == [] ==> Content(input) == []
    ensures input != [] && input[0].failed ==> Content(input) == input[0].data + []
    ensures input != [] && !input[0].failed ==> Content(input) == input[0].data + Content(input[1..])
  {
  }

  function Drop(k: nat, s: seq<bytes>): seq<bytes> {
    if k <= |s| then s[k..] else []
  }

  /** Audio packets still due, given the demuxer and the bytes still to come. */
  function Due(skipped: nat, packets: seq<bytes>, buffer: bytes, pending: bytes): seq<bytes> {
    Drop(if skipped < 2 then 2 - skipped else 0, packets + Parse(buffer + pending).packets)
  }

  lemma Popped(skipped: nat, packets: seq<bytes>, buffer: bytes, pending: bytes)
    requires packets != []
    ensures skipped < 2 ==> Due(skipped + 1, packets[1..], buffer, pending) == Due(skipped, packets, buffer, pending)
    ensures skipped >= 2 ==>
              Due(skipped, packets, buffer, pending) == [packets[0]] + Due(skipped, packets[1..], buffer, pending)
  {
    var more := Parse(buffer + pending).packets;
    assert (packets + more)[1..] == packets[1..] + more;
  }

  lemma Pulled(skipped: nat, buffer: bytes, data: bytes, pending: bytes)
    ensures var parsed := Parse(buffer + data);
            Due(skipped, [] + parsed.packets, parsed.buffer, pending) == Due(skipped, [], buffer, data + pending)
  {
    OggStream.ParseAppend(buffer + data, pending);
    Assoc(buffer, data, pending);
    Assoc(Parse(buffer + (data + pending)).packets, [], []);
    Assoc(Parse(buffer + data).packets, [], []);
  }

  class FFmpegOpusSource {
    const demux: OggDemuxer
    /** Whether ffmpeg exits with an error. */
    const crashed: bool
    var skippedHeaders: nat
    var eof: bool
    /** Reads that are still to come; an exhausted list is end of file. */
    var input: seq<Read>

    constructor (input: seq<Read>, crashed: bool)
      ensures Valid() && fresh(demux) && this.crashed == crashed
      ensures Remaining() == Drop(2, Parse(Content(input)).packets)
    {
      this.demux := new OggDemuxer();
      this.crashed := crashed;
      this.skippedHeaders, this.eof, this.input := 0, false, input;
      new;
      assert [] + Content(input) == Content(input);
    }

    ghost predicate Valid()
      reads this, demux
    {
      skippedHeaders <= 2 && Parse(demux.buffer) == Parsed([], demux.buffer)
    }

    ghost function Pending(): bytes
      reads this
    {
      if eof then [] else Content(input)
    }

    /** The audio packets this source will still return, in order. */
    ghost function Remaining(): seq<bytes>
      requires Valid()
      reads this, demux
    {
      Due(skippedHeaders, demux.packets, demux.buffer, Pending())
    }

    method ReadOpus() returns (outcome: Outcome)
      requires Valid()
      modifies this, demux
      ensures Valid()
      ensures old(Remaining()) == [] ==>
                outcome == (if crashed then ProcessFailed else EndOfStream) && Remaining() == []
      ensures old(Remaining()) != [] ==>
                outcome == Packet(old(Remaining())[0]) && Remaining() == old(Remaining())[1..]
    {
      while true
        invariant Valid() && Remaining() == old(Remaining())
        decreases if eof then 0 else |input| + 1, |demux.packets|
      {
        if demux.packets != [] {
          var audio := TakeQueued();
          if audio.Some? {
            return Packet(audio.value);
          }
        } else if eof {
          Assoc(demux.buffer, [], []);
          return if crashed then ProcessFailed else EndOfStream;
        } else {
          Pull();
        }
      }
    }

    /** Takes one queued packet; the first two of the stream are headers and are dropped. */
    method TakeQueued() returns (audio: Option<bytes>)
      requires Valid() && demux.packets != []
      modifies this`skippedHeaders, demux`packets
      ensures Valid() && |demux.packets| < |old(demux.packets)|
      ensures audio.None? ==> Remaining() == old(Remaining())
      ensures audio.Some? ==> old(Remaining()) == [audio.value] + Remaining()
    {
      Popped(skippedHeaders, demux.packets, demux.buffer, Pending());
      audio := demux.NextPacket();
      if skippedHeaders < 2 {
        skippedHeaders := skippedHeaders + 1;
        audio := None;
      }
    }

    /** One read from ffmpeg into the demuxer. */
    method Pull()
      requires Valid() && !eof && demux.packets == []
      modifies this`input, this`eof, demux
      ensures Valid() && Remaining() == old(Remaining())
      ensures (if eof then 0 else |input| + 1) < |old(input)| + 1
    {
      var read := if input == [] then Read([], true) else input[0];
      ghost var before := demux.buffer;
      input := if input == [] then [] else input[1..];
      if |read.data| > 0 {
        demux.Write(read.data);
        OggStream.Settled(before + read.data);
      }
      if read.failed {
        eof := true;
      }
      ContentStep(old(input));
      if |read.data| > 0 {
        Pulled(skippedHeaders, before, read.data, Pending());
      } else {
        Assoc(Pending(), [], []);
      }
    }
  }

  /**
   For a stream of pages that finish their packets, read in any pieces, the source
   will return every packet after the first two.
   */
  lemma SkipsTwoHeaders(pages: seq<OggStream.Page>, input: seq<Read>)
    requires OggStream.EndsOnPages(pages) && Content(input) == OggStream.EncodeAll(pages)
    ensures Drop(2, Parse(Content(input)).packets) == Drop(2, OggStream.AllPackets(pages))
  {
    OggStream.CleanStreamYields(pages);
    Assoc(OggStream.AllPackets(pages), [], []);
  }

  /** Reads until the source has no more packets, as the playback loop does. */
  method Drain(source: FFmpegOpusSource) returns (packets: seq<bytes>, outcome: Outcome)
    requires source.Valid()
    modifies source, source.demux
    ensures source.Valid() && packets == old(source.Remaining())
    ensures outcome == if source.crashed then ProcessFailed else EndOfStream
  {
    packets := [];
    Assoc(source.Remaining(), [], []);
    while true
      invariant source.Valid() && packets + source.Remaining() == old(source.Remaining())
      decreases |source.Remaining()|
    {
      ghost var due := source.Remaining();
      outcome := source.ReadOpus();
      if !outcome.Packet? {
        Assoc(packets, [], []);
        return;
      }
      assert due == [outcome.opus] + source.Remaining();
      Assoc(packets, [outcome.opus], source.Remaining());
      packets := packets + [outcome.opus];
    }
  }

  /** A whole stream of pages that finish their packets, however it is read, gives all packets but two. */
  method ReadStream(input: seq<Read>, crashed: bool, ghost pages: seq<OggStream.Page>)
    returns (packets: seq<bytes>, outcome: Outcome)
    requires OggStream.EndsOnPages(pages) && Content(input) == OggStream.EncodeAll(pages)
    ensures var all := OggStream.AllPackets(pages); packets == if |all| >= 2 then all[2..] else []
    ensures outcome == if crashed then ProcessFailed else EndOfStream
  {
    var source := new FFmpegOpusSource(input, crashed);
    SkipsTwoHeaders(pages, input);
    packets, outcome := Drain(source);
  }
}
