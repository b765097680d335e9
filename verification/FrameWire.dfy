/** The layout of a line, as a sender writes it: what the parser and the copy loop
    take out of a line is what was put in. */
module FrameWire {
  import opened CTypes
  import opened FrameParser
  import opened FrameErrors
  import opened Capture

  /** The content of a line. The upper four bits of the stream word and of the length
      word carry something else. */
  datatype Content = Content(
    payload: seq<byte>, idle: seq<byte>, stream: nat, streamTop: nat, crc: uint16, lengthTop: nat)

  /** Content that makes a line of the given width: whole words, a length of twelve
      bits, and room for at least one word in front of the trailer. */
  predicate Sendable(c: Content, width: nat, meta: Meta) {
    && |c.payload| % 2 == 0 && |c.idle| % 2 == 0
    && |c.payload| < 8192
    && c.stream < 4096 && c.streamTop < 16 && c.lengthTop < 16
    && TrailerWords(meta) < width < 0x1_0000
    && |c.payload| + |c.idle| == 2 * (width - TrailerWords(meta))
  }

  /** The two bytes of a word, the lower one first. */
  function WordBytes(w: nat): (b: seq<byte>)
    requires w < 0x1_0000
    ensures |b| == 2
  {
    [w % 256, w / 256]
  }

  /** Payload, idle words, then the stream, the CRC and the length, as far as the
      metadata announce them. */
  function OnWire(c: Content, width: nat, meta: Meta): (line: Line)
    requires Sendable(c, width, meta)
    ensures |line| == 2 * width
  {
    c.payload + c.idle
    + (if meta.hasStreamId then WordBytes(4096 * c.streamTop + c.stream) else [])
    + (if meta.crc != CrcNone then WordBytes(c.crc) else [])
    + WordBytes(4096 * c.lengthTop + |c.payload| / 2)
  }

  lemma SplitWord(top: nat, low: nat)
    requires top < 16 && low < 4096
    ensures var b := WordBytes(4096 * top + low); var lo: int, hi: int := b[0], b[1]; lo + 256 * (hi % 16) == low
  {
    var w := 4096 * top + low;
    assert w / 256 == 16 * top + low / 256;
    assert (16 * top + low / 256) % 16 == low / 256;
  }

  lemma WholeWord(w: nat)
    requires w < 0x1_0000
    ensures var b := WordBytes(w); var lo: int, hi: int := b[0], b[1]; lo + 256 * hi == w
  {
  }

  /** What stands where in a line. */
  lemma Layout(c: Content, width: nat, meta: Meta)
    requires Sendable(c, width, meta)
    ensures var line := OnWire(c, width, meta); var n := |c.payload|;
      && line[..n] == c.payload
      && line[n..n + |c.idle|] == c.idle
      && line[2 * width - 2..] == WordBytes(4096 * c.lengthTop + n / 2)
      && (meta.crc != CrcNone ==> line[2 * width - 4..2 * width - 2] == WordBytes(c.crc))
      && (meta.crc != CrcNone && meta.hasStreamId ==>
            line[2 * width - 6..2 * width - 4] == WordBytes(4096 * c.streamTop + c.stream))
  {
    hide WordBytes;
    var line := OnWire(c, width, meta);
    var front := c.payload + c.idle;
    var streamed := front + (if meta.hasStreamId then WordBytes(4096 * c.streamTop + c.stream) else []);
    var checked := streamed + (if meta.crc != CrcNone then WordBytes(c.crc) else []);
    assert line == checked + WordBytes(4096 * c.lengthTop + |c.payload| / 2);
    assert line[..|front|] == front;
    assert front[..|c.payload|] == c.payload && front[|c.payload|..] == c.idle;
  }

  /** What a parser reads as the stream of a line whose stream word is not followed by
      a CRC: it looks one word too far to the front, at the last word before the
      trailer. */
  function StreamRead(c: Content, width: nat, meta: Meta): nat
    requires Sendable(c, width, meta)
  {
    if !meta.hasStreamId then 0
    else if meta.crc != CrcNone then c.stream
    else StreamField(OnWire(c, width, meta), width)
  }

  lemma RoundTripFields(c: Content, width: nat, meta: Meta)
    requires Sendable(c, width, meta)
    ensures ParseLine(OnWire(c, width, meta), width, meta) == ParsedLine(
      |c.payload| / 2, if meta.crc != CrcNone then c.crc else 0, StreamRead(c, width, meta), true)
  {
    hide OnWire, StreamField, LengthOf, CrcField;
    var line := OnWire(c, width, meta);
    ReadBack(c, width, meta);
    ParseLineExact(line, width, meta);
    if meta.crc == CrcNone {
      NoCrcRead(line, width, meta);
    }
  }

  /** Round trip: the parser finds length, CRC and stream, the copy loop takes exactly
      the payload, and the idle check sees exactly the idle words. */
  lemma LineRoundTrip(c: Content, width: nat, meta: Meta)
    requires Sendable(c, width, meta)
    ensures var line := OnWire(c, width, meta); var p := ParseLine(line, width, meta);
      && p.valid
      && p.payloadLen == |c.payload| / 2
      && p.crc == (if meta.crc != CrcNone then c.crc else 0)
      && p.streamId == StreamRead(c, width, meta)
      && Payload(line, width, meta) == c.payload
      && IdleField(line, width, meta, p.payloadLen) == c.idle
  {
    hide OnWire, ParseLine, StreamRead, WordBytes;
    RoundTripFields(c, width, meta);
    Layout(c, width, meta);
    TrailerInWords(meta);
  }

  /** The fields of the trailer in bytes. */
  lemma ReadBack(c: Content, width: nat, meta: Meta)
    requires Sendable(c, width, meta)
    ensures var line := OnWire(c, width, meta);
      && LengthOf(line, width) == |c.payload| / 2
      && (meta.crc != CrcNone ==> CrcField(line, width) == c.crc)
      && (meta.crc != CrcNone && meta.hasStreamId ==> StreamField(line, width) == c.stream)
  {
    hide WordBytes, OnWire;
    var line := OnWire(c, width, meta);
    Layout(c, width, meta);
    SplitWord(c.lengthTop, |c.payload| / 2);
    SplitWord(c.streamTop, c.stream);
    WholeWord(c.crc);
    assert line[2 * width - 2] == line[2 * width - 2..][0] && line[2 * width - 1] == line[2 * width - 2..][1];
    if meta.crc != CrcNone {
      assert line[2 * width - 4] == line[2 * width - 4..2 * width - 2][0];
      assert line[2 * width - 3] == line[2 * width - 4..2 * width - 2][1];
      if meta.hasStreamId {
        assert line[2 * width - 6] == line[2 * width - 6..2 * width - 4][0];
        assert line[2 * width - 5] == line[2 * width - 6..2 * width - 4][1];
      }
    }
  }

  lemma TrailerInWords(meta: Meta)
    ensures Trailer(meta) == TrailerWords(meta)
  {
  }

  lemma NoCrcRead(line: Line, width: nat, meta: Meta)
    requires |line| == 2 * width && meta.crc == CrcNone
    ensures ParseLine(line, width, meta).crc == 0
  {
  }

  /** With streams but no CRC the stream word that was sent is not read at all. */
  lemma StreamWithoutCrc(c: Content, width: nat, meta: Meta)
    requires Sendable(c, width, meta) && meta.hasStreamId && meta.crc == CrcNone
    ensures var front := c.payload + c.idle; var n := |front|;
      var lo: int, hi: int := front[n - 2], front[n - 1];
      StreamRead(c, width, meta) == lo + 256 * (hi % 16)
  {
  }

  // ----- Whole frames -----

  predicate AllSendable(cs: seq<Content>, width: nat, meta: Meta) {
    forall i: nat :: i < |cs| ==> Sendable(cs[i], width, meta)
  }

  function LinesOf(cs: seq<Content>, width: nat, meta: Meta): (lines: seq<Line>)
    requires AllSendable(cs, width, meta)
    ensures |lines| == |cs| && forall i :: 0 <= i < |lines| ==> |lines[i]| == 2 * width
  {
    seq(|cs|, i requires 0 <= i < |cs| => OnWire(cs[i], width, meta))
  }

  /** The payloads for one stream, one behind the other. */
  function Sent(cs: seq<Content>, width: nat, meta: Meta, id: nat): seq<byte>
    requires AllSendable(cs, width, meta)
  {
    if cs == [] then []
    else
      var n := |cs| - 1;
      Sent(cs[..n], width, meta, id) + if StreamRead(cs[n], width, meta) == id then cs[n].payload else []
  }

  /** Round trip of a frame: what the copy loop takes for a stream is what was sent for
      it. */
  lemma {:induction false} StreamRoundTrip(cs: seq<Content>, width: nat, meta: Meta, id: nat)
    requires AllSendable(cs, width, meta)
    ensures Flatten(Payloads(LinesOf(cs, width, meta), width, meta, id)) == Sent(cs, width, meta, id)
    decreases |cs|
  {
    hide OnWire, ParseLine, Payload, StreamRead, Sendable;
    if cs == [] {
    } else {
      var n := |cs| - 1;
      var lines := LinesOf(cs, width, meta);
      assert lines[..n] == LinesOf(cs[..n], width, meta);
      StreamRoundTrip(cs[..n], width, meta, id);
      LineRoundTrip(cs[n], width, meta);
      FlattenSnoc(Payloads(lines[..n], width, meta, id), cs[n].payload);
      EmptyPayload(cs[n], width, meta);
    }
  }

  lemma EmptyPayload(c: Content, width: nat, meta: Meta)
    requires Sendable(c, width, meta)
    ensures |c.payload| / 2 == 0 <==> c.payload == []
  {
  }

  /** A frame of sent lines is well formed. */
  lemma SentIsWellFormed(cs: seq<Content>, width: nat, meta: Meta)
    requires AllSendable(cs, width, meta)
    ensures AllWellFormed(LinesOf(cs, width, meta), width, meta)
  {
    hide OnWire, ParseLine, WellFormed, Sendable;
    var lines := LinesOf(cs, width, meta);
    forall i: nat | i < |lines| ensures WellFormed(lines[i], width, meta) {
      LineRoundTrip(cs[i], width, meta);
      ParseLineExact(lines[i], width, meta);
    }
  }
}
