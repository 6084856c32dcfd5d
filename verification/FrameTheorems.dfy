// Streaming and round trips of the frame codec (tools/dev-server.js:16-77).

module FrameTheorems {
  import opened Frames

  // ---- decoding does not look behind or past a frame -----------------------------------------------

  lemma ReadLengthShift(buf: Bytes, o: nat, more: Bytes)
    requires o + 2 <= |buf|
    ensures var h := ReadLength(buf, o);
            && (h.Length? ==> h.after <= |buf|)
            && (!h.Incomplete? ==> ReadLength(buf + more, o) == h)
  {
    hide ReadBigEndian;
    if o + 4 <= |buf| { assert (buf + more)[o + 2..o + 4] == buf[o + 2..o + 4]; }
    if o + 10 <= |buf| { assert (buf + more)[o + 2..o + 10] == buf[o + 2..o + 10]; }
  }

  /** A frame that is complete, or refused, is so whatever follows. */
  lemma DecodeOneMore(buf: Bytes, o: nat, more: Bytes)
    requires o + 2 <= |buf| && !DecodeOne(buf, o).NeedMore?
    ensures DecodeOne(buf + more, o) == DecodeOne(buf, o)
  {
    hide ReadLength, Masked;
    ReadLengthShift(buf, o, more);
    var h := ReadLength(buf, o);
    if h.Length? {
      var masked := buf[o + 1] >= 128;
      var start := if masked then h.after + 4 else h.after;
      assert (buf + more)[start..start + h.length] == buf[start..start + h.length];
      if masked { assert (buf + more)[h.after..h.after + 4] == buf[h.after..h.after + 4]; }
    }
  }

  lemma ReadLengthFrom(buf: Bytes, k: nat, o: nat)
    requires k <= o && o + 2 <= |buf|
    ensures var h, g := ReadLength(buf, o), ReadLength(buf[k..], o - k);
            g == match h case Length(length, after) => Length(length, if after >= k then after - k else 0) case _ => h
    ensures ReadLength(buf, o).Length? ==> ReadLength(buf, o).after >= k + 2
  {
    hide ReadBigEndian;
    if o + 4 <= |buf| { assert buf[k..][o - k + 2..o - k + 4] == buf[o + 2..o + 4]; }
    if o + 10 <= |buf| { assert buf[k..][o - k + 2..o - k + 10] == buf[o + 2..o + 10]; }
  }

  /** Bytes before the frame do not matter. */
  lemma DecodeOneFrom(buf: Bytes, k: nat, o: nat)
    requires k <= o && o + 2 <= |buf|
    ensures match DecodeOne(buf, o)
            case Got(frame, next) => next >= k && DecodeOne(buf[k..], o - k) == Got(frame, next - k)
            case other => DecodeOne(buf[k..], o - k) == other
  {
    hide ReadLength, Masked;
    ReadLengthFrom(buf, k, o);
    var h := ReadLength(buf, o);
    if h.Length? {
      var masked := buf[o + 1] >= 128;
      var start := if masked then h.after + 4 else h.after;
      if start + h.length <= |buf| {
        assert buf[k..][start - k..start - k + h.length] == buf[start..start + h.length];
        if masked { assert buf[k..][h.after - k..h.after - k + 4] == buf[h.after..h.after + 4]; }
      }
    }
  }

  lemma {:induction false} DecodeSuffix(buf: Bytes, k: nat, o: nat)
    requires k <= o <= |buf|
    ensures DecodeFrom(buf[k..], o - k) == DecodeFrom(buf, o)
    decreases |buf| - o
  {
    hide DecodeOne;
    assert buf[k..][o - k..] == buf[o..];
    if o + 2 <= |buf| {
      DecodeOneFrom(buf, k, o);
      if DecodeOne(buf, o).Got? { DecodeSuffix(buf, k, DecodeOne(buf, o).next); }
    }
  }

  // ---- streaming -----------------------------------------------------------------------------------

  lemma PrependTwice(a: seq<Frame>, b: seq<Frame>, d: Decoded)
    ensures Prepend(a, Prepend(b, d)) == Prepend(a + b, d)
  {
    if d.Decoded? { assert a + (b + d.frames) == a + b + d.frames; }
  }

  /** Decoding can stop at any byte: decode what there is, then go on with the rest and what
      comes next. */
  lemma {:induction false} DecodeResumes(buf: Bytes, o: nat, more: Bytes)
    requires o <= |buf|
    ensures DecodeFrom(buf + more, o) ==
            match DecodeFrom(buf, o)
            case Thrown => Thrown
            case Decoded(frames, rest) => Prepend(frames, Decode(rest + more))
    decreases |buf| - o
  {
    hide DecodeOne;
    if o + 2 > |buf| || DecodeOne(buf, o).NeedMore? {
      DecodeSuffix(buf + more, o, o);
      assert (buf + more)[o..] == buf[o..] + more;
      PrependAll(Decode(buf[o..] + more));
    } else {
      DecodeOneMore(buf, o, more);
      var step := DecodeOne(buf, o);
      if step.Got? {
        DecodeResumes(buf, step.next, more);
        var d := DecodeFrom(buf, step.next);
        if d.Decoded? { PrependTwice([step.frame], d.frames, Decode(d.rest + more)); }
      }
    }
  }

  function Concat(chunks: seq<Bytes>): Bytes {
    if chunks == [] then [] else chunks[0] + Concat(chunks[1..])
  }

  /** Decoding chunk by chunk, carrying the rest forward. */
  function Stream(rest: Bytes, chunks: seq<Bytes>): Decoded
    decreases |chunks|
  {
    if chunks == [] then Decoded([], rest)
    else
      match Decode(rest + chunks[0])
      case Thrown => Thrown
      case Decoded(frames, rest') => Prepend(frames, Stream(rest', chunks[1..]))
  }

  /** What is left over cannot be decoded further. */
  lemma {:induction false} RestIsStuck(buf: Bytes, o: nat)
    requires o <= |buf| && DecodeFrom(buf, o).Decoded?
    ensures Decode(DecodeFrom(buf, o).rest) == Decoded([], DecodeFrom(buf, o).rest)
    decreases |buf| - o
  {
    hide DecodeOne;
    if o + 2 <= |buf| && DecodeOne(buf, o).Got? {
      RestIsStuck(buf, DecodeOne(buf, o).next);
    } else {
      DecodeSuffix(buf, o, o);
    }
  }

  lemma {:induction false} StreamResumes(rest: Bytes, chunks: seq<Bytes>)
    requires Decode(rest) == Decoded([], rest)
    ensures Stream(rest, chunks) == Decode(rest + Concat(chunks))
    decreases |chunks|
  {
    hide DecodeFrom;
    if chunks == [] {
      assert rest + Concat(chunks) == rest;
    } else {
      var buf, later := rest + chunks[0], Concat(chunks[1..]);
      assert rest + Concat(chunks) == buf + later;
      DecodeResumes(buf, 0, later);
      if Decode(buf).Decoded? {
        RestIsStuck(buf, 0);
        StreamResumes(Decode(buf).rest, chunks[1..]);
      }
    }
  }

  /** Any way of cutting a stream into chunks gives the frames and the final rest of decoding it
      whole; and it is refused as too large exactly when the whole is. */
  lemma StreamingIsDecoding(chunks: seq<Bytes>)
    ensures Stream([], chunks) == Decode(Concat(chunks))
  {
    StreamResumes([], chunks);
    assert [] + Concat(chunks) == Concat(chunks);
  }

  // ---- round trips -----------------------------------------------------------------------------------

  lemma Widths()
    ensures Pow256(2) == 0x1_0000 && Pow256(8) == 0x1_0000_0000_0000_0000
  {
    assert Pow256(4) == 0x1_0000_0000;
    assert Pow256(6) == 0x1_0000_0000_0000;
  }

  /** A frame header as a client sends it: final, masked, in the shortest length form. */
  function HeaderOf(length: nat, opcode: nat, masked: bool): Bytes {
    var first: Byte := 128 + opcode % 128;
    var bit := if masked then 128 else 0;
    if length < 126 then [first, bit + length]
    else if length <= 0xffff then [first, bit + 126] + BigEndian(length, 2)
    else [first, bit + 127] + BigEndian(length, 8)
  }

  lemma HeaderReads(length: nat, opcode: nat, masked: bool, after: Bytes)
    requires length <= MAX_SAFE_INTEGER
    ensures var h := HeaderOf(length, opcode, masked);
            && |h| >= 2 && h[0] == 128 + opcode % 128 && (h[1] >= 128 <==> masked)
            && ReadLength(h + after, 0) == Length(length, |h|)
  {
    hide ReadBigEndian, BigEndian, Pow256;
    Widths();
    var h := HeaderOf(length, opcode, masked);
    var buf := h + after;
    if 126 <= length <= 0xffff {
      BigEndianReads(length, 2);
      assert buf[2..4] == BigEndian(length, 2);
    } else if length > 0xffff {
      BigEndianReads(length, 8);
      assert buf[2..10] == BigEndian(length, 8);
    }
  }

  /** The frame a client sends, its payload masked. */
  function EncodeClientFrame(f: Frame, mask: Bytes): Bytes
    requires |mask| == 4
  {
    HeaderOf(|f.payload|, f.opcode, true) + (mask + Masked(f.payload, mask))
  }

  lemma ServerFrameForm(body: Bytes, opcode: nat)
    ensures EncodeServerFrame(body, opcode) == HeaderOf(|body|, opcode, false) + body
  {
  }

  /** Decoding undoes encoding across all three length forms, whatever follows the frame. */
  lemma {:induction false} ServerFrameDecodes(f: Frame, more: Bytes)
    requires f.opcode < 16 && |f.payload| <= MAX_SAFE_INTEGER
    ensures DecodeFrom(EncodeServerFrame(f.payload, f.opcode) + more, 0) == Prepend([f], Decode(more))
  {
    hide HeaderOf, ReadLength, EncodeServerFrame;
    ServerFrameForm(f.payload, f.opcode);
    var h := HeaderOf(|f.payload|, f.opcode, false);
    var buf := EncodeServerFrame(f.payload, f.opcode) + more;
    assert buf == h + (f.payload + more);
    HeaderReads(|f.payload|, f.opcode, false, f.payload + more);
    var next := |h| + |f.payload|;
    assert buf[|h|..next] == f.payload;
    assert buf[0] == h[0] && buf[1] == h[1];
    assert DecodeOne(buf, 0) == Got(f, next);
    DecodeSuffix(buf, next, next);
    assert buf[next..] == more;
  }

  /** ... and unmasking undoes the client's masking. */
  lemma {:induction false} ClientFrameDecodes(f: Frame, mask: Bytes, more: Bytes)
    requires f.opcode < 16 && |f.payload| <= MAX_SAFE_INTEGER && |mask| == 4
    ensures DecodeFrom(EncodeClientFrame(f, mask) + more, 0) == Prepend([f], Decode(more))
  {
    hide HeaderOf, ReadLength, Masked;
    var h := HeaderOf(|f.payload|, f.opcode, true);
    var body := mask + Masked(f.payload, mask);
    var buf := EncodeClientFrame(f, mask) + more;
    assert buf == h + (body + more);
    HeaderReads(|f.payload|, f.opcode, true, body + more);
    MaskedTwice(f.payload, mask);
    var start := |h| + 4;
    var next := start + |f.payload|;
    assert buf[|h|..start] == mask;
    assert buf[start..next] == Masked(f.payload, mask);
    assert buf[0] == h[0] && buf[1] == h[1];
    assert DecodeOne(buf, 0) == Got(f, next);
    DecodeSuffix(buf, next, next);
    assert buf[next..] == more;
  }

  /** Frames with a mask each, as a client sends them one after the other. */
  function EncodeAll(frames: seq<(Frame, Bytes)>): Bytes
    requires forall i :: 0 <= i < |frames| ==> |frames[i].1| == 4
  {
    if frames == [] then [] else EncodeClientFrame(frames[0].0, frames[0].1) + EncodeAll(frames[1..])
  }

  function FramesOf(frames: seq<(Frame, Bytes)>): seq<Frame> {
    if frames == [] then [] else [frames[0].0] + FramesOf(frames[1..])
  }

  /** A client's frames arrive as sent, however the transport cuts the bytes. */
  lemma {:induction false} ClientStreamArrives(frames: seq<(Frame, Bytes)>, chunks: seq<Bytes>)
    requires forall i :: 0 <= i < |frames| ==>
               |frames[i].1| == 4 && frames[i].0.opcode < 16 && |frames[i].0.payload| <= MAX_SAFE_INTEGER
    requires Concat(chunks) == EncodeAll(frames)
    ensures Stream([], chunks) == Decoded(FramesOf(frames), [])
  {
    StreamingIsDecoding(chunks);
    ClientBytesDecode(frames);
  }

  lemma {:induction false} ClientBytesDecode(frames: seq<(Frame, Bytes)>)
    requires forall i :: 0 <= i < |frames| ==>
               |frames[i].1| == 4 && frames[i].0.opcode < 16 && |frames[i].0.payload| <= MAX_SAFE_INTEGER
    ensures Decode(EncodeAll(frames)) == Decoded(FramesOf(frames), [])
    decreases |frames|
  {
    hide EncodeClientFrame;
    if frames != [] {
      ClientBytesDecode(frames[1..]);
      ClientFrameDecodes(frames[0].0, frames[0].1, EncodeAll(frames[1..]));
    }
  }
}
