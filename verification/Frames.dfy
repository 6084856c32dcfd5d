// The WebSocket frame codec of tools/dev-server.js (sections 5.2 and 5.3 of RFC 6455).
// A byte is a number below 256; bit operations are written as arithmetic on it.

module Frames {

  type Byte = b: int | 0 <= b < 256

  type Bytes = seq<Byte>

  // ---- masking ------------------------------------------------------------------------------

  /** Exclusive or of the low `bits` bits. */
  function XorBits(a: nat, b: nat, bits: nat): (r: nat)
  {
    if bits == 0 then 0 else 2 * XorBits(a / 2, b / 2, bits - 1) + (a + b) % 2
  }

  function Pow2(bits: nat): nat { if bits == 0 then 1 else 2 * Pow2(bits - 1) }

  lemma {:induction false} XorBitsBelow(a: nat, b: nat, bits: nat)
    ensures XorBits(a, b, bits) < Pow2(bits)
  {
    if bits > 0 { XorBitsBelow(a / 2, b / 2, bits - 1); }
  }

  lemma {:induction false} XorBitsTwice(a: nat, b: nat, bits: nat)
    requires a < Pow2(bits)
    ensures XorBits(XorBits(a, b, bits), b, bits) == a
  {
    if bits > 0 {
      var x := XorBits(a / 2, b / 2, bits - 1);
      LowBit(a, b, x);
      XorBitsTwice(a / 2, b / 2, bits - 1);
      hide XorBits, Pow2;
    }
  }

  lemma LowBit(a: nat, b: nat, x: nat)
    ensures var y := 2 * x + (a + b) % 2; y / 2 == x && (y + b) % 2 == a % 2
    ensures a == 2 * (a / 2) + a % 2
  {
  }

  lemma EightBits()
    ensures Pow2(8) == 256
  {
    assert Pow2(4) == 16;
  }

  function Xor(a: Byte, b: Byte): Byte {
    EightBits();
    XorBitsBelow(a, b, 8);
    XorBits(a, b, 8)
  }

  lemma XorTwice(a: Byte, b: Byte)
    ensures Xor(Xor(a, b), b) == a
  {
    EightBits();
    XorBitsTwice(a, b, 8);
  }

  function Masked(payload: Bytes, mask: Bytes): (r: Bytes)
    requires |mask| == 4
    ensures |r| == |payload|
  {
    seq(|payload|, i requires 0 <= i < |payload| => Xor(payload[i], mask[i % 4]))
  }

  /** Unmasking undoes masking. */
  lemma {:induction false} MaskedTwice(payload: Bytes, mask: Bytes)
    requires |mask| == 4
    ensures Masked(Masked(payload, mask), mask) == payload
  {
    hide Xor;
    forall i | 0 <= i < |payload| ensures Masked(Masked(payload, mask), mask)[i] == payload[i] {
      XorTwice(payload[i], mask[i % 4]);
    }
  }

  /** The payload loop, in place on the copied buffer. */
  method UnmaskInPlace(payload: array<Byte>, mask: Bytes)
    requires |mask| == 4
    modifies payload
    ensures payload[..] == Masked(old(payload[..]), mask)
  {
    hide Xor;
    for i := 0 to payload.Length
      invariant forall k :: 0 <= k < i ==> payload[k] == Xor(old(payload[k]), mask[k % 4])
      invariant forall k :: i <= k < payload.Length ==> payload[k] == old(payload[k])
    {
      payload[i] := Xor(payload[i], mask[i % 4]);
    }
  }

  // ---- big-endian lengths -------------------------------------------------------------------

  /** The last `n` base-256 digits of `v`, most significant first. */
  function BigEndian(v: nat, n: nat): (r: Bytes)
    ensures |r| == n
  {
    if n == 0 then [] else BigEndian(v / 256, n - 1) + [v % 256]
  }

  function ReadBigEndian(bytes: Bytes): nat {
    if bytes == [] then 0 else 256 * ReadBigEndian(bytes[..|bytes| - 1]) + bytes[|bytes| - 1]
  }

  function Pow256(n: nat): nat { if n == 0 then 1 else 256 * Pow256(n - 1) }

  lemma {:induction false} BigEndianReads(v: nat, n: nat)
    requires v < Pow256(n)
    ensures ReadBigEndian(BigEndian(v, n)) == v
  {
    if n > 0 {
      BigEndianReads(v / 256, n - 1);
      assert BigEndian(v, n)[..n - 1] == BigEndian(v / 256, n - 1);
    }
  }

  // ---- specification -------------------------------------------------------------------------

  const MAX_SAFE_INTEGER := 0x1f_ffff_ffff_ffff

  /** The server's frame: final, unmasked, with the shortest of the three length forms. */
  function EncodeServerFrame(body: Bytes, opcode: nat): Bytes {
    var first: Byte := 128 + opcode % 128;
    if |body| < 126 then [first, |body|] + body
    else if |body| <= 0xffff then [first, 126] + BigEndian(|body|, 2) + body
    else [first, 127] + BigEndian(|body|, 8) + body
  }

  /** writeUInt16BE and writeBigUInt64BE: `n` bytes of `v` from `at` on, the last one first. */
  method WriteBigEndian(buffer: array<Byte>, at: nat, v: nat, n: nat)
    requires at + n <= buffer.Length
    modifies buffer
    ensures buffer[..] == old(buffer[..at]) + BigEndian(v, n) + old(buffer[at + n..])
  {
    var rest, k := v, n;
    while k > 0
      invariant 0 <= k <= n
      invariant BigEndian(rest, k) + buffer[at + k..at + n] == BigEndian(v, n)
      invariant buffer[..at + k] == old(buffer[..at + k]) && buffer[at + n..] == old(buffer[at + n..])
    {
      k := k - 1;
      ghost var tail := buffer[at + k + 1..at + n];
      buffer[at + k] := rest % 256;
      assert buffer[at + k..at + n] == [rest % 256] + tail;
      assert BigEndian(rest, k + 1) + tail == BigEndian(rest / 256, k) + ([rest % 256] + tail);
      rest := rest / 256;
    }
    assert buffer[..] == buffer[..at] + buffer[at..at + n] + buffer[at + n..];
  }

  method WriteServerFrame(body: Bytes, opcode: nat) returns (frame: Bytes)
    ensures frame == EncodeServerFrame(body, opcode)
  {
    hide BigEndian;
    var first: Byte := 128 + opcode % 128;
    if |body| < 126 { return [first, |body|] + body; }
    var length := if |body| <= 0xffff then 2 else 8;
    var header := new Byte[2 + length](_ => 0);
    header[0], header[1] := first, if length == 2 then 126 else 127;
    WriteBigEndian(header, 2, |body|, length);
    assert header[..] == [first, if length == 2 then 126 else 127] + BigEndian(|body|, length);
    return header[..] + body;
  }

  datatype Frame = Frame(opcode: nat, payload: Bytes)

  datatype Step = NeedMore | TooLarge | Got(frame: Frame, next: nat)

  /** The payload length and the offset after it, or why there is none. */
  datatype Header = Incomplete | Refused | Length(length: nat, after: nat)

  function ReadLength(buf: Bytes, o: nat): Header
    requires o + 2 <= |buf|
  {
    var short := buf[o + 1] % 128;
    if short == 126 then
      if o + 4 > |buf| then Incomplete else Length(ReadBigEndian(buf[o + 2..o + 4]), o + 4)
    else if short == 127 then
      if o + 10 > |buf| then Incomplete
      else
        var big := ReadBigEndian(buf[o + 2..o + 10]);
        if big > MAX_SAFE_INTEGER then Refused else Length(big, o + 10)
    else Length(short, o + 2)
  }

  /** The frame that starts at `o`. */
  function DecodeOne(buf: Bytes, o: nat): (r: Step)
    requires o + 2 <= |buf|
    ensures r.Got? ==> o < r.next <= |buf|
  {
    match ReadLength(buf, o)
    case Incomplete => NeedMore
    case Refused => TooLarge
    case Length(length, after) =>
      var masked := buf[o + 1] >= 128;
      var start := if masked then after + 4 else after;
      if start + length > |buf| then NeedMore
      else
        var payload := buf[start..start + length];
        Got(Frame(buf[o] % 16, if masked then Masked(payload, buf[after..after + 4]) else payload), start + length)
  }

  datatype Decoded = Thrown | Decoded(frames: seq<Frame>, rest: Bytes)

  function Prepend(frames: seq<Frame>, d: Decoded): Decoded {
    if d.Thrown? then Thrown else Decoded(frames + d.frames, d.rest)
  }

  function DecodeFrom(buf: Bytes, o: nat): Decoded
    requires o <= |buf|
    decreases |buf| - o
  {
    if o + 2 > |buf| then Decoded([], buf[o..])
    else
      match DecodeOne(buf, o)
      case NeedMore => Decoded([], buf[o..])
      case TooLarge => Thrown
      case Got(frame, next) => Prepend([frame], DecodeFrom(buf, next))
  }

  function Decode(buf: Bytes): Decoded { DecodeFrom(buf, 0) }

  /** One turn of the decoding loop: the header, the mask and the payload at `start`. */
  method ReadFrame(buffer: Bytes, start: nat) returns (step: Step)
    requires start + 2 <= |buffer|
    ensures step == DecodeOne(buffer, start)
  {
    hide Masked, ReadBigEndian;
    var first, second, offset := buffer[start], buffer[start + 1], start + 2;
    var masked := second >= 128;
    var length: nat := second % 128;
    if length == 126 {
      if offset + 2 > |buffer| { return NeedMore; }
      length := ReadBigEndian(buffer[offset..offset + 2]);
      offset := offset + 2;
    } else if length == 127 {
      if offset + 8 > |buffer| { return NeedMore; }
      length := ReadBigEndian(buffer[offset..offset + 8]);
      if length > MAX_SAFE_INTEGER { return TooLarge; }
      offset := offset + 8;
    }
    var maskOffset := offset;
    if masked { offset := offset + 4; }
    if offset + length > |buffer| { return NeedMore; }
    var payload := new Byte[length](i requires 0 <= i < length => buffer[offset + i]);
    assert payload[..] == buffer[offset..offset + length];
    offset := offset + length;
    if masked { UnmaskInPlace(payload, buffer[maskOffset..maskOffset + 4]); }
    return Got(Frame(first % 16, payload[..]), offset);
  }

  method DecodeClientFrames(buffer: Bytes) returns (result: Decoded)
    ensures result == Decode(buffer)
  {
    hide DecodeOne;
    var offset: nat, frames: seq<Frame> := 0, [];
    PrependAll(DecodeFrom(buffer, 0));
    while offset + 2 <= |buffer|
      invariant 0 <= offset <= |buffer|
      invariant Prepend(frames, DecodeFrom(buffer, offset)) == Decode(buffer)
      decreases |buffer| - offset
    {
      var step := ReadFrame(buffer, offset);
      match step {
        case NeedMore =>
          PrependNothing(frames);
          return Decoded(frames, buffer[offset..]);
        case TooLarge =>
          return Thrown;
        case Got(frame, next) =>
          PrependOne(frames, frame, DecodeFrom(buffer, next));
          frames := frames + [frame];
          offset := next;
      }
    }
    PrependNothing(frames);
    return Decoded(frames, buffer[offset..]);
  }

  lemma PrependAll(d: Decoded)
    ensures Prepend([], d) == d
  {
    if d.Decoded? { assert [] + d.frames == d.frames; }
  }

  lemma PrependNothing(frames: seq<Frame>)
    ensures frames + [] == frames
  {
  }

  lemma PrependOne(frames: seq<Frame>, f: Frame, d: Decoded)
    ensures Prepend(frames, Prepend([f], d)) == Prepend(frames + [f], d)
  {
    if d.Decoded? { assert frames + ([f] + d.frames) == frames + [f] + d.frames; }
  }
}
