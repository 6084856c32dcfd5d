// The frames of section 5.2 of RFC 6455 byte by byte, in any of their length forms, and what the codec of
// tools/dev-server.js makes of them (tools/dev-server.js:16-77).

module Wire {
  import opened Frames
  import opened FrameTheorems

  // ---- bits ------------------------------------------------------------------------------------------------

  predicate IsSet(a: Byte, k: nat)
    requires k < 8
  {
    a / [1, 2, 4, 8, 16, 32, 64, 128][k] % 2 == 1
  }

  lemma {:induction false} BitOf(a: nat, b: nat, bits: nat, k: nat)
    requires k < bits
    ensures Pow2(k) > 0 && XorBits(a, b, bits) / Pow2(k) % 2 == (a / Pow2(k) + b / Pow2(k)) % 2
    decreases k
  {
    var x := XorBits(a / 2, b / 2, bits - 1);
    LowBit(a, b, x);
    if k > 0 {
      BitOf(a / 2, b / 2, bits - 1, k - 1);
      Halves(a, Pow2(k - 1));
      Halves(b, Pow2(k - 1));
      Halves(XorBits(a, b, bits), Pow2(k - 1));
    }
    hide XorBits;
  }

  lemma Halves(a: nat, p: nat)
    requires p > 0
    ensures a / (2 * p) == a / 2 / p
  {
    var q, r := a / 2 / p, a / 2 % p;
    assert a / 2 == q * p + r;
    assert a == 2 * (q * p + r) + a % 2;
    Divides(a, 2 * p, q, 2 * r + a % 2);
  }

  lemma Divides(a: nat, d: nat, q: nat, r: nat)
    requires a == q * d + r && r < d
    ensures a / d == q
  {
    assert a == a / d * d + a % d;
    var e: int := a / d - q;
    assert e * d == a / d * d - q * d;
    NoMultiple(e, d);
  }

  lemma NoMultiple(e: int, d: nat)
    requires 0 < e * d + d && e * d < d
    ensures e == 0
  {
    if e >= 1 { Outgrows(e, d); }
    if e <= -1 { Outgrows(-e, d); }
  }

  lemma Outgrows(e: int, d: nat)
    requires e >= 1
    ensures e * d >= d && (-e) * d + d <= 0
  {
  }

  lemma Powers()
    ensures Pow2(0) == 1 && Pow2(1) == 2 && Pow2(2) == 4 && Pow2(3) == 8
    ensures Pow2(4) == 16 && Pow2(5) == 32 && Pow2(6) == 64 && Pow2(7) == 128
  {
    assert Pow2(2) == 4;
    assert Pow2(4) == 16;
    assert Pow2(6) == 64;
  }

  /** The exclusive or of two bytes has just the bits that one of them has and the other has not. */
  lemma XorIsBitwise(a: Byte, b: Byte, k: nat)
    requires k < 8
    ensures IsSet(Xor(a, b), k) <==> IsSet(a, k) != IsSet(b, k)
  {
    Powers();
    BitOf(a, b, 8, k);
    assert Pow2(k) == [1, 2, 4, 8, 16, 32, 64, 128][k];
    ParityOf(a / Pow2(k), b / Pow2(k));
    hide XorBits, Pow2;
  }

  lemma ParityOf(x: nat, y: nat)
    ensures (x + y) % 2 == 1 <==> (x % 2 == 1) != (y % 2 == 1)
  {
  }

  // ---- frames ------------------------------------------------------------------------------------------------

  /** How many bytes the length has of its own. */
  datatype Form = Short | Medium | Long

  /** A frame as it lies in the stream: `body` are the bytes that follow the mask. */
  datatype Wired = Wired(first: Byte, masked: bool, form: Form, mask: Bytes, body: Bytes)

  predicate Fit(w: Wired) {
    && |w.mask| == (if w.masked then 4 else 0)
    && match w.form
       case Short => |w.body| <= 125
       case Medium => |w.body| <= 65535
       case Long => |w.body| <= 9007199254740991
  }

  function Second(masked: bool, n: nat): Byte
    requires n < 128
  {
    if masked then 128 + n else n
  }

  /** The eight bytes of a number, the most significant first. */
  function Eight(n: nat): Bytes {
    [n / 0x100_0000_0000_0000 % 256, n / 0x1_0000_0000_0000 % 256, n / 0x100_0000_0000 % 256, n / 0x1_0000_0000 % 256,
     n / 0x100_0000 % 256, n / 0x1_0000 % 256, n / 0x100 % 256, n % 256]
  }

  function Two(n: nat): Bytes { [n / 256 % 256, n % 256] }

  function Head(first: Byte, masked: bool, form: Form, n: nat): Bytes
    requires form == Short ==> n < 126
  {
    match form
    case Short => [first, Second(masked, n)]
    case Medium => [first, Second(masked, 126)] + Two(n)
    case Long => [first, Second(masked, 127)] + Eight(n)
  }

  function BytesOf(w: Wired): Bytes
    requires Fit(w)
  {
    Head(w.first, w.masked, w.form, |w.body|) + w.mask + w.body
  }

  lemma TwoRead(n: nat)
    requires n <= 65535
    ensures ReadBigEndian(Two(n)) == n && BigEndian(n, 2) == Two(n)
  {
    var a, b: Byte := n / 256 % 256, n % 256;
    assert [a, b][..1] == [a] && [a][..0] == [];
    assert ReadBigEndian([a]) == a;
    assert BigEndian(n / 256, 1) == BigEndian(n / 256 / 256, 0) + [a];
  }

  lemma {:induction false} EightWritten(n: nat)
    ensures BigEndian(n, 8) == Eight(n)
  {
    Shifts(n);
    var a, b, c, d := n / 0x100, n / 0x1_0000, n / 0x100_0000, n / 0x1_0000_0000;
    var e, f, g := n / 0x100_0000_0000, n / 0x1_0000_0000_0000, n / 0x100_0000_0000_0000;
    assert BigEndian(g, 1) == BigEndian(g / 256, 0) + [g % 256];
    assert BigEndian(f, 2) == BigEndian(g, 1) + [f % 256];
    assert BigEndian(e, 3) == BigEndian(f, 2) + [e % 256];
    assert BigEndian(d, 4) == BigEndian(e, 3) + [d % 256];
    assert BigEndian(c, 5) == BigEndian(d, 4) + [c % 256];
    assert BigEndian(b, 6) == BigEndian(c, 5) + [b % 256];
    assert BigEndian(a, 7) == BigEndian(b, 6) + [a % 256];
    assert BigEndian(n, 8) == BigEndian(a, 7) + [n % 256];
  }

  lemma Shifts(n: nat)
    ensures n / 0x1_0000 == n / 0x100 / 256 && n / 0x100_0000 == n / 0x1_0000 / 256 && n / 0x1_0000_0000 == n / 0x100_0000 / 256
    ensures n / 0x100_0000_0000 == n / 0x1_0000_0000 / 256 && n / 0x1_0000_0000_0000 == n / 0x100_0000_0000 / 256
    ensures n / 0x100_0000_0000_0000 == n / 0x1_0000_0000_0000 / 256
  {
  }

  lemma EightRead(n: nat)
    requires n < 0x1_0000_0000_0000_0000
    ensures ReadBigEndian(Eight(n)) == n
  {
    EightWritten(n);
    Widths();
    BigEndianReads(n, 8);
    hide BigEndian, ReadBigEndian, Eight;
  }

  lemma HeadLength(w: Wired, buf: Bytes)
    requires Fit(w) && Head(w.first, w.masked, w.form, |w.body|) <= buf
    ensures var h := Head(w.first, w.masked, w.form, |w.body|);
            |h| >= 2 && ReadLength(buf, 0) == Length(|w.body|, |h|) && buf[0] == w.first && (buf[1] >= 128 <==> w.masked)
  {
    hide ReadBigEndian, Two, Eight;
    var h := Head(w.first, w.masked, w.form, |w.body|);
    match w.form
    case Short =>
    case Medium => TwoRead(|w.body|); LengthOfTwo(|w.body|); assert buf[2..4] == h[2..4] == Two(|w.body|);
    case Long => EightRead(|w.body|); LengthOfTwo(|w.body|); assert buf[2..10] == h[2..10] == Eight(|w.body|);
  }

  lemma LengthOfTwo(n: nat)
    ensures |Two(n)| == 2 && |Eight(n)| == 8
  {
  }

  lemma Slices(h: Bytes, mask: Bytes, body: Bytes, more: Bytes)
    ensures var buf := h + mask + body + more;
            var start := |h| + |mask|;
            h <= buf && buf[|h|..start] == mask && buf[start..start + |body|] == body
  {
  }

  lemma {:induction false} OneDecodes(w: Wired, more: Bytes)
    requires Fit(w)
    ensures var payload := if w.masked then Masked(w.body, w.mask) else w.body;
            var buf := BytesOf(w) + more;
            |buf| >= 2 && DecodeOne(buf, 0) == Got(Frame(w.first % 16, payload), |BytesOf(w)|)
  {
    hide Head, Masked, ReadLength;
    var h := Head(w.first, w.masked, w.form, |w.body|);
    Slices(h, w.mask, w.body, more);
    HeadLength(w, BytesOf(w) + more);
  }

  /** A frame in any length form, masked or not, is decoded as the low four bits of its first byte and its
      body, each byte of it unmasked by the mask's bytes in turn. */
  lemma {:induction false} AnyFrameDecodes(w: Wired, more: Bytes)
    requires Fit(w)
    ensures var payload := if w.masked then Masked(w.body, w.mask) else w.body;
            Decode(BytesOf(w) + more) == Prepend([Frame(w.first % 16, payload)], Decode(more))
  {
    hide BytesOf, Masked, DecodeOne;
    OneDecodes(w, more);
    var buf, next := BytesOf(w) + more, |BytesOf(w)|;
    DecodeSuffix(buf, next, next);
    assert buf[next..] == more;
  }

  /** Nothing comes of a part of it: the decoder waits for the rest. */
  lemma {:induction false} PartsAreKept(w: Wired, k: nat)
    requires Fit(w) && k < |BytesOf(w)|
    ensures Decode(BytesOf(w)[..k]) == Decoded([], BytesOf(w)[..k])
  {
    hide Head, ReadLength;
    var h := Head(w.first, w.masked, w.form, |w.body|);
    var buf := BytesOf(w)[..k];
    assert buf[0..] == buf;
    if k >= 2 {
      if k < |h| { HeadWaits(w, k); assert buf == h[..k]; } else { assert buf[..|h|] == h; HeadLength(w, buf); }
    }
  }

  lemma HeadWaits(w: Wired, k: nat)
    requires Fit(w) && 2 <= k < |Head(w.first, w.masked, w.form, |w.body|)|
    ensures ReadLength(Head(w.first, w.masked, w.form, |w.body|)[..k], 0) == Incomplete
  {
    LengthOfTwo(|w.body|);
    hide Two, Eight;
  }

  /** A length over 2^53 - 1 is refused as soon as it is there. */
  lemma {:induction false} TooLargeIsRefused(first: Byte, masked: bool, n: nat, more: Bytes)
    requires 9007199254740991 < n < 0x1_0000_0000_0000_0000
    ensures Decode(Head(first, masked, Long, n) + more).Thrown?
  {
    EightRead(n);
    LengthOfTwo(n);
    hide ReadBigEndian, Eight;
    var buf := Head(first, masked, Long, n) + more;
    assert buf[2..10] == Eight(n);
    assert buf[1] % 128 == 127;
    assert ReadLength(buf, 0) == Refused;
  }

  /** The server's frames are final, carry no mask, and have the shortest form that fits. */
  lemma {:induction false} ServerBytes(body: Bytes, opcode: nat)
    requires opcode < 16
    ensures |body| <= 125 ==> EncodeServerFrame(body, opcode) == [0x80 + opcode, |body|] + body
    ensures 126 <= |body| <= 65535 ==> EncodeServerFrame(body, opcode) == [0x80 + opcode, 126] + Two(|body|) + body
    ensures 65536 <= |body| ==> EncodeServerFrame(body, opcode) == [0x80 + opcode, 127] + Eight(|body|) + body
  {
    if 126 <= |body| <= 65535 { TwoRead(|body|); }
    if 65536 <= |body| { EightWritten(|body|); }
    hide BigEndian, Two, Eight;
  }
}
