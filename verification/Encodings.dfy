// One text in the two forms in which the parsers see it: as UTF-8 bytes in the engine, and as
// UTF-16 units in the browser. A text is a sequence of Unicode scalar values.

module Encodings {
  import opened Ast
  import opened Source
  import opened Lexer

  datatype Encoding = Utf8 | Utf16

  predicate IsAscii(c: char) { c < 0x80 as char }

  /** A byte is the character of that number. */
  function Byte(b: nat): char
    requires b < 0x100
  {
    b as char
  }

  /** A unit is the character of that number; a surrogate, which is no character, is that of the
      number 0x100000 above it, which is no unit. */
  function Unit(u: nat): char
    requires u < 0x10000
  {
    if 0xd800 <= u < 0xe000 then (u + 0x10_0000) as char else u as char
  }

  function Utf8Of(c: char): string {
    var n := c as int;
    if n < 0x80 then [Byte(n)]
    else if n < 0x800 then [Byte(0xc0 + n / 0x40), Byte(0x80 + n % 0x40)]
    else if n < 0x1_0000 then [Byte(0xe0 + n / 0x1000), Byte(0x80 + n / 0x40 % 0x40), Byte(0x80 + n % 0x40)]
    else [Byte(0xf0 + n / 0x4_0000), Byte(0x80 + n / 0x1000 % 0x40), Byte(0x80 + n / 0x40 % 0x40), Byte(0x80 + n % 0x40)]
  }

  function Utf16Of(c: char): string {
    var n := c as int;
    if n < 0x1_0000 then [Unit(n)]
    else [Unit(0xd800 + (n - 0x1_0000) / 0x400), Unit(0xdc00 + (n - 0x1_0000) % 0x400)]
  }

  function Code(enc: Encoding, c: char): string {
    if enc == Utf8 then Utf8Of(c) else Utf16Of(c)
  }

  function Encode(enc: Encoding, text: string): string {
    if text == "" then "" else Encode(enc, text[..|text| - 1]) + Code(enc, text[|text| - 1])
  }

  /** Where position `p` of the text is in its encoded form. */
  function Pos(enc: Encoding, text: string, p: nat): nat
    requires p <= |text|
  {
    |Encode(enc, text[..p])|
  }

  // ---- characters ------------------------------------------------------------------------------------

  /** ASCII is encoded as itself; anything else as characters that are not ASCII, and as more bytes
      than units. */
  lemma CodeForm(enc: Encoding, c: char)
    ensures IsAscii(c) ==> Code(enc, c) == [c]
    ensures !IsAscii(c) ==> Code(enc, c) != [] && forall i :: 0 <= i < |Code(enc, c)| ==> !IsAscii(Code(enc, c)[i])
    ensures !IsAscii(c) ==> |Code(Utf16, c)| < |Code(Utf8, c)|
  {
  }

  /** The six bits of a continuation byte. */
  function Six(c: char): int { c as int - 0x80 }

  predicate Continues(c: char) { 0 <= Six(c) < 64 }

  /** A scalar value can be read off its bytes: the first has the upper bits and each other six more
      (section 3 of RFC 3629). */
  lemma Utf8Is(c: char)
    ensures var n, b := c as int, Utf8Of(c);
            && (n < 0x80 ==> |b| == 1 && b[0] as int == n)
            && (0x80 <= n < 0x800 ==> |b| == 2 && Continues(b[1]) && (b[0] as int - 0xc0) * 64 + Six(b[1]) == n)
            && (0x800 <= n < 0x1_0000 ==>
                  |b| == 3 && Continues(b[1]) && Continues(b[2]) && (b[0] as int - 0xe0) * 4096 + Six(b[1]) * 64 + Six(b[2]) == n)
            && (0x1_0000 <= n ==>
                  && |b| == 4 && Continues(b[1]) && Continues(b[2]) && Continues(b[3])
                  && (b[0] as int - 0xf0) * 262144 + Six(b[1]) * 4096 + Six(b[2]) * 64 + Six(b[3]) == n)
  {
    Sixes(c as int);
  }

  lemma Sixes(n: nat)
    ensures n == n / 0x40 * 64 + n % 0x40 && n / 0x40 == n / 0x1000 * 64 + n / 0x40 % 0x40
    ensures n / 0x1000 == n / 0x4_0000 * 64 + n / 0x1000 % 0x40
  {
  }

  /** ... and off its units: one, or a pair of surrogates with ten bits each (section 2.1 of RFC 2781). */
  lemma Utf16Is(c: char)
    ensures c as int < 0x1_0000 ==> Utf16Of(c) == [c]
    ensures 0x1_0000 <= c as int ==> exists high, low :: IsPair(Utf16Of(c), high, low) && 0x1_0000 + high * 1024 + low == c as int
  {
    var n := c as int;
    if n >= 0x1_0000 { assert IsPair(Utf16Of(c), (n - 0x1_0000) / 0x400, (n - 0x1_0000) % 0x400); }
  }

  predicate IsPair(units: string, high: int, low: int) {
    0 <= high < 1024 && 0 <= low < 1024 && units == [Unit(0xd800 + high), Unit(0xdc00 + low)]
  }

  lemma ForeignChar(c: char)
    requires !IsAscii(c)
    ensures !IsBlank(c) && !IsSymbolChar(c) && c != ';' && c != '(' && c != ')' && c != '\n'
  {
  }

  // ---- positions -------------------------------------------------------------------------------------

  lemma {:induction false} EncodePrefix(enc: Encoding, text: string, p: nat)
    requires p <= |text|
    ensures Encode(enc, text[..p]) <= Encode(enc, text)
    decreases |text| - p
  {
    hide Code;
    if p == |text| {
      assert text[..p] == text;
    } else {
      EncodePrefix(enc, text, p + 1);
      assert text[..p + 1][..p] == text[..p];
    }
  }

  /** The character at `p` stands encoded between the positions of `p` and `p + 1`. */
  lemma {:induction false} CodeAt(enc: Encoding, text: string, p: nat)
    requires p < |text|
    ensures var s, i := Encode(enc, text), Pos(enc, text, p);
            && Pos(enc, text, p + 1) == i + |Code(enc, text[p])| <= |s|
            && s[i..i + |Code(enc, text[p])|] == Code(enc, text[p])
  {
    hide Code;
    EncodePrefix(enc, text, p + 1);
    assert text[..p + 1][..p] == text[..p];
    var a, b := Encode(enc, text[..p]), Code(enc, text[p]);
    assert Encode(enc, text[..p + 1]) == a + b;
    assert Encode(enc, text)[..|a + b|] == a + b;
    assert (a + b)[|a|..] == b;
  }

  lemma PosEnds(enc: Encoding, text: string)
    ensures Pos(enc, text, 0) == 0 && Pos(enc, text, |text|) == |Encode(enc, text)|
  {
    assert text[..|text|] == text && text[..0] == "";
  }

  /** The step over one character, whatever it is. */
  lemma {:induction false} StepAt(enc: Encoding, text: string, p: nat)
    requires p < |text|
    ensures var s, i, j := Encode(enc, text), Pos(enc, text, p), Pos(enc, text, p + 1);
            && i < j <= |s|
            && (IsAscii(text[p]) ==> j == i + 1 && s[i] == text[p])
            && (!IsAscii(text[p]) ==> forall k :: i <= k < j ==> !IsAscii(s[k]))
  {
    CodeAt(enc, text, p);
    CodeForm(enc, text[p]);
    hide Code, Pos, Encode;
    var s, i, c := Encode(enc, text), Pos(enc, text, p), Code(enc, text[p]);
    forall k | i <= k < i + |c| ensures s[k] == c[k - i] {
      assert s[i..i + |c|][k - i] == s[k];
    }
  }

  lemma {:induction false} PosGrows(enc: Encoding, text: string, p: nat, q: nat)
    requires p <= q <= |text|
    ensures Pos(enc, text, p) + (q - p) <= Pos(enc, text, q) <= |Encode(enc, text)|
    decreases |text| - p
  {
    hide Pos, Encode;
    if p == |text| {
      PosEnds(enc, text);
    } else {
      StepAt(enc, text, p);
      if p < q { PosGrows(enc, text, p + 1, q); } else { PosGrows(enc, text, p + 1, |text|); PosEnds(enc, text); }
    }
  }

  /** A stretch of ASCII stands in the encoded form as it is. */
  lemma {:induction false} AsciiSlice(enc: Encoding, text: string, p: nat, q: nat)
    requires p <= q <= |text| && forall i :: p <= i < q ==> IsAscii(text[i])
    ensures Pos(enc, text, q) == Pos(enc, text, p) + (q - p) <= |Encode(enc, text)|
    ensures Encode(enc, text)[Pos(enc, text, p)..Pos(enc, text, q)] == text[p..q]
    decreases q - p
  {
    hide Pos, Encode;
    PosGrows(enc, text, p, q);
    if p < q {
      StepAt(enc, text, p);
      AsciiSlice(enc, text, p + 1, q);
      var s, i, j := Encode(enc, text), Pos(enc, text, p), Pos(enc, text, q);
      assert s[i..j] == [s[i]] + s[i + 1..j] && text[p..q] == [text[p]] + text[p + 1..q];
    }
  }

  /** Byte and unit positions are equal exactly where everything before is ASCII. */
  lemma {:induction false} OffsetsEqualExactly(text: string, p: nat)
    requires p <= |text|
    ensures Pos(Utf16, text, p) <= Pos(Utf8, text, p)
    ensures Pos(Utf16, text, p) == Pos(Utf8, text, p) <==> forall i :: 0 <= i < p ==> IsAscii(text[i])
  {
    hide *;
    if p > 0 {
      OffsetsEqualExactly(text, p - 1);
      OffsetsStep(text, p - 1);
    } else {
      PosEnds(Utf8, text);
      PosEnds(Utf16, text);
    }
  }

  /** One more character: as many bytes as units if it is ASCII, and more bytes otherwise. */
  lemma OffsetsStep(text: string, p: nat)
    requires p < |text|
    ensures var bytes, units := Pos(Utf8, text, p + 1) - Pos(Utf8, text, p), Pos(Utf16, text, p + 1) - Pos(Utf16, text, p);
            if IsAscii(text[p]) then bytes == units == 1 else units < bytes
  {
    hide *;
    CodeAt(Utf8, text, p);
    CodeAt(Utf16, text, p);
    CodeForm(Utf8, text[p]);
    CodeForm(Utf16, text[p]);
  }

  // ---- lines and columns -----------------------------------------------------------------------------

  /** Everything before `p` on its line is ASCII. */
  predicate PureLine(text: string, p: nat)
    requires p <= |text|
  {
    p == 0 || text[p - 1] == '\n' || (IsAscii(text[p - 1]) && PureLine(text, p - 1))
  }

  lemma {:induction false} LineKept(src: string, i: nat, j: nat)
    requires i <= j <= |src| && forall k :: i <= k < j ==> src[k] != '\n'
    ensures LineOf(src, j) == LineOf(src, i)
  {
    if i < j { LineKept(src, i, j - 1); }
  }

  /** Lines are the same in every encoding, and so are columns where the line so far is ASCII. */
  lemma {:induction false} LinesAgree(enc: Encoding, text: string, p: nat)
    requires p <= |text|
    ensures Pos(enc, text, p) <= |Encode(enc, text)|
    ensures LineOf(Encode(enc, text), Pos(enc, text, p)) == LineOf(text, p)
    ensures PureLine(text, p) ==> ColumnOf(Encode(enc, text), Pos(enc, text, p)) == ColumnOf(text, p)
  {
    PosGrows(enc, text, p, p);
    if p == 0 {
      PosEnds(enc, text);
    } else {
      LinesAgree(enc, text, p - 1);
      StepAt(enc, text, p - 1);
      hide Pos, Encode;
      if !IsAscii(text[p - 1]) {
        ForeignIsNoLineEnd(enc, text, p - 1);
        LineKept(Encode(enc, text), Pos(enc, text, p - 1), Pos(enc, text, p));
      }
    }
  }

  lemma ForeignIsNoLineEnd(enc: Encoding, text: string, p: nat)
    requires p < |text| && !IsAscii(text[p])
    ensures Pos(enc, text, p + 1) <= |Encode(enc, text)|
    ensures forall k :: Pos(enc, text, p) <= k < Pos(enc, text, p + 1) ==> Encode(enc, text)[k] != '\n'
    ensures text[p] != '\n'
  {
    StepAt(enc, text, p);
    hide Pos, Encode;
  }

  /** The span of a stretch of the text, with the offsets that it has in an encoding. */
  function SpanIn(enc: Encoding, text: string, p: nat, q: nat): Span
    requires p <= |text| && q <= |text|
  {
    SpanOf(text, p, q).(startOffset := Pos(enc, text, p), endOffset := Pos(enc, text, q))
  }

  lemma SpanEncoded(enc: Encoding, text: string, p: nat, q: nat)
    requires p <= q <= |text| && PureLine(text, p) && PureLine(text, q)
    ensures Pos(enc, text, p) <= Pos(enc, text, q) <= |Encode(enc, text)|
    ensures SpanOf(Encode(enc, text), Pos(enc, text, p), Pos(enc, text, q)) == SpanIn(enc, text, p, q)
  {
    PosGrows(enc, text, p, q);
    LinesAgree(enc, text, p);
    LinesAgree(enc, text, q);
    hide Pos, Encode, LineOf, ColumnOf;
  }

  lemma {:induction false} PureOn(text: string, p: nat, q: nat)
    requires p <= q <= |text| && PureLine(text, p) && forall i :: p <= i < q ==> IsAscii(text[i])
    ensures PureLine(text, q)
  {
    if p < q { PureOn(text, p, q - 1); }
  }

  // ---- line ends and words ---------------------------------------------------------------------------

  lemma {:induction false} LineEndSkips(src: string, i: nat, j: nat)
    requires i <= j <= |src| && forall k :: i <= k < j ==> src[k] != '\n'
    ensures LineEnd(src, i) == LineEnd(src, j)
    decreases j - i
  {
    if i < j { LineEndSkips(src, i + 1, j); }
  }

  lemma {:induction false} LineEndEncoded(enc: Encoding, text: string, p: nat)
    requires p <= |text|
    ensures Pos(enc, text, p) <= |Encode(enc, text)|
    ensures LineEnd(Encode(enc, text), Pos(enc, text, p)) == Pos(enc, text, LineEnd(text, p))
    decreases |text| - p
  {
    PosGrows(enc, text, p, p);
    if p == |text| {
      PosEnds(enc, text);
    } else {
      StepAt(enc, text, p);
      if text[p] != '\n' {
        if !IsAscii(text[p]) { ForeignIsNoLineEnd(enc, text, p); }
        LineEndSkips(Encode(enc, text), Pos(enc, text, p), Pos(enc, text, p + 1));
        LineEndEncoded(enc, text, p + 1);
      }
    }
  }

  lemma SymbolsAreAscii(c: char)
    requires IsSymbolChar(c) || IsBlank(c) || c == ';' || c == '(' || c == ')'
    ensures IsAscii(c)
  {
  }
}
