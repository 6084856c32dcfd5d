// The texts of section 2 of RFC 8259 as they may be written by others: blanks before and after every
// token, characters as themselves or by any of their escapes. Each is read as what it means, however it is
// spelled (harness/json.hpp:122-273; docs/integration/protocol.md:55-60).

module JsonTexts {
  import opened Json
  import opened JsonRoundTrip
  import opened Options
  import opened Decimals
  import opened Lexer
  import opened Alphabet

  /** A character of a string: itself, a short escape, or four hexadecimal digits. */
  datatype Glyph = Plain(c: char) | Short(e: char) | Coded(a: char, b: char, c2: char, d: char)

  datatype Text =
    | TNull
    | TBool(b: bool)
    | TNum(run: string)
    | TStr(glyphs: seq<Glyph>)
    | TArr(blank: string, items: seq<Placed>)
    | TObj(blank: string, pairs: seq<Pair>)

  /** A value and the blanks around it. */
  datatype Placed = Placed(before: string, value: Text, after: string)

  /** A key, the blanks around it, and a value. */
  datatype Pair = Pair(before: string, key: seq<Glyph>, after: string, placed: Placed)

  // ---- how texts are written ---------------------------------------------------------------------------

  function Spell(g: Glyph): string {
    match g
    case Plain(c) => [c]
    case Short(e) => ['\\', e]
    case Coded(a, b, c, d) => ['\\', 'u', a, b, c, d]
  }

  function SpellAll(gs: seq<Glyph>): string {
    if gs == [] then "" else Spell(gs[0]) + SpellAll(gs[1..])
  }

  function Quoted(gs: seq<Glyph>): string { "\"" + SpellAll(gs) + "\"" }

  function Print(t: Text): string
    decreases t, 1
  {
    match t
    case TNull => "null"
    case TBool(b) => if b then "true" else "false"
    case TNum(run) => run
    case TStr(gs) => Quoted(gs)
    case TArr(blank, items) => "[" + (if items == [] then blank else PrintItems(items)) + "]"
    case TObj(blank, pairs) => "{" + (if pairs == [] then blank else PrintPairs(pairs)) + "}"
  }

  function PrintItems(items: seq<Placed>): string
    decreases items, 0
  {
    if items == [] then ""
    else if |items| == 1 then PrintPlaced(items[0])
    else PrintPlaced(items[0]) + "," + PrintItems(items[1..])
  }

  function PrintPlaced(p: Placed): string
    decreases p, 2
  {
    p.before + Print(p.value) + p.after
  }

  function PrintPairs(pairs: seq<Pair>): string
    decreases pairs, 0
  {
    if pairs == [] then ""
    else if |pairs| == 1 then PrintPair(pairs[0])
    else PrintPair(pairs[0]) + "," + PrintPairs(pairs[1..])
  }

  function PrintPair(p: Pair): string
    decreases p, 2
  {
    p.before + Quoted(p.key) + p.after + ":" + PrintPlaced(p.placed)
  }

  // ---- what may be written -------------------------------------------------------------------------------

  predicate IsGap(s: string) {
    forall i :: 0 <= i < |s| ==> s[i] in {' ', '\t', '\n', '\r'}
  }

  const LOWER := "0123456789abcdef"
  const UPPER := "0123456789ABCDEF"

  predicate IsHex(c: char) { c in LOWER || c in UPPER }

  /** Anything but a quote and a backslash may stand for itself. */
  predicate Allowed(g: Glyph) {
    match g
    case Plain(c) => c != '"' && c != '\\'
    case Short(e) => e in "\"\\/bfnrt"
    case Coded(a, b, c, d) => IsHex(a) && IsHex(b) && IsHex(c) && IsHex(d)
  }

  predicate AllAllowed(gs: seq<Glyph>) { forall i :: 0 <= i < |gs| ==> Allowed(gs[i]) }

  const NUMERIC := "0123456789-+.eE"

  /** Anything of the bytes of numbers is taken for one. */
  predicate IsRun(run: string) {
    run != "" && forall i :: 0 <= i < |run| ==> run[i] in NUMERIC
  }

  ghost predicate Proper(t: Text)
    decreases t, 1
  {
    match t
    case TNum(run) => IsRun(run)
    case TStr(gs) => AllAllowed(gs)
    case TArr(blank, items) => IsGap(blank) && forall i :: 0 <= i < |items| ==> ProperPlaced(items[i])
    case TObj(blank, pairs) => IsGap(blank) && forall i :: 0 <= i < |pairs| ==> ProperPair(pairs[i])
    case _ => true
  }

  ghost predicate ProperPlaced(p: Placed)
    decreases p, 2
  {
    IsGap(p.before) && IsGap(p.after) && Proper(p.value)
  }

  ghost predicate ProperPair(p: Pair)
    decreases p, 3
  {
    IsGap(p.before) && AllAllowed(p.key) && IsGap(p.after) && ProperPlaced(p.placed)
  }

  // ---- what they mean ------------------------------------------------------------------------------------

  /** The value of a hexadecimal digit is its place. */
  ghost function HexOf(c: char): (k: nat)
    requires IsHex(c)
    ensures k < 16 && (LOWER[k] == c || UPPER[k] == c)
  {
    var k: nat :| k < 16 && (LOWER[k] == c || UPPER[k] == c);
    k
  }

  lemma HexOfIs(c: char)
    requires IsHex(c)
    ensures HexDigit(c) == HexOf(c)
  {
    PlaceIs(HexOf(c));
    hide HexDigit, LOWER, UPPER;
  }

  lemma PlaceIs(k: nat)
    requires k < 16
    ensures HexDigit(LOWER[k]) == k && HexDigit(UPPER[k]) == k
  {
  }

  /** The bytes of a code point, of which each but the first carries six bits (section 3 of RFC 3629). */
  predicate Encodes(bytes: string, cp: nat) {
    || (|bytes| == 1 && cp < 0x80 && bytes[0] as int == cp)
    || (|bytes| == 2 && 0x80 <= cp < 0x800 && (bytes[0] as int - 0xc0) * 64 + Six(bytes[1]) == cp && 0 <= Six(bytes[1]) < 64)
    || (|bytes| == 3 && 0x800 <= cp < 0x1_0000 && (bytes[0] as int - 0xe0) * 4096 + Six(bytes[1]) * 64 + Six(bytes[2]) == cp
        && 0 <= Six(bytes[1]) < 64 && 0 <= Six(bytes[2]) < 64)
  }

  function Six(c: char): int { c as int - 0x80 }

  lemma EncodedOnce(cp: nat, bytes: string)
    requires cp < 0x1_0000
    ensures Encodes(bytes, cp) <==> bytes == Utf8(cp)
  {
  }

  ghost function Sound(g: Glyph): string
    requires Allowed(g)
  {
    match g
    case Plain(c) => [c]
    case Short('"') => "\""
    case Short('\\') => "\\"
    case Short('/') => "/"
    case Short('b') => [8 as char]
    case Short('f') => [12 as char]
    case Short('n') => "\n"
    case Short('r') => "\r"
    case Short(_) => "\t"
    case Coded(a, b, c, d) =>
      Utf8(HexOf(a) * 4096 + HexOf(b) * 256 + HexOf(c) * 16 + HexOf(d))
  }

  ghost function SoundAll(gs: seq<Glyph>): string
    requires AllAllowed(gs)
  {
    if gs == [] then "" else Sound(gs[0]) + SoundAll(gs[1..])
  }

  /** A numeral up to 2^53 in size, which a double holds exactly, is that integer. What any other run of these
      bytes comes to is not modelled. */
  ghost function NumberOf(run: string): Num {
    var size := SizeOf(Unsigned(run), 0);
    if IsNumeral(run) && size <= 9007199254740992 then Exact(if run[0] == '-' then 0 - size else size) else Inexact(run)
  }

  ghost function Meaning(t: Text): Value
    requires Proper(t)
    decreases t, 1
  {
    match t
    case TNull => VNull
    case TBool(b) => VBool(b)
    case TNum(run) => VNum(NumberOf(run))
    case TStr(gs) => VStr(SoundAll(gs))
    case TArr(_, items) => VArr(Meanings(items))
    case TObj(_, pairs) => VObj(Fields(pairs, map[]))
  }

  ghost function Meanings(items: seq<Placed>): seq<Value>
    requires forall i :: 0 <= i < |items| ==> ProperPlaced(items[i])
    decreases items, 0
  {
    if items == [] then [] else [PlacedMeaning(items[0])] + Meanings(items[1..])
  }

  ghost function PlacedMeaning(p: Placed): Value
    requires ProperPlaced(p)
    decreases p, 2
  {
    Meaning(p.value)
  }

  /** The first of a repeated key counts. */
  ghost function Fields(pairs: seq<Pair>, got: map<string, Value>): map<string, Value>
    requires forall i :: 0 <= i < |pairs| ==> ProperPair(pairs[i])
    decreases pairs, 0
  {
    if pairs == [] then got
    else
      assert ProperPair(pairs[0]);
      var key, v := SoundAll(pairs[0].key), PairMeaning(pairs[0]);
      Fields(pairs[1..], if key in got then got else got[key := v])
  }

  ghost function PairMeaning(p: Pair): Value
    requires ProperPair(p)
    decreases p, 3
  {
    PlacedMeaning(p.placed)
  }

  // ---- blanks ----------------------------------------------------------------------------------------------

  predicate IsToken(c: char) {
    c in {'n', 't', 'f', '"', '[', '{', '-', '+', '.', 'e', 'E', ',', ']', '}', ':'} || '0' <= c <= '9'
  }

  lemma GapCharacters(c: char)
    requires c in {' ', '\t', '\n', '\r'}
    ensures IsWs(c) && !IsNumChar(c)
  {
  }

  lemma TokenCharacters(c: char)
    requires IsToken(c)
    ensures !IsWs(c)
  {
  }

  lemma {:induction false} GapSkips(s: string, i: nat, gap: string)
    requires i <= |s| && Follows(s, i, gap) && IsGap(gap) && i + |gap| < |s| && IsToken(s[i + |gap|])
    ensures SkipWs(s, i) == i + |gap| && SkipWs(s, i + |gap|) == i + |gap|
    decreases |gap|
  {
    TokenCharacters(s[i + |gap|]);
    if gap != "" {
      GapCharacters(gap[0]);
      FollowsAt(s, i, gap, 0);
      assert gap == [gap[0]] + gap[1..];
      FollowsSplit(s, i, [gap[0]], gap[1..]);
      GapSkips(s, i + 1, gap[1..]);
    }
    hide IsWs, IsToken;
  }

  /** A number before a blank, a comma or a closing bracket ends there. */
  lemma GapStops(s: string, i: nat, gap: string)
    requires i <= |s| && Follows(s, i, gap) && IsGap(gap) && i + |gap| < |s| && s[i + |gap|] in {',', ']', '}'}
    ensures Stops(s, i)
  {
    if gap != "" { FollowsAt(s, i, gap, 0); GapCharacters(gap[0]); }
  }

  lemma SkipValue(s: string, i: nat, j: nat)
    requires i <= j <= |s| && SkipWs(s, i) == j && SkipWs(s, j) == j
    ensures ParseValue(s, i) == ParseValue(s, j)
  {
    hide SkipWs, ParseFields, ParseItems, ParseString, Follows, NumEnd, NumOf;
  }

  // ---- strings -----------------------------------------------------------------------------------------------

  lemma GlyphReads(s: string, i: nat, g: Glyph, out: string)
    requires i <= |s| && Follows(s, i, Spell(g)) && Allowed(g)
    ensures i + |Spell(g)| <= |s| && ParseChars(s, i, out) == ParseChars(s, i + |Spell(g)|, out + Sound(g))
  {
    hide Utf8, HexDigit, IsHex, HexOf;
    FollowsAt(s, i, Spell(g), 0);
    if g.Short? { FollowsAt(s, i, Spell(g), 1); }
    if g.Coded? { CodedReads(s, i, g); }
  }

  lemma CodedReads(s: string, i: nat, g: Glyph)
    requires i <= |s| && Follows(s, i, Spell(g)) && Allowed(g) && g.Coded?
    ensures i + 6 <= |s| && s[i] == '\\' && s[i + 1] == 'u'
    ensures HexOf(g.a) < 16 && HexOf(g.b) < 16 && HexOf(g.c2) < 16 && HexOf(g.d) < 16
    ensures CodePoint(s, i + 2) == Some(HexOf(g.a) * 4096 + HexOf(g.b) * 256 + HexOf(g.c2) * 16 + HexOf(g.d))
  {
    hide HexDigit, IsHex, HexOf;
    FollowsAt(s, i, Spell(g), 0);
    FollowsAt(s, i, Spell(g), 1);
    FollowsAt(s, i, Spell(g), 2);
    FollowsAt(s, i, Spell(g), 3);
    FollowsAt(s, i, Spell(g), 4);
    FollowsAt(s, i, Spell(g), 5);
    HexOfIs(g.a);
    HexOfIs(g.b);
    HexOfIs(g.c2);
    HexOfIs(g.d);
  }

  lemma {:induction false} GlyphsRead(s: string, i: nat, gs: seq<Glyph>, out: string)
    requires i <= |s| && Follows(s, i, SpellAll(gs) + "\"") && AllAllowed(gs)
    ensures ParseChars(s, i, out) == Some((out + SoundAll(gs), i + |SpellAll(gs)| + 1))
    decreases |gs|
  {
    hide ParseChars, Follows, Spell, Sound, Allowed;
    if gs == [] {
      assert SpellAll(gs) + "\"" == "\"";
      FollowsAt(s, i, "\"", 0);
      CharsEnd(s, i, out);
      assert out + "" == out;
    } else {
      var w, rest := Spell(gs[0]), SpellAll(gs[1..]);
      assert SpellAll(gs) + "\"" == w + (rest + "\"");
      FollowsSplit(s, i, w, rest + "\"");
      GlyphReads(s, i, gs[0], out);
      GlyphsRead(s, i + |w|, gs[1..], out + Sound(gs[0]));
      assert out + Sound(gs[0]) + SoundAll(gs[1..]) == out + (Sound(gs[0]) + SoundAll(gs[1..]));
    }
  }

  lemma {:induction false} QuotedReads(s: string, i: nat, gs: seq<Glyph>)
    requires i <= |s| && Follows(s, i, Quoted(gs)) && AllAllowed(gs)
    ensures ParseString(s, i) == Some((SoundAll(gs), i + |Quoted(gs)|)) && i < |s| && s[i] == '"'
  {
    hide SpellAll, SoundAll, ParseChars, AllAllowed;
    assert Quoted(gs) == "\"" + (SpellAll(gs) + "\"");
    FollowsSplit(s, i, "\"", SpellAll(gs) + "\"");
    FollowsAt(s, i, Quoted(gs), 0);
    GlyphsRead(s, i + 1, gs, "");
    assert "" + SoundAll(gs) == SoundAll(gs);
  }

  // ---- values ------------------------------------------------------------------------------------------------

  lemma NumericAre(c: char)
    ensures c in NUMERIC <==> IsNumChar(c)
    ensures IsNumChar(c) ==> IsToken(c) && c !in {'{', '[', '"', 't', 'f', 'n', ',', ']', '}', ':'}
  {
  }

  lemma {:induction false} PrintLeads(t: Text)
    requires Proper(t)
    ensures Print(t) != "" && IsToken(Print(t)[0]) && Print(t)[0] !in {',', ']', '}', ':'}
  {
    if t.TNum? { NumericAre(t.run[0]); }
    hide NUMERIC, IsNumChar;
  }

  lemma RunReads(run: string)
    requires IsRun(run)
    ensures NumOf(run) == NumberOf(run) && forall k :: 0 <= k < |run| ==> IsNumChar(run[k])
    ensures run[0] !in {'{', '[', '"', 't', 'f', 'n'}
  {
    forall k | 0 <= k < |run| ensures IsNumChar(run[k]) { NumericAre(run[k]); }
    NumericAre(run[0]);
    hide NUMERIC, IsNumChar, SizeOf, IsNumeral, Unsigned, Magnitude, AllDigits, IsDigit;
    NumeralIs(run);
    assert Digits(run) == if run[0] == '-' then run[1..] else run;
    if IsNumeral(run) { NumeralHas(run); }
  }

  lemma {:induction false} LeafReads(s: string, i: nat, t: Text)
    requires Proper(t) && !t.TArr? && !t.TObj?
    requires i <= |s| && Follows(s, i, Print(t)) && (t.TNum? ==> Stops(s, i + |Print(t)|))
    ensures ParseValue(s, i) == Some((Meaning(t), i + |Print(t)|))
  {
    hide ParseString, NumOf, NumberOf, Quoted, SoundAll, AllAllowed, IsRun, IsNumChar;
    PrintLeads(t);
    FollowsAt(s, i, Print(t), 0);
    TokenCharacters(s[i]);
    match t
    case TNull =>
    case TBool(b) => BoolReads(s, i, b);
    case TNum(run) =>
      RunReads(run);
      NumEndReads(s, i, run);
    case TStr(gs) => QuotedReads(s, i, gs);
  }

  /** Whatever is written, in whatever spelling and with whatever blanks, is read as what it means. */
  lemma {:induction false} TextReads(s: string, i: nat, t: Text)
    requires Proper(t)
    requires i <= |s| && Follows(s, i, Print(t)) && (t.TNum? ==> Stops(s, i + |Print(t)|))
    ensures ParseValue(s, i) == Some((Meaning(t), i + |Print(t)|))
    decreases t, 5
  {
    hide ParseValue, Print, Follows, Stops, Meaning, Proper;
    match t
    case TArr(_, _) => ArrayReads(s, i, t);
    case TObj(_, _) => ObjectReads(s, i, t);
    case _ => LeafReads(s, i, t);
  }

  lemma Opens(s: string, i: nat)
    requires i < |s| && (s[i] == '[' || s[i] == '{')
    ensures var k := SkipWs(s, i + 1);
            ParseValue(s, i) == if s[i] == '[' then (if k < |s| && s[k] == ']' then Some((VArr([]), k + 1)) else ParseItems(s, k, []))
                                else (if k < |s| && s[k] == '}' then Some((VObj(map[]), k + 1)) else ParseFields(s, k, map[]))
  {
    hide ParseItems, ParseFields;
    assert SkipWs(s, i) == i;
  }

  /** Brackets with nothing but blanks between them. */
  lemma EmptyReads(s: string, i: nat, open: char, gap: string, close: char)
    requires i <= |s| && Follows(s, i, [open] + gap + [close]) && IsGap(gap)
    requires (open == '[' && close == ']') || (open == '{' && close == '}')
    ensures ParseValue(s, i) == Some((if open == '[' then VArr([]) else VObj(map[]), i + |gap| + 2))
  {
    hide ParseValue, Follows, IsGap, SkipWs;
    FollowsSplit(s, i, [open] + gap, [close]);
    FollowsSplit(s, i, [open], gap);
    FollowsAt(s, i, [open], 0);
    FollowsAt(s, i + 1 + |gap|, [close], 0);
    ClosesAreTokens();
    GapSkips(s, i + 1, gap);
    Opens(s, i);
  }

  lemma {:induction false} ArrayReads(s: string, i: nat, t: Text)
    requires Proper(t) && t.TArr?
    requires i <= |s| && Follows(s, i, Print(t))
    ensures ParseValue(s, i) == Some((Meaning(t), i + |Print(t)|))
    decreases t, 4
  {
    hide ParseValue, ParseItems, PrintItems, PrintPairs, Fields, Meanings, IsToken, IsGap, ProperPlaced, SkipWs, Follows;
    var items := t.items;
    NothingMeant();
    if items == [] {
      assert Print(t) == ['['] + t.blank + [']'];
      EmptyReads(s, i, '[', t.blank, ']');
    } else {
      assert Print(t) == "[" + (PrintItems(items) + "]");
      FollowsSplit(s, i, "[", PrintItems(items) + "]");
      FollowsAt(s, i, "[", 0);
      Opens(s, i);
      ItemsRead(s, i + 1, items, []);
      assert [] + Meanings(items) == Meanings(items);
    }
  }

  lemma ClosesAreTokens()
    ensures IsToken(']') && IsToken('}') && IsToken(',') && IsToken(':') && IsToken('"')
  {
  }

  lemma NothingMeant()
    ensures Meanings([]) == [] && Fields([], map[]) == map[]
  {
  }

  /** A value between blanks, up to what comes after them. */
  lemma {:induction false} PlacedReads(s: string, i: nat, p: Placed)
    requires ProperPlaced(p)
    requires i <= |s| && Follows(s, i, PrintPlaced(p)) && i + |PrintPlaced(p)| < |s| && s[i + |PrintPlaced(p)|] in {',', ']', '}'}
    ensures i + |p.before| < |s| && SkipWs(s, i) == i + |p.before| && s[i + |p.before|] !in {',', ']', '}', ':'}
    ensures var j := i + |p.before| + |Print(p.value)|;
            && ParseValue(s, i) == Some((PlacedMeaning(p), j)) && ParseValue(s, i + |p.before|) == ParseValue(s, i)
            && j <= |s| && SkipWs(s, j) == i + |PrintPlaced(p)|
    decreases p, 6
  {
    hide ParseValue, Print, Meaning, Proper, IsGap, Follows, Stops, SkipWs;
    var w := Print(p.value);
    FollowsSplit(s, i, p.before + w, p.after);
    FollowsSplit(s, i, p.before, w);
    var a, j := i + |p.before|, i + |p.before| + |w|;
    PrintLeads(p.value);
    FollowsAt(s, a, w, 0);
    GapSkips(s, i, p.before);
    ClosesAreTokens();
    GapSkips(s, j, p.after);
    GapStops(s, j, p.after);
    TextReads(s, a, p.value);
    SkipValue(s, i, a);
  }

  /** An element, what follows it, and the rest. */
  lemma CommaFollows(s: string, i: nat, w: string, rest: string)
    requires i <= |s| && Follows(s, i, w + "," + rest)
    ensures Follows(s, i, w) && i + |w| + 1 <= |s| && s[i + |w|] == ',' && Follows(s, i + |w| + 1, rest)
  {
    assert w + "," + rest == w + ("," + rest);
    FollowsSplit(s, i, w, "," + rest);
    FollowsSplit(s, i + |w|, ",", rest);
    FollowsAt(s, i + |w|, ",", 0);
  }

  lemma CloseFollows(s: string, i: nat, w: string, close: char)
    requires i <= |s| && Follows(s, i, w + [close])
    ensures Follows(s, i, w) && i + |w| < |s| && s[i + |w|] == close
  {
    FollowsSplit(s, i, w, [close]);
    FollowsAt(s, i + |w|, [close], 0);
  }

  lemma ItemStep(s: string, i: nat, acc: seq<Value>, v: Value, j: nat)
    requires i <= |s| && ParseValue(s, i) == Some((v, j)) && j <= |s| && SkipWs(s, j) < |s|
    ensures var k := SkipWs(s, j);
            && (s[k] == ',' ==> ParseItems(s, i, acc) == ParseItems(s, k + 1, acc + [v]))
            && (s[k] == ']' ==> ParseItems(s, i, acc) == Some((VArr(acc + [v]), k + 1)))
  {
    hide ParseValue, SkipWs;
  }

  /** The elements, from before or after the first blanks. */
  lemma {:induction false} ItemsRead(s: string, i: nat, items: seq<Placed>, acc: seq<Value>)
    requires items != [] && (forall k :: 0 <= k < |items| ==> ProperPlaced(items[k]))
    requires i <= |s| && Follows(s, i, PrintItems(items) + "]")
    ensures var k := i + |items[0].before|;
            && k < |s| && SkipWs(s, i) == k && s[k] != ']'
            && ParseItems(s, k, acc) == Some((VArr(acc + Meanings(items)), i + |PrintItems(items)| + 1))
    decreases items, 4
  {
    hide PrintPlaced, Print, ParseValue, ParseItems, PlacedMeaning, ProperPlaced, Follows, SkipWs, IsToken, Meanings;
    var p, w, k := items[0], PrintPlaced(items[0]), i + |items[0].before|;
    ItemsUnfold(items);
    if |items| == 1 {
      CloseFollows(s, i, w, ']');
      PlacedReads(s, i, p);
      ItemStep(s, k, acc, PlacedMeaning(p), k + |Print(p.value)|);
    } else {
      var rest := items[1..];
      assert PrintItems(items) + "]" == w + "," + (PrintItems(rest) + "]");
      CommaFollows(s, i, w, PrintItems(rest) + "]");
      PlacedReads(s, i, p);
      ItemStep(s, k, acc, PlacedMeaning(p), k + |Print(p.value)|);
      var next := acc + [PlacedMeaning(p)];
      ItemsRead(s, i + |w| + 1, rest, next);
      SkipItems(s, i + |w| + 1, i + |w| + 1 + |rest[0].before|, next);
      assert next + Meanings(rest) == acc + ([PlacedMeaning(p)] + Meanings(rest));
    }
  }

  lemma ItemsUnfold(items: seq<Placed>)
    requires items != [] && forall k :: 0 <= k < |items| ==> ProperPlaced(items[k])
    ensures ProperPlaced(items[0]) && Meanings(items) == [PlacedMeaning(items[0])] + Meanings(items[1..])
    ensures |items| == 1 ==> Meanings(items) == [PlacedMeaning(items[0])]
  {
    hide ProperPlaced, PlacedMeaning;
  }

  lemma SkipItems(s: string, i: nat, j: nat, acc: seq<Value>)
    requires i <= j <= |s| && SkipWs(s, i) == j
    ensures ParseItems(s, i, acc) == ParseItems(s, j, acc)
  {
    SkipTwice(s, i);
    SkipValue(s, i, j);
    hide ParseValue, SkipWs;
  }

  lemma {:induction false} SkipTwice(s: string, i: nat)
    requires i <= |s|
    ensures SkipWs(s, SkipWs(s, i)) == SkipWs(s, i)
    decreases |s| - i
  {
    if i < |s| && IsWs(s[i]) { SkipTwice(s, i + 1); }
  }

  lemma {:induction false} ObjectReads(s: string, i: nat, t: Text)
    requires Proper(t) && t.TObj?
    requires i <= |s| && Follows(s, i, Print(t))
    ensures ParseValue(s, i) == Some((Meaning(t), i + |Print(t)|))
    decreases t, 4
  {
    hide ParseValue, ParseFields, PrintItems, PrintPairs, Fields, Meanings, IsToken, IsGap, ProperPair, SkipWs, Follows;
    var pairs := t.pairs;
    NothingMeant();
    if pairs == [] {
      assert Print(t) == ['{'] + t.blank + ['}'];
      EmptyReads(s, i, '{', t.blank, '}');
    } else {
      assert Print(t) == "{" + (PrintPairs(pairs) + "}");
      FollowsSplit(s, i, "{", PrintPairs(pairs) + "}");
      FollowsAt(s, i, "{", 0);
      Opens(s, i);
      PairsRead(s, i + 1, pairs, map[]);
    }
  }

  lemma SkipMember(s: string, i: nat, j: nat)
    requires i <= j <= |s| && SkipWs(s, i) == j
    ensures ParseMember(s, i) == ParseMember(s, j)
  {
    SkipTwice(s, i);
    hide SkipWs, ParseValue, ParseString;
  }

  lemma MemberStep(s: string, i: nat, key: string, j: nat, v: Value, e: nat)
    requires i <= |s| && ParseString(s, SkipWs(s, i)) == Some((key, j)) && j <= |s|
    requires SkipWs(s, j) < |s| && s[SkipWs(s, j)] == ':' && ParseValue(s, SkipWs(s, j) + 1) == Some((v, e))
    ensures ParseMember(s, i) == Some(((key, v), e))
  {
    hide SkipWs, ParseValue, ParseString;
  }

  /** The places of the parts of a pair. */
  lemma PairParts(s: string, i: nat, before: string, q: string, after: string, w: string)
    requires i <= |s| && Follows(s, i, before + q + after + ":" + w)
    ensures var a := i + |before|; var b := a + |q|; var c := b + |after|;
            && Follows(s, i, before) && a <= |s| && Follows(s, a, q) && b <= |s| && Follows(s, b, after)
            && c < |s| && s[c] == ':' && Follows(s, c + 1, w)
  {
    assert before + q + after + ":" + w == before + (q + (after + (":" + w)));
    FollowsSplit(s, i, before, q + (after + (":" + w)));
    var a := i + |before|;
    FollowsSplit(s, a, q, after + (":" + w));
    var b := a + |q|;
    FollowsSplit(s, b, after, ":" + w);
    var c := b + |after|;
    FollowsSplit(s, c, ":", w);
    FollowsAt(s, c, ":", 0);
  }

  lemma {:induction false} PairReads(s: string, i: nat, p: Pair)
    requires ProperPair(p)
    requires i <= |s| && Follows(s, i, PrintPair(p)) && i + |PrintPair(p)| < |s| && s[i + |PrintPair(p)|] in {',', ']', '}'}
    ensures i + |p.before| < |s| && SkipWs(s, i) == i + |p.before| && s[i + |p.before|] == '"'
    ensures var r := ParseMember(s, i);
            && r.Some? && r.value.0 == (SoundAll(p.key), PairMeaning(p)) && SkipWs(s, r.value.1) == i + |PrintPair(p)|
    decreases p, 7
  {
    hide ParseMember, ParseValue, ParseString, Quoted, PrintPlaced, PlacedMeaning, ProperPlaced, IsGap, Follows, SkipWs, IsToken, SoundAll, AllAllowed;
    var q, w := Quoted(p.key), PrintPlaced(p.placed);
    PairParts(s, i, p.before, q, p.after, w);
    var a := i + |p.before|;
    var b := a + |q|;
    var c := b + |p.after|;
    QuotedReads(s, a, p.key);
    ClosesAreTokens();
    GapSkips(s, i, p.before);
    GapSkips(s, b, p.after);
    PlacedReads(s, c + 1, p.placed);
    MemberStep(s, i, SoundAll(p.key), b, PairMeaning(p), c + 1 + |p.placed.before| + |Print(p.placed.value)|);
  }

  lemma FieldStep(s: string, i: nat, got: map<string, Value>)
    requires i <= |s| && ParseMember(s, i).Some? && SkipWs(s, ParseMember(s, i).value.1) < |s|
    ensures var r := ParseMember(s, i).value;
            var k, next := SkipWs(s, r.1), Emplace(got, r.0.0, r.0.1);
            && (s[k] == ',' ==> ParseFields(s, i, got) == ParseFields(s, k + 1, next))
            && (s[k] == '}' ==> ParseFields(s, i, got) == Some((VObj(next), k + 1)))
  {
    FieldsAfter(s, i, got);
    hide ParseMember, SkipWs, Emplace, ParseFields;
  }

  function AfterMember(s: string, r: Option<((string, Value), nat)>, got: map<string, Value>): Option<(Value, nat)>
    requires r.Some? ==> r.value.1 <= |s|
  {
    if r.None? then None
    else
      var next := Emplace(got, r.value.0.0, r.value.0.1);
      var k := SkipWs(s, r.value.1);
      if k == |s| then None
      else if s[k] == ',' then ParseFields(s, k + 1, next)
      else if s[k] == '}' then Some((VObj(next), k + 1))
      else None
  }

  lemma FieldsAfter(s: string, i: nat, got: map<string, Value>)
    requires i <= |s|
    ensures ParseFields(s, i, got) == AfterMember(s, ParseMember(s, i), got)
  {
    hide ParseMember, SkipWs, Emplace;
  }

  lemma SkipFields(s: string, i: nat, j: nat, got: map<string, Value>)
    requires i <= j <= |s| && SkipWs(s, i) == j
    ensures ParseFields(s, i, got) == ParseFields(s, j, got)
  {
    hide *;
    SkipMember(s, i, j);
    FieldsAfter(s, i, got);
    FieldsAfter(s, j, got);
  }

  lemma FieldsUnfold(pairs: seq<Pair>, got: map<string, Value>)
    requires pairs != [] && forall i :: 0 <= i < |pairs| ==> ProperPair(pairs[i])
    ensures ProperPair(pairs[0])
    ensures Fields(pairs, got) == Fields(pairs[1..], Emplace(got, SoundAll(pairs[0].key), PairMeaning(pairs[0])))
  {
    hide ProperPlaced, SoundAll, PairMeaning;
  }

  lemma {:induction false} PairsRead(s: string, i: nat, pairs: seq<Pair>, got: map<string, Value>)
    requires pairs != [] && (forall k :: 0 <= k < |pairs| ==> ProperPair(pairs[k]))
    requires i <= |s| && Follows(s, i, PrintPairs(pairs) + "}")
    ensures var k := i + |pairs[0].before|;
            && k < |s| && SkipWs(s, i) == k && s[k] != '}'
            && ParseFields(s, k, got) == Some((VObj(Fields(pairs, got)), i + |PrintPairs(pairs)| + 1))
    decreases pairs, 4
  {
    hide PrintPair, ParseMember, ParseFields, PairMeaning, ProperPair, Follows, SkipWs, IsToken, SoundAll, AllAllowed, Fields, Emplace;
    FieldsUnfold(pairs, got);
    var p, w, k := pairs[0], PrintPair(pairs[0]), i + |pairs[0].before|;
    KeyIsAllowed(p);
    var next := Emplace(got, SoundAll(p.key), PairMeaning(p));
    if |pairs| == 1 {
      CloseFollows(s, i, w, '}');
      PairReads(s, i, p);
      FieldStep(s, i, got);
      NoFields(next);
      assert pairs[1..] == [];
    } else {
      var rest := pairs[1..];
      assert PrintPairs(pairs) + "}" == w + "," + (PrintPairs(rest) + "}");
      CommaFollows(s, i, w, PrintPairs(rest) + "}");
      PairReads(s, i, p);
      FieldStep(s, i, got);
      PairsRead(s, i + |w| + 1, rest, next);
      SkipFields(s, i + |w| + 1, i + |w| + 1 + |rest[0].before|, next);
    }
    SkipFields(s, i, k, got);
  }

  lemma KeyIsAllowed(p: Pair)
    requires ProperPair(p)
    ensures AllAllowed(p.key)
  {
  }

  lemma NoFields(got: map<string, Value>)
    ensures Fields([], got) == got
  {
  }

  // ---- the theorems ---------------------------------------------------------------------------------------------

  /** A text between blanks is read as what it means, whatever its spelling. */
  lemma {:induction false} TextsAreRead(before: string, t: Text, after: string)
    requires IsGap(before) && IsGap(after) && Proper(t)
    ensures Parse(before + Print(t) + after) == Some(Meaning(t))
  {
    hide Print, ParseValue, Meaning, Proper, IsGap, IsToken;
    var s := before + Print(t) + after;
    var a, e := |before|, |before| + |Print(t)|;
    assert s[0..a] == before && s[a..e] == Print(t) && s[e..|s|] == after;
    PrintLeads(t);
    assert s[a] == Print(t)[0];
    GapSkips(s, 0, before);
    GapEnds(s, e, after);
    TextReads(s, a, t);
    SkipValue(s, 0, a);
  }

  lemma GapEnds(s: string, i: nat, gap: string)
    requires i <= |s| && s[i..|s|] == gap && IsGap(gap)
    ensures Stops(s, i)
  {
    if gap != "" { assert s[i] == gap[0]; GapCharacters(gap[0]); }
  }

  // ---- what the writer writes, with blanks ------------------------------------------------------------------------

  /** The text without its blanks. */
  function Strip(t: Text): Text
    decreases t, 1
  {
    match t
    case TArr(_, items) => TArr("", StripItems(items))
    case TObj(_, pairs) => TObj("", StripPairs(pairs))
    case _ => t
  }

  function StripItems(items: seq<Placed>): seq<Placed>
    decreases items, 0
  {
    if items == [] then [] else [StripPlaced(items[0])] + StripItems(items[1..])
  }

  function StripPlaced(p: Placed): Placed
    decreases p, 2
  {
    Placed("", Strip(p.value), "")
  }

  function StripPairs(pairs: seq<Pair>): seq<Pair>
    decreases pairs, 0
  {
    if pairs == [] then [] else [StripPair(pairs[0])] + StripPairs(pairs[1..])
  }

  function StripPair(p: Pair): Pair
    decreases p, 3
  {
    Pair("", p.key, "", StripPlaced(p.placed))
  }

  lemma {:induction false} StripMeans(t: Text)
    requires Proper(t)
    ensures Proper(Strip(t)) && Meaning(Strip(t)) == Meaning(t)
    decreases t, 1
  {
    hide ProperPlaced, ProperPair, AllAllowed, IsRun, SoundAll;
    match t
    case TArr(_, items) => StripItemsMean(items);
    case TObj(_, pairs) => StripPairsMean(pairs, map[]);
    case _ =>
  }

  lemma {:induction false} StripItemsMean(items: seq<Placed>)
    requires forall i :: 0 <= i < |items| ==> ProperPlaced(items[i])
    ensures var r := StripItems(items); (forall i :: 0 <= i < |r| ==> ProperPlaced(r[i])) && Meanings(r) == Meanings(items)
    decreases items, 0
  {
    hide ProperPlaced, StripPlaced, PlacedMeaning;
    if items != [] {
      StripPlacedMeans(items[0]);
      StripItemsMean(items[1..]);
      var r := StripItems(items);
      assert r[0] == StripPlaced(items[0]) && r[1..] == StripItems(items[1..]);
    }
  }

  lemma {:induction false} StripPlacedMeans(p: Placed)
    requires ProperPlaced(p)
    ensures ProperPlaced(StripPlaced(p)) && PlacedMeaning(StripPlaced(p)) == PlacedMeaning(p)
    decreases p, 2
  {
    hide Proper, Meaning, Strip;
    StripMeans(p.value);
  }

  lemma {:induction false} StripPairsMean(pairs: seq<Pair>, got: map<string, Value>)
    requires forall i :: 0 <= i < |pairs| ==> ProperPair(pairs[i])
    ensures var r := StripPairs(pairs); (forall i :: 0 <= i < |r| ==> ProperPair(r[i])) && Fields(r, got) == Fields(pairs, got)
    decreases pairs, 0
  {
    hide ProperPair, StripPair, PairMeaning, Fields, SoundAll, AllAllowed, Emplace;
    if pairs == [] {
    } else {
      var p := pairs[0];
      FieldsUnfold(pairs, got);
      KeyIsAllowed(p);
      StripPairMeans(p);
      var r, next := StripPairs(pairs), Emplace(got, SoundAll(p.key), PairMeaning(p));
      StripPairsMean(pairs[1..], next);
      assert r[0] == StripPair(p) && r[1..] == StripPairs(pairs[1..]);
      FieldsUnfold(r, got);
    }
  }

  lemma {:induction false} StripPairMeans(p: Pair)
    requires ProperPair(p)
    ensures ProperPair(StripPair(p)) && PairMeaning(StripPair(p)) == PairMeaning(p) && StripPair(p).key == p.key
    decreases p, 3
  {
    hide StripPlaced, ProperPlaced, PlacedMeaning, AllAllowed;
    StripPlacedMeans(p.placed);
  }

  /** How the writer spells a character. */
  function GlyphOf(c: char): Glyph {
    if c == '"' then Short('"')
    else if c == '\\' then Short('\\')
    else if c == '\n' then Short('n')
    else if c == '\r' then Short('r')
    else if c == '\t' then Short('t')
    else if c == 8 as char then Short('b')
    else if c == 12 as char then Short('f')
    else if c < ' ' then Coded('0', '0', if c < 16 as char then '0' else '1', LOWER[c as int % 16])
    else Plain(c)
  }

  function GlyphsOf(s: string): seq<Glyph> {
    if s == "" then [] else [GlyphOf(s[0])] + GlyphsOf(s[1..])
  }

  /** The text of a document, without blanks. */
  function TextOf(d: Doc): Text
    decreases d, 1
  {
    match d
    case DBool(b) => TBool(b)
    case DNum(n) => TNum(Number(n))
    case DStr(s) => TStr(GlyphsOf(s))
    case DArr(items) => TArr("", TextsOf(items))
    case DObj(fields) => TObj("", PairsOf(fields))
  }

  function TextsOf(items: seq<Doc>): seq<Placed>
    decreases items, 0
  {
    if items == [] then [] else [Placed("", TextOf(items[0]), "")] + TextsOf(items[1..])
  }

  function PairsOf(fields: seq<Member>): seq<Pair>
    decreases fields, 0
  {
    if fields == [] then [] else [PairOf(fields[0])] + PairsOf(fields[1..])
  }

  function PairOf(m: Member): Pair
    decreases m, 2
  {
    Pair("", GlyphsOf(m.key), "", Placed("", TextOf(m.value), ""))
  }

  lemma GlyphIsEscape(c: char)
    ensures Spell(GlyphOf(c)) == EscapeChar(c) && Allowed(GlyphOf(c))
  {
    hide HEX, LOWER, UPPER, IsHex;
    if GlyphOf(c).Coded? {
      ControlDigits(c as int);
      ControlText(c);
    }
  }

  lemma ControlText(c: char)
    requires GlyphOf(c).Coded?
    ensures |HEX| == 16 && EscapeChar(c) == ['\\', 'u', '0', '0', HEX[c as int / 16], HEX[c as int % 16]]
  {
    assert |HEX| == 16;
    hide LOWER, HEX;
  }

  lemma ControlDigits(k: nat)
    requires k < 32
    ensures HEX[k / 16] == (if k < 16 then '0' else '1') && HEX[k % 16] == LOWER[k % 16]
    ensures IsHex(LOWER[k % 16]) && IsHex('0') && IsHex('1')
  {
    assert k < 16 ==> k / 16 == 0;
    assert k >= 16 ==> k / 16 == 1;
    DigitIsHex(k % 16);
    assert HEX[0] == '0' && HEX[1] == '1' && '0' in LOWER && '1' in LOWER by {
      assert LOWER[0] == '0' && LOWER[1] == '1';
    }
    hide HEX, LOWER;
  }

  lemma DigitIsHex(k: nat)
    requires k < 16
    ensures HEX[k] == LOWER[k] && LOWER[k] in LOWER
  {
  }

  lemma {:induction false} GlyphsAreEscape(s: string)
    ensures SpellAll(GlyphsOf(s)) == Escape(s) && AllAllowed(GlyphsOf(s))
  {
    hide Spell, GlyphOf, EscapeChar, Allowed;
    if s != "" {
      GlyphIsEscape(s[0]);
      GlyphsAreEscape(s[1..]);
      assert GlyphsOf(s)[1..] == GlyphsOf(s[1..]);
    }
  }

  lemma {:induction false} TextIsWritten(d: Doc)
    requires Exactly(d)
    ensures Print(TextOf(d)) == Write(d) && Proper(TextOf(d))
    decreases d, 1
  {
    hide SpellAll, GlyphsOf, AllAllowed, ProperPlaced, ProperPair, PrintItems, PrintPairs, WriteItems, WriteFields;
    NothingWritten();
    match d
    case DNum(n) => NumberIsRun(n);
    case DStr(s) => GlyphsAreEscape(s);
    case DArr(items) => TextsAreWritten(items);
    case DObj(fields) => PairsAreWritten(fields);
    case _ =>
  }

  lemma NumberIsRun(n: int)
    requires -MAX_EXACT <= n <= MAX_EXACT
    ensures IsRun(Number(n))
  {
    NumberReads(n);
    forall k | 0 <= k < |Number(n)| ensures Number(n)[k] in NUMERIC { NumericAre(Number(n)[k]); }
    hide Number, NUMERIC, NumOf, IsNumChar;
  }

  lemma {:induction false} TextsAreWritten(items: seq<Doc>)
    requires forall i :: 0 <= i < |items| ==> Exactly(items[i])
    ensures var r := TextsOf(items);
            && (forall i :: 0 <= i < |r| ==> ProperPlaced(r[i])) && |r| == |items| && PrintItems(r) == WriteItems(items)
    decreases items, 0
  {
    hide Exactly, Proper, Print, Write, TextOf;
    if items != [] {
      TextIsWritten(items[0]);
      TextsAreWritten(items[1..]);
      var r := TextsOf(items);
      assert r[1..] == TextsOf(items[1..]);
      assert PrintPlaced(r[0]) == Write(items[0]);
    }
  }

  lemma {:induction false} PairsAreWritten(fields: seq<Member>)
    requires forall i :: 0 <= i < |fields| ==> ExactMember(fields[i])
    ensures var r := PairsOf(fields);
            && (forall i :: 0 <= i < |r| ==> ProperPair(r[i])) && |r| == |fields| && PrintPairs(r) == WriteFields(fields)
    decreases fields, 0
  {
    hide ExactMember, ProperPair, PrintPair, WriteMember, PairOf;
    if fields != [] {
      PairIsWritten(fields[0]);
      PairsAreWritten(fields[1..]);
      var r := PairsOf(fields);
      assert r[1..] == PairsOf(fields[1..]);
    }
  }

  lemma {:induction false} PairIsWritten(m: Member)
    requires ExactMember(m)
    ensures ProperPair(PairOf(m)) && PrintPair(PairOf(m)) == WriteMember(m)
    decreases m, 2
  {
    hide Exactly, Proper, Print, Write, TextOf, SpellAll, Escape, GlyphsOf, AllAllowed;
    TextIsWritten(m.value);
    GlyphsAreEscape(m.key);
  }

  /** What the writer writes may be given any blanks around its tokens: it still reads back as the
      document. */
  lemma {:induction false} BlanksDoNotMatter(before: string, t: Text, after: string, d: Doc)
    requires IsGap(before) && IsGap(after) && Proper(t) && Exactly(d) && Strip(t) == TextOf(d)
    ensures Parse(before + Print(t) + after) == Parse(Write(d)) == Some(ValueOf(d))
  {
    hide *;
    TextsAreRead(before, t, after);
    StripMeans(t);
    TextIsWritten(d);
    assert IsGap("") by { NoGap(); }
    TextsAreRead("", TextOf(d), "");
    assert "" + Print(TextOf(d)) + "" == Write(d);
    JsonRoundTrips(d);
  }

  lemma NoGap()
    ensures IsGap("") && IsGap(" ")
  {
  }

  /** The cancel message as the protocol's description spells it. */
  lemma {:induction false} CancelIsRead()
    ensures Parse("{ \"type\": \"cancel\" }") == Some(VObj(map["type" := VStr("cancel")]))
  {
    hide *;
    var key, word := PlainAll("type"), PlainAll("cancel");
    CancelSpelled(key, word);
    var t := OneField(key, word);
    NoGap();
    TextsAreRead("", t, "");
    assert "" + ("{ " + "\"type\"" + ": " + "\"cancel\"" + " }") + "" == "{ \"type\": \"cancel\" }";
  }

  /** An object of one string. */
  lemma {:induction false} OneField(key: seq<Glyph>, word: seq<Glyph>) returns (t: Text)
    requires AllAllowed(key) && AllAllowed(word)
    ensures Proper(t) && Meaning(t) == VObj(map[SoundAll(key) := VStr(SoundAll(word))])
    ensures Print(t) == "{ " + Quoted(key) + ": " + Quoted(word) + " }"
  {
    hide SoundAll, Quoted, AllAllowed, Fields;
    var placed := Placed(" ", TStr(word), " ");
    var pair := Pair(" ", key, "", placed);
    t := TObj("", [pair]);
    assert IsGap(pair.before) && IsGap(pair.after) && AllAllowed(pair.key) && ProperPlaced(pair.placed);
    assert ProperPair(pair);
    assert Meaning(placed.value) == VStr(SoundAll(word));
    assert PairMeaning(pair) == PlacedMeaning(placed);
    OneMeans(pair, SoundAll(key), VStr(SoundAll(word)));
    OnePrints(pair, Quoted(key), Quoted(word));
  }

  lemma {:induction false} OneMeans(pair: Pair, key: string, v: Value)
    requires ProperPair(pair) && AllAllowed(pair.key) && SoundAll(pair.key) == key && PairMeaning(pair) == v
    ensures Fields([pair], map[]) == map[key := v]
  {
    hide SoundAll, AllAllowed, PairMeaning, Fields, ProperPair;
    FieldsUnfold([pair], map[]);
    NoFields(map[][key := v]);
    assert [pair][1..] == [];
  }

  lemma {:induction false} OnePrints(pair: Pair, key: string, word: string)
    requires pair.before == " " && Quoted(pair.key) == key && pair.after == "" && pair.placed.before == " " && pair.placed.after == " "
    requires Print(pair.placed.value) == word
    ensures "{" + PrintPairs([pair]) + "}" == "{ " + key + ": " + word + " }"
  {
    hide Quoted, Print;
    assert PrintPlaced(pair.placed) == " " + word + " ";
    assert PrintPair(pair) == " " + key + "" + ":" + (" " + word + " ");
  }

  lemma CancelSpelled(key: seq<Glyph>, word: seq<Glyph>)
    requires key == PlainAll("type") && word == PlainAll("cancel")
    ensures AllAllowed(key) && AllAllowed(word) && Quoted(key) == "\"type\"" && Quoted(word) == "\"cancel\""
    ensures SoundAll(key) == "type" && SoundAll(word) == "cancel"
  {
    PlainGlyphs("type");
    PlainGlyphs("cancel");
    hide SpellAll, SoundAll, PlainAll;
  }

  function PlainAll(s: string): seq<Glyph> {
    seq(|s|, i requires 0 <= i < |s| => Plain(s[i]))
  }

  lemma {:induction false} PlainGlyphs(s: string)
    requires forall i :: 0 <= i < |s| ==> s[i] != '"' && s[i] != '\\'
    ensures AllAllowed(PlainAll(s)) && SpellAll(PlainAll(s)) == s && SoundAll(PlainAll(s)) == s
  {
    if s != "" {
      PlainGlyphs(s[1..]);
      assert PlainAll(s)[1..] == PlainAll(s[1..]);
      assert PlainAll(s)[0] == Plain(s[0]);
    }
  }
}
