// What the parser accepts, exactly: the texts of JsonTexts, and after the first value anything
// (harness/json.hpp:122-273).

module JsonGrammar {
  import opened Json
  import opened JsonTexts
  import opened Options

  /** A number goes on for as long as it can. */
  predicate Separate(t: Text, after: string) {
    t.TNum? && after != "" ==> after[0] !in NUMERIC
  }

  /** The source is a text of that meaning, blanks before it, and anything after it. */
  ghost predicate Says(s: string, before: string, t: Text, after: string, v: Value) {
    s == before + Print(t) + after && IsGap(before) && Separate(t, after) && Proper(t) && Meaning(t) == v
  }

  // ---- the pieces ------------------------------------------------------------------------------------------

  lemma GapOf(c: char)
    ensures IsWs(c) <==> c in {' ', '\t', '\n', '\r'}
  {
  }

  lemma {:induction false} GapMade(s: string, i: nat)
    requires i <= |s|
    ensures IsGap(s[i..SkipWs(s, i)])
    decreases |s| - i
  {
    if i < |s| && IsWs(s[i]) {
      GapMade(s, i + 1);
      GapOf(s[i]);
      assert s[i..SkipWs(s, i)] == [s[i]] + s[i + 1..SkipWs(s, i + 1)];
    }
    hide IsWs;
  }

  lemma {:induction false} RunMade(s: string, i: nat)
    requires i <= |s| && i < NumEnd(s, i)
    ensures IsRun(s[i..NumEnd(s, i)])
    ensures NumEnd(s, i) < |s| ==> s[NumEnd(s, i)] !in NUMERIC
  {
    RunBytes(s, i);
    hide NUMERIC;
  }

  lemma {:induction false} RunBytes(s: string, i: nat)
    requires i <= |s|
    ensures forall k :: i <= k < NumEnd(s, i) ==> s[k] in NUMERIC
    ensures NumEnd(s, i) < |s| ==> s[NumEnd(s, i)] !in NUMERIC
    decreases |s| - i
  {
    hide NUMERIC, IsNumChar;
    if i < |s| {
      NumericAre(s[i]);
      if IsNumChar(s[i]) { RunBytes(s, i + 1); }
    }
  }

  lemma HexMade(c: char)
    ensures HexDigit(c) >= 0 ==> IsHex(c)
  {
    if HexDigit(c) >= 0 { assert LOWER[HexDigit(c)] == c || UPPER[HexDigit(c)] == c; }
  }

  /** One character of a string. */
  lemma {:induction false} GlyphMade(s: string, i: nat, out: string) returns (g: Glyph)
    requires i < |s| && s[i] != '"' && ParseChars(s, i, out).Some?
    ensures Allowed(g) && i + |Spell(g)| <= |s| && s[i..i + |Spell(g)|] == Spell(g)
    ensures ParseChars(s, i, out) == ParseChars(s, i + |Spell(g)|, out + Sound(g))
  {
    hide Utf8, HexDigit, IsHex, HexOf, CodePoint;
    if s[i] != '\\' {
      g := Plain(s[i]);
    } else if s[i + 1] == 'u' {
      g := CodedMade(s, i);
    } else {
      g := Short(s[i + 1]);
    }
    assert Allowed(g);
    assert s[i..i + |Spell(g)|] == Spell(g);
    FollowsHere(s, i, Spell(g));
    GlyphReads(s, i, g, out);
  }

  lemma FollowsHere(s: string, i: nat, w: string)
    requires i + |w| <= |s| && s[i..i + |w|] == w
    ensures Follows(s, i, w)
  {
  }

  lemma {:induction false} CodedMade(s: string, i: nat) returns (g: Glyph)
    requires i + 1 < |s| && s[i] == '\\' && s[i + 1] == 'u' && CodePoint(s, i + 2).Some?
    ensures g.Coded? && Allowed(g) && i + 6 <= |s| && s[i..i + 6] == Spell(g)
  {
    hide HexDigit, IsHex;
    g := Coded(s[i + 2], s[i + 3], s[i + 4], s[i + 5]);
    HexMade(s[i + 2]);
    HexMade(s[i + 3]);
    HexMade(s[i + 4]);
    HexMade(s[i + 5]);
  }

  lemma {:induction false} GlyphsMade(s: string, i: nat, out: string) returns (gs: seq<Glyph>)
    requires i <= |s| && ParseChars(s, i, out).Some?
    ensures AllAllowed(gs)
    ensures var (str, j) := ParseChars(s, i, out).value; str == out + SoundAll(gs) && s[i..j] == SpellAll(gs) + "\""
    decreases |s| - i
  {
    hide Sound, Spell, Allowed;
    if s[i] == '"' {
      gs := [];
      assert out + "" == out && "" + "\"" == "\"";
    } else {
      var g := GlyphMade(s, i, out);
      SpelledIs(g);
      var rest := GlyphsMade(s, i + |Spell(g)|, out + Sound(g));
      gs := [g] + rest;
      var (str, j) := ParseChars(s, i, out).value;
      assert gs[1..] == rest;
      assert s[i..j] == s[i..i + |Spell(g)|] + s[i + |Spell(g)|..j];
      assert out + Sound(g) + SoundAll(rest) == out + (Sound(g) + SoundAll(rest));
      assert Spell(g) + (SpellAll(rest) + "\"") == Spell(g) + SpellAll(rest) + "\"";
    }
  }

  lemma SpelledIs(g: Glyph)
    ensures |Spell(g)| > 0
  {
  }

  lemma {:induction false} QuotedMade(s: string, i: nat) returns (gs: seq<Glyph>)
    requires i <= |s| && ParseString(s, i).Some?
    ensures AllAllowed(gs)
    ensures var (str, j) := ParseString(s, i).value; str == SoundAll(gs) && s[i..j] == Quoted(gs)
  {
    hide ParseChars, SpellAll, SoundAll, AllAllowed;
    gs := GlyphsMade(s, i + 1, "");
    var (str, j) := ParseString(s, i).value;
    assert s[i..j] == ['"'] + s[i + 1..j];
    assert "" + SoundAll(gs) == SoundAll(gs);
    assert ['"'] + (SpellAll(gs) + "\"") == "\"" + SpellAll(gs) + "\"";
  }

  // ---- values --------------------------------------------------------------------------------------------------

  lemma {:induction false} LeafMade(s: string, i: nat) returns (t: Text)
    requires i < |s| && SkipWs(s, i) == i && s[i] != '[' && s[i] != '{' && ParseValue(s, i).Some?
    ensures Proper(t)
    ensures var (v, j) := ParseValue(s, i).value; Meaning(t) == v && s[i..j] == Print(t) && Separate(t, s[j..])
  {
    hide SkipWs, NUMERIC, NumEnd, NumOf, NumberOf, IsRun, ParseString, Quoted, SoundAll, AllAllowed;
    if s[i] == '"' {
      var gs := QuotedMade(s, i);
      t := TStr(gs);
    } else if s[i] == 't' || s[i] == 'f' {
      t := TBool(Follows(s, i, "true"));
    } else if s[i] == 'n' {
      t := TNull;
    } else {
      var k := NumEnd(s, i);
      RunMade(s, i);
      t := TNum(s[i..k]);
      RunReads(s[i..k]);
    }
  }

  /** A value that is read is a text, after blanks. */
  lemma {:induction false} ValueMade(s: string, i: nat) returns (gap: string, t: Text)
    requires i <= |s| && ParseValue(s, i).Some?
    ensures IsGap(gap) && Proper(t) && SkipWs(s, i) == i + |gap|
    ensures var (v, j) := ParseValue(s, i).value; Meaning(t) == v && s[i..j] == gap + Print(t) && Separate(t, s[j..])
    decreases |s| - i, 2
  {
    hide ParseValue, SkipWs, IsGap, Proper, Meaning, Print;
    var k := SkipWs(s, i);
    gap := s[i..k];
    GapMade(s, i);
    SkipTwice(s, i);
    SkipValue(s, i, k);
    NoValue(s, i);
    if s[k] == '[' { t := ArrayMade(s, k); }
    else if s[k] == '{' { t := ObjectMade(s, k); }
    else { t := LeafMade(s, k); }
    var (v, j) := ParseValue(s, i).value;
    assert s[i..j] == s[i..k] + s[k..j];
  }

  lemma NoValue(s: string, i: nat)
    requires i <= |s| && ParseValue(s, i).Some?
    ensures SkipWs(s, i) < |s| && SkipWs(s, i) < ParseValue(s, i).value.1
  {
    hide SkipWs, ParseItems, ParseFields, ParseString, NumEnd, NumOf, Follows;
    SkipTwice(s, i);
    SkipValue(s, i, SkipWs(s, i));
  }

  /** A value, and the blanks on both sides of it. */
  lemma {:induction false} PlacedMade(s: string, i: nat) returns (p: Placed)
    requires i <= |s| && ParseValue(s, i).Some?
    ensures ProperPlaced(p)
    ensures var (v, j) := ParseValue(s, i).value; PlacedMeaning(p) == v && s[i..SkipWs(s, j)] == PrintPlaced(p)
    decreases |s| - i, 3
  {
    hide ParseValue, SkipWs, IsGap, Proper, Meaning, Print;
    var gap, t := ValueMade(s, i);
    var j := ParseValue(s, i).value.1;
    GapMade(s, j);
    p := Placed(gap, t, s[j..SkipWs(s, j)]);
    assert s[i..SkipWs(s, j)] == s[i..j] + s[j..SkipWs(s, j)];
  }

  lemma {:induction false} ArrayMade(s: string, i: nat) returns (t: Text)
    requires i < |s| && SkipWs(s, i) == i && s[i] == '[' && ParseValue(s, i).Some?
    ensures Proper(t) && !t.TNum?
    ensures var (v, j) := ParseValue(s, i).value; Meaning(t) == v && s[i..j] == Print(t)
    decreases |s| - i, 1
  {
    hide ParseValue, ParseItems, SkipWs, IsGap, ProperPlaced, PrintItems, Meanings;
    Opens(s, i);
    NothingMeant();
    var k := SkipWs(s, i + 1);
    var j := ParseValue(s, i).value.1;
    if k < |s| && s[k] == ']' {
      GapMade(s, i + 1);
      t := TArr(s[i + 1..k], []);
      assert s[i..j] == [s[i]] + s[i + 1..k] + [s[k]];
    } else {
      SkipItems(s, i + 1, k, []);
      var items := ItemsMade(s, i + 1, []);
      NoGap();
      t := TArr("", items);
      assert [] + Meanings(items) == Meanings(items);
      assert s[i..j] == [s[i]] + s[i + 1..j];
      assert ['['] + (PrintItems(items) + "]") == "[" + PrintItems(items) + "]";
    }
  }

  lemma {:induction false} ItemsMade(s: string, i: nat, acc: seq<Value>) returns (items: seq<Placed>)
    requires i <= |s| && ParseItems(s, i, acc).Some?
    ensures items != [] && forall k :: 0 <= k < |items| ==> ProperPlaced(items[k])
    ensures var (v, j) := ParseItems(s, i, acc).value; v == VArr(acc + Meanings(items)) && s[i..j] == PrintItems(items) + "]"
    decreases |s| - i, 4
  {
    hide ParseValue, ParseItems, SkipWs, ProperPlaced, PrintPlaced, PlacedMeaning, Meanings;
    ItemsGo(s, i, acc);
    var p := PlacedMade(s, i);
    var (v, e) := ParseValue(s, i).value;
    var k := SkipWs(s, e);
    var j := ParseItems(s, i, acc).value.1;
    if s[k] == ']' {
      items := [p];
      ItemsUnfold(items);
      assert s[i..j] == s[i..k] + [s[k]];
    } else {
      var rest := ItemsMade(s, k + 1, acc + [v]);
      items := [p] + rest;
      ItemsUnfold(items);
      assert items[1..] == rest;
      assert acc + [v] + Meanings(rest) == acc + ([v] + Meanings(rest));
      assert s[i..j] == s[i..k] + [s[k]] + s[k + 1..j];
      assert PrintPlaced(p) + [','] + (PrintItems(rest) + "]") == PrintPlaced(p) + "," + PrintItems(rest) + "]";
    }
  }

  lemma ItemsGo(s: string, i: nat, acc: seq<Value>)
    requires i <= |s| && ParseItems(s, i, acc).Some?
    ensures ParseValue(s, i).Some?
    ensures var (v, e) := ParseValue(s, i).value;
            var k := SkipWs(s, e);
            && k < |s| && (s[k] == ',' || s[k] == ']')
            && ParseItems(s, i, acc) == if s[k] == ',' then ParseItems(s, k + 1, acc + [v]) else Some((VArr(acc + [v]), k + 1))
  {
    hide ParseValue, SkipWs;
  }

  lemma {:induction false} ObjectMade(s: string, i: nat) returns (t: Text)
    requires i < |s| && SkipWs(s, i) == i && s[i] == '{' && ParseValue(s, i).Some?
    ensures Proper(t) && !t.TNum?
    ensures var (v, j) := ParseValue(s, i).value; Meaning(t) == v && s[i..j] == Print(t)
    decreases |s| - i, 1
  {
    hide ParseValue, ParseFields, SkipWs, IsGap, ProperPair, PrintPairs, Fields;
    Opens(s, i);
    NothingMeant();
    var k := SkipWs(s, i + 1);
    var j := ParseValue(s, i).value.1;
    if k < |s| && s[k] == '}' {
      GapMade(s, i + 1);
      t := TObj(s[i + 1..k], []);
      assert s[i..j] == [s[i]] + s[i + 1..k] + [s[k]];
    } else {
      SkipFields(s, i + 1, k, map[]);
      var pairs := PairsMade(s, i + 1, map[]);
      NoGap();
      t := TObj("", pairs);
      assert s[i..j] == [s[i]] + s[i + 1..j];
      assert ['{'] + (PrintPairs(pairs) + "}") == "{" + PrintPairs(pairs) + "}";
    }
  }

  lemma {:induction false} PairMade(s: string, i: nat) returns (p: Pair)
    requires i <= |s| && ParseMember(s, i).Some?
    ensures ProperPair(p) && AllAllowed(p.key)
    ensures var r := ParseMember(s, i).value; r.0 == (SoundAll(p.key), PairMeaning(p)) && s[i..SkipWs(s, r.1)] == PrintPair(p)
    decreases |s| - i, 4
  {
    hide ParseMember, ParseValue, ParseString, SkipWs, IsGap, ProperPlaced, Quoted, PrintPlaced, PlacedMeaning, SoundAll, AllAllowed;
    MemberGoes(s, i);
    var a := SkipWs(s, i);
    GapMade(s, i);
    var key := QuotedMade(s, a);
    var b := ParseString(s, a).value.1;
    GapMade(s, b);
    var c := SkipWs(s, b);
    var placed := PlacedMade(s, c + 1);
    p := Pair(s[i..a], key, s[b..c], placed);
    var e := SkipWs(s, ParseMember(s, i).value.1);
    Pieces(s, i, a, b, c, e);
  }

  lemma Pieces(s: string, i: nat, a: nat, b: nat, c: nat, e: nat)
    requires i <= a <= b <= c < e <= |s| && s[c] == ':'
    ensures s[i..e] == s[i..a] + s[a..b] + s[b..c] + ":" + s[c + 1..e]
  {
    assert s[i..c] == s[i..a] + s[a..b] + s[b..c];
    assert [s[c]] == ":";
    assert s[i..e] == s[i..c] + [s[c]] + s[c + 1..e];
  }

  lemma MemberGoes(s: string, i: nat)
    requires i <= |s| && ParseMember(s, i).Some?
    ensures ParseString(s, SkipWs(s, i)).Some?
    ensures var (key, b) := ParseString(s, SkipWs(s, i)).value;
            var c := SkipWs(s, b);
            && c < |s| && s[c] == ':' && ParseValue(s, c + 1).Some?
            && ParseMember(s, i).value == ((key, ParseValue(s, c + 1).value.0), ParseValue(s, c + 1).value.1)
  {
    hide ParseString, SkipWs, ParseValue;
  }

  lemma {:induction false} PairsMade(s: string, i: nat, got: map<string, Value>) returns (pairs: seq<Pair>)
    requires i <= |s| && ParseFields(s, i, got).Some?
    ensures pairs != [] && forall k :: 0 <= k < |pairs| ==> ProperPair(pairs[k])
    ensures var (v, j) := ParseFields(s, i, got).value; v == VObj(Fields(pairs, got)) && s[i..j] == PrintPairs(pairs) + "}"
    decreases |s| - i, 5
  {
    hide ParseMember, ParseFields, SkipWs, ProperPair, PrintPair, PairMeaning, Fields, SoundAll, AllAllowed, Emplace;
    FieldsGo(s, i, got);
    var p := PairMade(s, i);
    var r := ParseMember(s, i).value;
    var k := SkipWs(s, r.1);
    var next := Emplace(got, r.0.0, r.0.1);
    var j := ParseFields(s, i, got).value.1;
    if s[k] == '}' {
      pairs := [p];
      FieldsUnfold(pairs, got);
      NoFields(next);
      assert pairs[1..] == [];
      assert s[i..j] == s[i..k] + [s[k]];
    } else {
      var rest := PairsMade(s, k + 1, next);
      pairs := [p] + rest;
      FieldsUnfold(pairs, got);
      assert pairs[1..] == rest;
      assert s[i..j] == s[i..k] + [s[k]] + s[k + 1..j];
      assert PrintPair(p) + [','] + (PrintPairs(rest) + "}") == PrintPair(p) + "," + PrintPairs(rest) + "}";
    }
  }

  lemma FieldsGo(s: string, i: nat, got: map<string, Value>)
    requires i <= |s| && ParseFields(s, i, got).Some?
    ensures ParseMember(s, i).Some?
    ensures var r := ParseMember(s, i).value;
            var k, next := SkipWs(s, r.1), Emplace(got, r.0.0, r.0.1);
            && k < |s| && (s[k] == ',' || s[k] == '}')
            && ParseFields(s, i, got) == if s[k] == ',' then ParseFields(s, k + 1, next) else Some((VObj(next), k + 1))
  {
    FieldsAfter(s, i, got);
    hide ParseMember, SkipWs, Emplace, ParseFields;
  }

  // ---- the theorem ---------------------------------------------------------------------------------------------------

  lemma {:induction false} TextIsRead(s: string, before: string, t: Text, after: string, v: Value)
    requires Says(s, before, t, after, v)
    ensures Parse(s) == Some(v)
  {
    hide Print, ParseValue, Meaning, Proper, IsGap, IsToken, NUMERIC;
    var a, e := |before|, |before| + |Print(t)|;
    assert s[0..a] == before && s[a..e] == Print(t) && s[e..|s|] == after;
    PrintLeads(t);
    assert s[a] == Print(t)[0];
    GapSkips(s, 0, before);
    if t.TNum? && after != "" { NumericAre(after[0]); assert s[e] == after[0]; }
    TextReads(s, a, t);
    SkipValue(s, 0, a);
  }

  /** The parser gives a value exactly if the source, after blanks, begins with a text that means it: any other
      source is refused. */
  lemma {:induction false} ParsesExactly(s: string, v: Value)
    ensures Parse(s) == Some(v) <==> exists before, t, after :: Says(s, before, t, after, v)
  {
    hide ParseValue, Says, Proper, Meaning;
    forall before, t, after | Says(s, before, t, after, v) ensures Parse(s) == Some(v) { TextIsRead(s, before, t, after, v); }
    if Parse(s) == Some(v) {
      var gap, t := ValueMade(s, 0);
      var j := ParseValue(s, 0).value.1;
      SaysSo(s, gap, t, j, v);
    }
  }

  lemma SaysSo(s: string, gap: string, t: Text, j: nat, v: Value)
    requires j <= |s| && s[0..j] == gap + Print(t) && IsGap(gap) && Proper(t) && Meaning(t) == v && Separate(t, s[j..])
    ensures Says(s, gap, t, s[j..], v)
  {
    hide Print, Meaning, Proper, IsGap, Separate;
    assert s == s[0..j] + s[j..];
  }
}
