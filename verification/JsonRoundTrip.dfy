// Whatever the writer builds the parser reads back, and a message is always one line
// (harness/json.hpp:23-81, 122-263).

module JsonRoundTrip {
  import opened Json
  import opened Options
  import opened Decimals

  // ---- the value a document stands for -----------------------------------------------------------

  function ValueOf(d: Doc): Value
    decreases d, 1
  {
    match d
    case DBool(b) => VBool(b)
    case DNum(n) => VNum(Exact(n))
    case DStr(s) => VStr(s)
    case DArr(items) => VArr(ValuesOf(items))
    case DObj(fields) => VObj(Gather(fields, map[]))
  }

  function ValuesOf(items: seq<Doc>): seq<Value>
    decreases items, 0
  {
    if items == [] then [] else [ValueOf(items[0])] + ValuesOf(items[1..])
  }

  /** The fields in order, the first of a repeated key being kept. */
  function Gather(fields: seq<Member>, got: map<string, Value>): map<string, Value>
    decreases fields, 0
  {
    if fields == [] then got
    else Gather(fields[1..], Emplace(got, fields[0].key, MemberValue(fields[0])))
  }

  function MemberValue(m: Member): Value
    decreases m, 2
  {
    ValueOf(m.value)
  }

  /** All integers are ones a double holds exactly. */
  ghost predicate Exactly(d: Doc)
    decreases d, 1
  {
    match d
    case DNum(n) => -MAX_EXACT <= n <= MAX_EXACT
    case DArr(items) => forall i :: 0 <= i < |items| ==> Exactly(items[i])
    case DObj(fields) => forall i :: 0 <= i < |fields| ==> ExactMember(fields[i])
    case _ => true
  }

  ghost predicate ExactMember(m: Member)
    decreases m, 2
  {
    Exactly(m.value)
  }

  // ---- places in a text ------------------------------------------------------------------------------

  lemma FollowsSplit(s: string, i: nat, v: string, w: string)
    requires i <= |s| && Follows(s, i, v + w)
    ensures Follows(s, i, v) && i + |v| <= |s| && Follows(s, i + |v|, w)
  {
    assert s[i..i + |v|] == s[i..i + |v| + |w|][..|v|];
    assert s[i + |v|..i + |v| + |w|] == s[i..i + |v| + |w|][|v|..];
  }

  lemma FollowsAt(s: string, i: nat, w: string, k: nat)
    requires i <= |s| && Follows(s, i, w) && k < |w|
    ensures i + k < |s| && s[i + k] == w[k]
  {
    assert s[i..i + |w|][k] == s[i + k];
  }

  // ---- strings -----------------------------------------------------------------------------------------

  /** One escaped character is read as that character. */
  lemma CharReads(s: string, i: nat, c: char, out: string)
    requires i <= |s| && Follows(s, i, EscapeChar(c))
    ensures i + |EscapeChar(c)| <= |s| && ParseChars(s, i, out) == ParseChars(s, i + |EscapeChar(c)|, out + [c])
  {
    hide Utf8;
    var w := EscapeChar(c);
    FollowsAt(s, i, w, 0);
    if |w| > 1 { FollowsAt(s, i, w, 1); }
    if |w| == 6 { UnicodeReads(s, i, c); }
  }

  lemma ControlCode(c: char)
    requires c < ' '
    ensures var k := c as int; 0 <= k < 32 && HexDigit(HEX[k / 16]) == k / 16 && HexDigit(HEX[k % 16]) == k % 16
    ensures (c as int / 16) * 16 + c as int % 16 == c as int
  {
    var k := c as int;
    HexReads(k / 16);
    HexReads(k % 16);
  }

  lemma HexReads(k: nat)
    requires k < 16
    ensures HexDigit(HEX[k]) == k
  {
  }

  lemma UnicodeReads(s: string, i: nat, c: char)
    requires i <= |s| && Follows(s, i, EscapeChar(c)) && |EscapeChar(c)| == 6
    ensures i + 6 <= |s| && CodePoint(s, i + 2) == Some(c as int) && Utf8(c as int) == [c]
  {
    hide HexDigit;
    var w := EscapeChar(c);
    assert w == "\\u00" + [HEX[c as int / 16], HEX[c as int % 16]] && c < ' ';
    FollowsAt(s, i, w, 2);
    FollowsAt(s, i, w, 3);
    FollowsAt(s, i, w, 4);
    FollowsAt(s, i, w, 5);
    ControlCode(c);
    HexReads(0);
  }

  lemma {:induction false} EscapeReads(s: string, i: nat, t: string, out: string)
    requires i <= |s| && Follows(s, i, Escape(t) + "\"")
    ensures ParseChars(s, i, out) == Some((out + t, i + |Escape(t)| + 1))
    decreases |t|
  {
    hide *;
    FollowsSplit(s, i, Escape(t), "\"");
    if t == "" {
      NothingEscaped();
      FollowsAt(s, i, "\"", 0);
      CharsEnd(s, i, out);
      assert out + t == out;
    } else {
      var w, rest := EscapeChar(t[0]), Escape(t[1..]);
      EscapeUnfolds(t);
      assert Escape(t) + "\"" == w + (rest + "\"");
      FollowsSplit(s, i, w, rest + "\"");
      CharReads(s, i, t[0], out);
      EscapeReads(s, i + |w|, t[1..], out + [t[0]]);
      assert out + [t[0]] + t[1..] == out + t;
    }
  }

  lemma NothingEscaped()
    ensures Escape("") == ""
  {
  }

  lemma EscapeUnfolds(t: string)
    requires t != ""
    ensures Escape(t) == EscapeChar(t[0]) + Escape(t[1..])
  {
    hide EscapeChar;
  }

  lemma CharsEnd(s: string, i: nat, out: string)
    requires i < |s| && s[i] == '"'
    ensures ParseChars(s, i, out) == Some((out, i + 1))
  {
  }

  /** Every byte string survives escaping and reading. */
  lemma {:induction false} QuoteReads(s: string, i: nat, t: string)
    requires i <= |s| && Follows(s, i, Quote(t))
    ensures ParseString(s, i) == Some((t, i + |Quote(t)|))
  {
    hide Escape, ParseChars;
    assert Quote(t) == "\"" + (Escape(t) + "\"");
    FollowsSplit(s, i, "\"", Escape(t) + "\"");
    FollowsAt(s, i, Quote(t), 0);
    EscapeReads(s, i + 1, t, "");
    assert "" + t == t;
  }

  // ---- numbers -------------------------------------------------------------------------------------------

  lemma DigitIsDigit(k: nat)
    requires k < 10
    ensures '0' <= HEX[k] <= '9' && (HEX[k] - '0') as int == k
  {
  }

  lemma {:induction false} DecimalReads(n: nat)
    ensures Decimal(n) != "" && AllDigits(Decimal(n)) && Magnitude(Decimal(n)) == n
  {
    DigitIsDigit(n % 10);
    if n < 10 {
      assert Decimal(n)[..0] == "";
      assert Magnitude(Decimal(n)) == 10 * Magnitude("") + n;
    } else {
      DecimalReads(n / 10);
      assert Decimal(n)[..|Decimal(n)| - 1] == Decimal(n / 10);
    }
  }

  lemma {:induction false} NumberReads(n: int)
    requires -MAX_EXACT <= n <= MAX_EXACT
    ensures NumOf(Number(n)) == Exact(n) && Number(n) != ""
    ensures forall k :: 0 <= k < |Number(n)| ==> IsNumChar(Number(n)[k])
    ensures Number(n)[0] == '-' || '0' <= Number(n)[0] <= '9'
  {
    hide Magnitude, Decimal;
    DecimalReads(if n < 0 then -n else n);
    if n < 0 { assert Number(n)[1..] == Decimal(-n); }
  }

  lemma {:induction false} NumEndReads(s: string, i: nat, w: string)
    requires i <= |s| && Follows(s, i, w) && (forall k :: 0 <= k < |w| ==> IsNumChar(w[k]))
    requires i + |w| < |s| ==> !IsNumChar(s[i + |w|])
    ensures NumEnd(s, i) == i + |w|
    decreases |w|
  {
    hide IsNumChar;
    if w != "" {
      FollowsAt(s, i, w, 0);
      assert w == [w[0]] + w[1..];
      FollowsSplit(s, i, [w[0]], w[1..]);
      NumEndReads(s, i + 1, w[1..]);
    }
  }

  // ---- values ----------------------------------------------------------------------------------------------

  /** A number written up to `j` ends there. */
  predicate Stops(s: string, j: nat) {
    j < |s| ==> !IsNumChar(s[j])
  }

  predicate IsLead(c: char) {
    c == 't' || c == 'f' || c == '"' || c == '[' || c == '{' || c == '-' || '0' <= c <= '9'
  }

  lemma {:induction false} WriteLeads(d: Doc)
    ensures Write(d) != "" && IsLead(Write(d)[0])
  {
    hide Decimal;
    if d.DNum? { DecimalReads(if d.n < 0 then -d.n else d.n); }
  }

  lemma NoBlank(s: string, i: nat)
    requires i < |s| && (IsLead(s[i]) || s[i] == ',' || s[i] == ']' || s[i] == '}' || s[i] == ':')
    ensures SkipWs(s, i) == i
    ensures s[i] == ',' || s[i] == ']' || s[i] == '}' ==> Stops(s, i)
  {
  }

  lemma {:induction false} LeafReads(s: string, i: nat, d: Doc)
    requires (d.DBool? || d.DNum? || d.DStr?) && Exactly(d)
    requires i <= |s| && Follows(s, i, Write(d)) && Stops(s, i + |Write(d)|)
    ensures ParseValue(s, i) == Some((ValueOf(d), i + |Write(d)|))
  {
    hide ParseString, NumOf, Quote, Number;
    WriteLeads(d);
    FollowsAt(s, i, Write(d), 0);
    NoBlank(s, i);
    match d
    case DBool(b) => BoolReads(s, i, b);
    case DNum(n) =>
      NumberReads(n);
      NumEndReads(s, i, Number(n));
    case DStr(t) =>
      QuoteLeads(t);
      QuoteReads(s, i, t);
  }

  lemma QuoteLeads(t: string)
    ensures Quote(t) != "" && Quote(t)[0] == '"'
  {
  }

  lemma BoolReads(s: string, i: nat, b: bool)
    requires i <= |s| && Follows(s, i, if b then "true" else "false")
    ensures b ==> Follows(s, i, "true")
    ensures !b ==> !Follows(s, i, "true") && Follows(s, i, "false")
  {
    if !b {
      FollowsAt(s, i, "false", 0);
      if Follows(s, i, "true") { FollowsAt(s, i, "true", 0); }
    }
  }

  /** What the writer builds, the parser reads back, whatever comes after it. */
  lemma {:induction false} WriteReads(s: string, i: nat, d: Doc)
    requires Exactly(d)
    requires i <= |s| && Follows(s, i, Write(d)) && Stops(s, i + |Write(d)|)
    ensures ParseValue(s, i) == Some((ValueOf(d), i + |Write(d)|))
    decreases d, 5
  {
    hide ParseValue, Write, Follows, Stops, ValueOf, SkipWs, Exactly;
    match d
    case DArr(items) => ArrayReads(s, i, d);
    case DObj(fields) => ObjectReads(s, i, d);
    case _ =>
      WriteLeads(d);
      FollowsAt(s, i, Write(d), 0);
      NoBlank(s, i);
      LeafReads(s, i, d);
  }

  lemma {:induction false} ArrayReads(s: string, i: nat, d: Doc)
    requires Exactly(d) && d.DArr?
    requires i <= |s| && Follows(s, i, Write(d)) && Stops(s, i + |Write(d)|)
    ensures ParseValue(s, i) == Some((ValueOf(d), i + |Write(d)|))
    decreases d, 4
  {
    hide ParseItems, ParseFields, WriteItems, WriteFields, Gather, ValuesOf, IsLead;
    WriteLeads(d);
    FollowsAt(s, i, Write(d), 0);
    NoBlank(s, i);
    var items := d.items;
    assert Write(d) == "[" + (WriteItems(items) + "]");
    FollowsSplit(s, i, "[", WriteItems(items) + "]");
    if items == [] {
      NothingWritten();
      assert WriteItems(items) + "]" == "]";
      FollowsAt(s, i + 1, "]", 0);
      NoBlank(s, i + 1);
    } else {
      ItemsLead(items);
      FollowsAt(s, i + 1, WriteItems(items) + "]", 0);
      NoBlank(s, i + 1);
      LeadIsNotClose(s[i + 1]);
      ItemsRead(s, i + 1, items, []);
      assert [] + ValuesOf(items) == ValuesOf(items);
    }
  }

  lemma {:induction false} ObjectReads(s: string, i: nat, d: Doc)
    requires Exactly(d) && d.DObj?
    requires i <= |s| && Follows(s, i, Write(d)) && Stops(s, i + |Write(d)|)
    ensures ParseValue(s, i) == Some((ValueOf(d), i + |Write(d)|))
    decreases d, 4
  {
    hide ParseItems, ParseFields, WriteItems, WriteFields, Gather, ValuesOf, IsLead;
    WriteLeads(d);
    FollowsAt(s, i, Write(d), 0);
    NoBlank(s, i);
    var fields := d.fields;
    assert Write(d) == "{" + (WriteFields(fields) + "}");
    FollowsSplit(s, i, "{", WriteFields(fields) + "}");
    if fields == [] {
      NothingWritten();
      assert WriteFields(fields) + "}" == "}";
      FollowsAt(s, i + 1, "}", 0);
      NoBlank(s, i + 1);
    } else {
      FieldsLead(fields);
      FollowsAt(s, i + 1, WriteFields(fields) + "}", 0);
      QuoteIsLead(s, i + 1);
      FieldsRead(s, i + 1, fields, map[]);
    }
  }

  lemma QuoteIsLead(s: string, i: nat)
    requires i < |s| && s[i] == '"'
    ensures SkipWs(s, i) == i && IsLead(s[i])
  {
  }

  lemma NothingWritten()
    ensures WriteItems([]) == "" && WriteFields([]) == "" && ValuesOf([]) == [] && Gather([], map[]) == map[]
  {
  }

  lemma LeadIsNotClose(c: char)
    requires IsLead(c)
    ensures c != ']' && c != '}'
  {
  }

  lemma ItemsLead(items: seq<Doc>)
    requires items != []
    ensures WriteItems(items) != "" && IsLead(WriteItems(items)[0])
  {
    hide Write, IsLead;
    WriteLeads(items[0]);
  }

  lemma FieldsLead(fields: seq<Member>)
    requires fields != []
    ensures WriteFields(fields) != "" && WriteFields(fields)[0] == '"'
  {
    hide Write, Escape;
  }

  /** An element followed by a comma and the others. */
  lemma {:induction false} CommaSplits(s: string, i: nat, w: string, rest: string)
    requires i <= |s| && Follows(s, i, w + "," + rest)
    ensures Follows(s, i, w) && i + |w| + 1 <= |s| && s[i + |w|] == ',' && Follows(s, i + |w| + 1, rest)
    ensures SkipWs(s, i + |w|) == i + |w| && Stops(s, i + |w|)
  {
    assert w + "," + rest == w + ("," + rest);
    FollowsSplit(s, i, w, "," + rest);
    FollowsSplit(s, i + |w|, ",", rest);
    FollowsAt(s, i + |w|, ",", 0);
    NoBlank(s, i + |w|);
  }

  /** The last element followed by the closing bracket. */
  lemma {:induction false} CloseSplits(s: string, i: nat, w: string, close: char)
    requires i <= |s| && Follows(s, i, w + [close]) && (close == ']' || close == '}')
    ensures Follows(s, i, w) && i + |w| < |s| && s[i + |w|] == close
    ensures SkipWs(s, i + |w|) == i + |w| && Stops(s, i + |w|)
  {
    FollowsSplit(s, i, w, [close]);
    FollowsAt(s, i + |w|, [close], 0);
    NoBlank(s, i + |w|);
  }

  lemma {:induction false} ItemsRead(s: string, i: nat, items: seq<Doc>, acc: seq<Value>)
    requires items != [] && (forall k :: 0 <= k < |items| ==> Exactly(items[k]))
    requires i <= |s| && Follows(s, i, WriteItems(items) + "]")
    ensures ParseItems(s, i, acc) == Some((VArr(acc + ValuesOf(items)), i + |WriteItems(items)| + 1))
    decreases items, 4
  {
    hide Write, ParseValue, IsLead, ValueOf, Exactly, Follows, SkipWs, Stops;
    var w := Write(items[0]);
    if |items| == 1 {
      CloseSplits(s, i, w, ']');
      WriteReads(s, i, items[0]);
      assert ValuesOf(items) == [ValueOf(items[0])];
    } else {
      var rest := items[1..];
      assert WriteItems(items) + "]" == w + "," + (WriteItems(rest) + "]");
      CommaSplits(s, i, w, WriteItems(rest) + "]");
      WriteReads(s, i, items[0]);
      ItemsRead(s, i + |w| + 1, rest, acc + [ValueOf(items[0])]);
      assert acc + [ValueOf(items[0])] + ValuesOf(rest) == acc + ValuesOf(items);
    }
  }

  lemma {:induction false} MemberReads(s: string, i: nat, m: Member)
    requires ExactMember(m)
    requires i <= |s| && Follows(s, i, WriteMember(m)) && Stops(s, i + |WriteMember(m)|)
    ensures ParseMember(s, i) == Some(((m.key, MemberValue(m)), i + |WriteMember(m)|))
    decreases m, 6
  {
    hide Write, ParseValue, ParseString, IsLead, Quote, ValueOf, Exactly;
    var q, w := Quote(m.key), Write(m.value);
    assert WriteMember(m) == q + (":" + w);
    FollowsSplit(s, i, q, ":" + w);
    FollowsSplit(s, i + |q|, ":", w);
    FollowsAt(s, i + |q|, ":", 0);
    NoBlank(s, i + |q|);
    QuoteLeads(m.key);
    FollowsAt(s, i, q, 0);
    QuoteIsLead(s, i);
    QuoteReads(s, i, m.key);
    WriteReads(s, i + |q| + 1, m.value);
  }

  lemma {:induction false} FieldsRead(s: string, i: nat, fields: seq<Member>, got: map<string, Value>)
    requires fields != [] && (forall k :: 0 <= k < |fields| ==> ExactMember(fields[k]))
    requires i <= |s| && Follows(s, i, WriteFields(fields) + "}")
    ensures ParseFields(s, i, got) == Some((VObj(Gather(fields, got)), i + |WriteFields(fields)| + 1))
    decreases fields, 4
  {
    hide WriteMember, ParseMember, IsLead, MemberValue, ExactMember, Follows, SkipWs, Stops;
    var w := WriteMember(fields[0]);
    var next := Emplace(got, fields[0].key, MemberValue(fields[0]));
    if |fields| == 1 {
      CloseSplits(s, i, w, '}');
      MemberReads(s, i, fields[0]);
      assert Gather(fields, got) == Gather([], next);
    } else {
      var rest := fields[1..];
      assert WriteFields(fields) + "}" == w + "," + (WriteFields(rest) + "}");
      CommaSplits(s, i, w, WriteFields(rest) + "}");
      MemberReads(s, i, fields[0]);
      FieldsRead(s, i + |w| + 1, rest, next);
    }
  }

  // ---- the theorems -------------------------------------------------------------------------------------------

  /** Parsing a written document gives its value. */
  lemma {:induction false} JsonRoundTrips(d: Doc)
    requires Exactly(d)
    ensures Parse(Write(d)) == Some(ValueOf(d))
  {
    hide Write, ParseValue, ValueOf, Exactly;
    assert Write(d)[0..0 + |Write(d)|] == Write(d);
    WriteReads(Write(d), 0, d);
  }

  /** With distinct keys an object reads back as exactly its fields. */
  lemma {:induction false} DistinctFields(fields: seq<Member>, got: map<string, Value>)
    requires forall i, j :: 0 <= i < j < |fields| ==> fields[i].key != fields[j].key
    requires forall i :: 0 <= i < |fields| ==> fields[i].key !in got
    ensures var r := Gather(fields, got);
            && (forall k :: k in r <==> k in got || exists i :: 0 <= i < |fields| && fields[i].key == k)
            && (forall k :: k in got ==> k in r && r[k] == got[k])
            && (forall i :: 0 <= i < |fields| ==> fields[i].key in r && r[fields[i].key] == MemberValue(fields[i]))
    decreases |fields|
  {
    hide MemberValue;
    if fields != [] {
      var rest, next := fields[1..], Emplace(got, fields[0].key, MemberValue(fields[0]));
      DistinctFields(rest, next);
      var r := Gather(fields, got);
      assert forall i :: 1 <= i < |fields| ==> fields[i] == rest[i - 1];
      forall k ensures k in r <==> k in got || exists i :: 0 <= i < |fields| && fields[i].key == k {
        if k in r && k !in got && k != fields[0].key {
          var i :| 0 <= i < |rest| && rest[i].key == k;
          assert fields[i + 1].key == k;
        }
      }
    }
  }

  /** No byte below a blank is ever written, so a message is one line. */
  predicate Printable(s: string) {
    forall k :: 0 <= k < |s| ==> s[k] >= ' '
  }

  lemma {:induction false} EscapePrintable(t: string)
    ensures Printable(Escape(t))
  {
    hide EscapeChar;
    if t != "" {
      CharPrintable(t[0]);
      EscapePrintable(t[1..]);
    }
  }

  lemma CharPrintable(c: char)
    ensures Printable(EscapeChar(c))
  {
    if c < ' ' {
      HexPrintable(c as int / 16);
      HexPrintable(c as int % 16);
    }
  }

  lemma HexPrintable(k: nat)
    requires k < 16
    ensures HEX[k] >= ' '
  {
  }

  lemma {:induction false} DecimalPrintable(n: nat)
    ensures Printable(Decimal(n))
  {
    DecimalReads(n);
  }

  lemma {:induction false} WritePrintable(d: Doc)
    ensures Printable(Write(d))
    decreases d, 5
  {
    hide Escape, Decimal, WriteItems, WriteFields;
    match d
    case DBool(_) =>
    case DNum(n) => DecimalPrintable(if n < 0 then -n else n);
    case DStr(t) => EscapePrintable(t);
    case DArr(items) => ItemsPrintable(items);
    case DObj(fields) => FieldsPrintable(fields);
  }

  lemma {:induction false} ItemsPrintable(items: seq<Doc>)
    ensures Printable(WriteItems(items))
    decreases items, 4
  {
    hide Write;
    if items != [] {
      WritePrintable(items[0]);
      ItemsPrintable(items[1..]);
    }
  }

  lemma {:induction false} FieldsPrintable(fields: seq<Member>)
    ensures Printable(WriteFields(fields))
    decreases fields, 4
  {
    hide WriteMember;
    if fields != [] {
      MemberPrintable(fields[0]);
      FieldsPrintable(fields[1..]);
    }
  }

  lemma {:induction false} MemberPrintable(m: Member)
    ensures Printable(WriteMember(m))
    decreases m, 6
  {
    hide Escape, Write;
    EscapePrintable(m.key);
    WritePrintable(m.value);
  }
}
