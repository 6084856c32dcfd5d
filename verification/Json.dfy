// The JSON of the wire protocol, harness/json.hpp: a writer and a permissive parser
// (sections 4, 5 and 7 of RFC 8259). Bytes are characters.

module Json {
  import opened Options
  import opened Decimals

  // ---- writer ---------------------------------------------------------------------------------------

  const HEX := "0123456789abcdef"

  function EscapeChar(c: char): string {
    if c == '"' then "\\\""
    else if c == '\\' then "\\\\"
    else if c == '\n' then "\\n"
    else if c == '\r' then "\\r"
    else if c == '\t' then "\\t"
    else if c == 8 as char then "\\b"
    else if c == 12 as char then "\\f"
    else if c < ' ' then "\\u00" + [HEX[c as int / 16], HEX[c as int % 16]]
    else [c]
  }

  function Escape(s: string): string {
    if s == "" then "" else EscapeChar(s[0]) + Escape(s[1..])
  }

  function Quote(s: string): string { "\"" + Escape(s) + "\"" }

  /** std::to_string of a non-negative number. */
  function Decimal(n: nat): string {
    if n < 10 then [HEX[n]] else Decimal(n / 10) + [HEX[n % 10]]
  }

  function Number(n: int): string { if n < 0 then "-" + Decimal(-n) else Decimal(n) }

  /** Already serialised items, comma-separated. */
  function Commas(items: seq<string>): string {
    if items == [] then ""
    else if |items| == 1 then items[0]
    else items[0] + "," + Commas(items[1..])
  }

  function Field(key: string, value: string): string { Quote(key) + ":" + value }

  /** What the harness builds a message from. */
  datatype Doc =
    | DBool(b: bool)
    | DNum(n: int)
    | DStr(s: string)
    | DArr(items: seq<Doc>)
    | DObj(fields: seq<Member>)

  datatype Member = Member(key: string, value: Doc)

  function Write(d: Doc): string
    decreases d, 1
  {
    match d
    case DBool(b) => if b then "true" else "false"
    case DNum(n) => Number(n)
    case DStr(s) => Quote(s)
    case DArr(items) => "[" + WriteItems(items) + "]"
    case DObj(fields) => "{" + WriteFields(fields) + "}"
  }

  function WriteItems(items: seq<Doc>): string
    decreases items, 0
  {
    if items == [] then ""
    else if |items| == 1 then Write(items[0])
    else Write(items[0]) + "," + WriteItems(items[1..])
  }

  function WriteFields(fields: seq<Member>): string
    decreases fields, 0
  {
    if fields == [] then ""
    else if |fields| == 1 then WriteMember(fields[0])
    else WriteMember(fields[0]) + "," + WriteFields(fields[1..])
  }

  function WriteMember(m: Member): string
    decreases m, 2
  {
    Field(m.key, Write(m.value))
  }

  lemma {:induction false} EscapePush(s: string, c: char)
    ensures Escape(s + [c]) == Escape(s) + EscapeChar(c)
  {
    hide EscapeChar;
    if s == "" {
      assert s + [c] == [c];
      assert Escape([c]) == EscapeChar(c) + Escape([c][1..]);
    } else {
      EscapePush(s[1..], c);
      assert (s + [c])[1..] == s[1..] + [c];
    }
  }

  method JsonEscape(s: string) returns (out: string)
    ensures out == Escape(s)
  {
    out := "";
    for i := 0 to |s|
      invariant out == Escape(s[..i])
    {
      EscapePush(s[..i], s[i]);
      assert s[..i] + [s[i]] == s[..i + 1];
      match s[i]
      case '\"' => out := out + "\\\"";
      case '\\' => out := out + "\\\\";
      case '\n' => out := out + "\\n";
      case '\r' => out := out + "\\r";
      case '\t' => out := out + "\\t";
      case _ =>
        if s[i] == 8 as char { out := out + "\\b"; }
        else if s[i] == 12 as char { out := out + "\\f"; }
        else if s[i] < ' ' {
          var code := s[i] as int;
          out := out + "\\u00" + [HEX[code / 16]] + [HEX[code % 16]];
        } else {
          out := out + [s[i]];
        }
    }
    assert s[..|s|] == s;
  }

  lemma {:induction false} CommasPush(items: seq<string>, item: string)
    ensures Commas(items + [item]) == if items == [] then item else Commas(items) + "," + item
  {
    if |items| > 1 {
      CommasPush(items[1..], item);
      assert (items + [item])[1..] == items[1..] + [item];
      assert items[0] + "," + (Commas(items[1..]) + "," + item) == items[0] + "," + Commas(items[1..]) + "," + item;
    } else if |items| == 1 {
      assert (items + [item])[1..] == [item];
    } else {
      assert items + [item] == [item];
    }
  }

  /** jarr: an array of already serialised items. */
  method JArr(items: seq<string>) returns (s: string)
    ensures s == "[" + Commas(items) + "]"
  {
    s := "[";
    for i := 0 to |items|
      invariant s == "[" + Commas(items[..i])
    {
      CommasPush(items[..i], items[i]);
      assert items[..i] + [items[i]] == items[..i + 1];
      if i > 0 { s := s + ","; }
      s := s + items[i];
    }
    assert items[..|items|] == items;
    s := s + "]";
  }

  function FieldTexts(fields: seq<(string, string)>): (r: seq<string>)
    ensures |r| == |fields|
  {
    seq(|fields|, i requires 0 <= i < |fields| => Field(fields[i].0, fields[i].1))
  }

  /** jobj_v: an object of keys and already serialised values. */
  method JObj(fields: seq<(string, string)>) returns (s: string)
    ensures s == "{" + Commas(FieldTexts(fields)) + "}"
  {
    hide Escape;
    s := "{";
    var first := true;
    ghost var texts := FieldTexts(fields);
    for i := 0 to |fields|
      invariant first <==> i == 0
      invariant s == "{" + Commas(texts[..i])
    {
      CommasPush(texts[..i], texts[i]);
      assert texts[..i] + [texts[i]] == texts[..i + 1];
      if !first { s := s + ","; }
      first := false;
      var key := JsonEscape(fields[i].0);
      s := s + ("\"" + key + "\"" + ":" + fields[i].1);
    }
    assert texts[..|texts|] == texts;
    s := s + "}";
  }

  function Texts(items: seq<Doc>): (r: seq<string>)
    ensures |r| == |items|
  {
    seq(|items|, i requires 0 <= i < |items| => Write(items[i]))
  }

  function Pairs(fields: seq<Member>): (r: seq<(string, string)>)
    ensures |r| == |fields|
  {
    seq(|fields|, i requires 0 <= i < |fields| => (fields[i].key, Write(fields[i].value)))
  }

  lemma {:induction false} ItemsAreCommas(items: seq<Doc>)
    ensures WriteItems(items) == Commas(Texts(items))
  {
    hide Write;
    if |items| > 1 {
      ItemsAreCommas(items[1..]);
      assert Texts(items)[1..] == Texts(items[1..]);
    }
  }

  lemma {:induction false} FieldsAreCommas(fields: seq<Member>)
    ensures WriteFields(fields) == Commas(FieldTexts(Pairs(fields)))
  {
    hide Write, Field;
    if |fields| > 1 {
      FieldsAreCommas(fields[1..]);
      assert FieldTexts(Pairs(fields))[1..] == FieldTexts(Pairs(fields[1..]));
    }
  }

  /** A document built as the harness builds its messages, from the inside out, each array by jarr
      and each object by jobj_v over parts that are written already. */
  method Serialise(d: Doc) returns (s: string)
    ensures s == Write(d)
    decreases d
  {
    hide WriteItems, WriteFields, Commas, FieldTexts, Escape;
    match d
    case DBool(b) => return if b then "true" else "false";
    case DNum(n) => return Number(n);
    case DStr(text) =>
      var escaped := JsonEscape(text);
      return "\"" + escaped + "\"";
    case DArr(items) =>
      var texts: seq<string> := [];
      for i := 0 to |items|
        invariant texts == Texts(items)[..i]
      {
        var text := Serialise(items[i]);
        texts := texts + [text];
      }
      assert Texts(items)[..|items|] == Texts(items);
      ItemsAreCommas(items);
      s := JArr(texts);
    case DObj(fields) =>
      var pairs: seq<(string, string)> := [];
      for i := 0 to |fields|
        invariant pairs == Pairs(fields)[..i]
      {
        var text := Serialise(fields[i].value);
        pairs := pairs + [(fields[i].key, text)];
      }
      assert Pairs(fields)[..|fields|] == Pairs(fields);
      FieldsAreCommas(fields);
      s := JObj(pairs);
  }

  // ---- parser: specification ------------------------------------------------------------------------------

  /** A parsed number: exact if it is a decimal integer that a double holds exactly; any other
      run of number characters, whose value is not modelled. */
  datatype Num = Exact(n: int) | Inexact(run: string)

  datatype Value =
    | VNull
    | VBool(b: bool)
    | VNum(num: Num)
    | VStr(s: string)
    | VArr(items: seq<Value>)
    | VObj(fields: map<string, Value>)

  predicate IsWs(c: char) { c == ' ' || c == '\t' || c == '\n' || c == '\r' }

  function SkipWs(s: string, i: nat): (j: nat)
    requires i <= |s|
    ensures i <= j <= |s|
    decreases |s| - i
  {
    if i < |s| && IsWs(s[i]) then SkipWs(s, i + 1) else i
  }

  predicate IsNumChar(c: char) {
    '0' <= c <= '9' || c == '-' || c == '+' || c == '.' || c == 'e' || c == 'E'
  }

  function NumEnd(s: string, i: nat): (j: nat)
    requires i <= |s|
    ensures i <= j <= |s|
    decreases |s| - i
  {
    if i < |s| && IsNumChar(s[i]) then NumEnd(s, i + 1) else i
  }

  const MAX_EXACT := 0x20_0000_0000_0000

  /** What strtod makes of a run of number characters, where it is an exact integer. */
  function NumOf(run: string): Num {
    var neg := run != "" && run[0] == '-';
    var digits := if neg then run[1..] else run;
    if digits != "" && AllDigits(digits) && Magnitude(digits) <= MAX_EXACT
    then Exact(if neg then 0 - Magnitude(digits) else Magnitude(digits))
    else Inexact(run)
  }

  predicate Follows(s: string, i: nat, w: string)
    requires i <= |s|
  {
    i + |w| <= |s| && s[i..i + |w|] == w
  }

  function HexDigit(c: char): int {
    if '0' <= c <= '9' then (c - '0') as int
    else if 'a' <= c <= 'f' then (c - 'a') as int + 10
    else if 'A' <= c <= 'F' then (c - 'A') as int + 10
    else -1
  }

  /** The UTF-8 bytes of a code point of at most four hexadecimal digits. */
  function Utf8(cp: nat): string
    requires cp < 0x1_0000
  {
    if cp < 0x80 then [cp as char]
    else if cp < 0x800 then [(0xc0 + cp / 64) as char, (0x80 + cp % 64) as char]
    else [(0xe0 + cp / 4096) as char, (0x80 + cp / 64 % 64) as char, (0x80 + cp % 64) as char]
  }

  function SimpleEscape(e: char): Option<char> {
    if e == '"' || e == '\\' || e == '/' then Some(e)
    else if e == 'n' then Some('\n')
    else if e == 'r' then Some('\r')
    else if e == 't' then Some('\t')
    else if e == 'b' then Some(8 as char)
    else if e == 'f' then Some(12 as char)
    else None
  }

  /** The code point of the four hexadecimal digits at `i`. */
  function CodePoint(s: string, i: nat): (r: Option<nat>)
    requires i <= |s|
    ensures r.Some? ==> r.value < 0x1_0000 && i + 4 <= |s|
  {
    if i + 4 > |s| then None
    else
      var a, b, c, d := HexDigit(s[i]), HexDigit(s[i + 1]), HexDigit(s[i + 2]), HexDigit(s[i + 3]);
      if a < 0 || b < 0 || c < 0 || d < 0 then None else Some(((a * 16 + b) * 16 + c) * 16 + d)
  }

  /** The rest of a string literal, `out` having been read. */
  function ParseChars(s: string, i: nat, out: string): (r: Option<(string, nat)>)
    requires i <= |s|
    ensures r.Some? ==> i < r.value.1 <= |s|
    decreases |s| - i
  {
    if i == |s| then None
    else if s[i] == '"' then Some((out, i + 1))
    else if s[i] != '\\' then ParseChars(s, i + 1, out + [s[i]])
    else if i + 1 == |s| then None
    else if s[i + 1] == 'u' then
      match CodePoint(s, i + 2)
      case None => None
      case Some(cp) => ParseChars(s, i + 6, out + Utf8(cp))
    else
      match SimpleEscape(s[i + 1])
      case None => None
      case Some(c) => ParseChars(s, i + 2, out + [c])
  }

  function ParseString(s: string, i: nat): (r: Option<(string, nat)>)
    requires i <= |s|
    ensures r.Some? ==> i < r.value.1 <= |s|
  {
    if i == |s| || s[i] != '"' then None else ParseChars(s, i + 1, "")
  }

  function ParseValue(s: string, i: nat): (r: Option<(Value, nat)>)
    requires i <= |s|
    ensures r.Some? ==> i < r.value.1 <= |s|
    decreases |s| - i, 2
  {
    var j := SkipWs(s, i);
    if j == |s| then None
    else if s[j] == '{' then
      var k := SkipWs(s, j + 1);
      if k < |s| && s[k] == '}' then Some((VObj(map[]), k + 1)) else ParseFields(s, k, map[])
    else if s[j] == '[' then
      var k := SkipWs(s, j + 1);
      if k < |s| && s[k] == ']' then Some((VArr([]), k + 1)) else ParseItems(s, k, [])
    else if s[j] == '"' then
      match ParseString(s, j)
      case None => None
      case Some((str, k)) => Some((VStr(str), k))
    else if s[j] == 't' || s[j] == 'f' then
      if Follows(s, j, "true") then Some((VBool(true), j + 4))
      else if Follows(s, j, "false") then Some((VBool(false), j + 5))
      else None
    else if s[j] == 'n' then (if Follows(s, j, "null") then Some((VNull, j + 4)) else None)
    else
      var k := NumEnd(s, j);
      if k == j then None else Some((VNum(NumOf(s[j..k])), k))
  }

  function ParseItems(s: string, i: nat, items: seq<Value>): (r: Option<(Value, nat)>)
    requires i <= |s|
    ensures r.Some? ==> i < r.value.1 <= |s|
    decreases |s| - i, 3
  {
    match ParseValue(s, i)
    case None => None
    case Some((v, j)) =>
      var k := SkipWs(s, j);
      if k == |s| then None
      else if s[k] == ',' then ParseItems(s, k + 1, items + [v])
      else if s[k] == ']' then Some((VArr(items + [v]), k + 1))
      else None
  }

  /** A key that is already there keeps its first value. */
  function Emplace(fields: map<string, Value>, key: string, v: Value): map<string, Value> {
    if key in fields then fields else fields[key := v]
  }

  /** A key, a colon and a value. */
  function ParseMember(s: string, i: nat): (r: Option<((string, Value), nat)>)
    requires i <= |s|
    ensures r.Some? ==> i < r.value.1 <= |s|
    decreases |s| - i, 3
  {
    match ParseString(s, SkipWs(s, i))
    case None => None
    case Some((key, j)) =>
      var c := SkipWs(s, j);
      if c == |s| || s[c] != ':' then None
      else
        match ParseValue(s, c + 1)
        case None => None
        case Some((v, e)) => Some(((key, v), e))
  }

  function ParseFields(s: string, i: nat, fields: map<string, Value>): (r: Option<(Value, nat)>)
    requires i <= |s|
    ensures r.Some? ==> i < r.value.1 <= |s|
    decreases |s| - i, 4
  {
    match ParseMember(s, i)
    case None => None
    case Some(((key, v), e)) =>
      var k := SkipWs(s, e);
      if k == |s| then None
      else if s[k] == ',' then ParseFields(s, k + 1, Emplace(fields, key, v))
      else if s[k] == '}' then Some((VObj(Emplace(fields, key, v)), k + 1))
      else None
  }

  /** json_parse: anything after the first value is tolerated. */
  function Parse(text: string): Option<Value> {
    match ParseValue(text, 0)
    case None => None
    case Some((v, _)) => Some(v)
  }

  // ---- the parser object -------------------------------------------------------------------------------------

  class JsonParser {
    const s: string
    var i: nat

    constructor (s: string)
      ensures this.s == s && i == 0
    {
      this.s, this.i := s, 0;
    }

    method SkipBlanks()
      requires i <= |s|
      modifies this`i
      ensures i == SkipWs(s, old(i))
    {
      while i < |s| && IsWs(s[i])
        invariant i <= |s| && SkipWs(s, i) == SkipWs(s, old(i))
        decreases |s| - i
      {
        i := i + 1;
      }
    }

    /** `r` is what was read, and this parser stands after it; nothing is said after a failure. */
    ghost predicate Did<T>(r: Option<(T, nat)>, ok: bool, out: T)
      reads this
    {
      match r
      case None => !ok
      case Some((v, j)) => ok && out == v && i == j
    }

    method ReadValue() returns (ok: bool, out: Value)
      requires i <= |s|
      modifies this`i
      ensures Did(ParseValue(s, old(i)), ok, out)
      decreases |s| - i, 4
    {
      out := VNull;
      SkipBlanks();
      if i >= |s| { return false, VNull; }
      if s[i] == '{' {
        ok, out := ReadObject();
      } else if s[i] == '[' {
        ok, out := ReadArray();
      } else if s[i] == '"' {
        var str;
        ok, str := ReadString();
        out := VStr(str);
      } else if s[i] == 't' || s[i] == 'f' {
        if i + 4 <= |s| && s[i..i + 4] == "true" { i := i + 4; return true, VBool(true); }
        if i + 5 <= |s| && s[i..i + 5] == "false" { i := i + 5; return true, VBool(false); }
        return false, VNull;
      } else if s[i] == 'n' {
        if i + 4 <= |s| && s[i..i + 4] == "null" { i := i + 4; return true, VNull; }
        return false, VNull;
      } else {
        ok, out := ReadNumber();
      }
    }

    method ReadNumber() returns (ok: bool, out: Value)
      requires i <= |s|
      modifies this`i
      ensures var k := NumEnd(s, old(i)); ok == (k > old(i)) && (ok ==> i == k && out == VNum(NumOf(s[old(i)..k])))
    {
      var start := i;
      while i < |s| && IsNumChar(s[i])
        invariant start <= i <= |s| && NumEnd(s, i) == NumEnd(s, start)
        decreases |s| - i
      {
        i := i + 1;
      }
      if i == start { return false, VNull; }
      return true, VNum(NumOf(s[start..i]));
    }

    method ReadString() returns (ok: bool, out: string)
      requires i <= |s|
      modifies this`i
      ensures Did(ParseString(s, old(i)), ok, out)
    {
      hide HexDigit, Utf8, SimpleEscape, CodePoint;
      out := "";
      if i >= |s| || s[i] != '"' { return false, ""; }
      i := i + 1;
      while i < |s|
        invariant old(i) < i <= |s|
        invariant ParseChars(s, i, out) == ParseChars(s, old(i) + 1, "")
        decreases |s| - i
      {
        var c := s[i];
        if c == '"' { i := i + 1; return true, out; }
        if c == '\\' {
          if i + 1 >= |s| { return false, out; }
          var e := s[i + 1];
          if e == 'u' {
            var cp := CodePoint(s, i + 2);
            if cp.None? { return false, out; }
            out := out + Utf8(cp.value);
            i := i + 6;
          } else {
            var simple := SimpleEscape(e);
            if simple.None? { return false, out; }
            out := out + [simple.value];
            i := i + 2;
          }
        } else {
          out := out + [c];
          i := i + 1;
        }
      }
      return false, out;
    }

    method ReadArray() returns (ok: bool, out: Value)
      requires i < |s| && s[i] == '['
      modifies this`i
      ensures Did(ParseValue(s, old(i)), ok, out)
      decreases |s| - i, 3
    {
      hide NumOf;
      ghost var start := i;
      i := i + 1;
      SkipBlanks();
      if i < |s| && s[i] == ']' { i := i + 1; return true, VArr([]); }
      var items: seq<Value> := [];
      while true
        invariant start < i <= |s|
        invariant ParseItems(s, i, items) == ParseValue(s, start)
        decreases |s| - i
      {
        var good, v := ReadValue();
        if !good { return false, VNull; }
        items := items + [v];
        SkipBlanks();
        if i >= |s| { return false, VNull; }
        if s[i] == ',' { i := i + 1; continue; }
        if s[i] == ']' { i := i + 1; return true, VArr(items); }
        return false, VNull;
      }
    }

    method ReadMember() returns (ok: bool, out: (string, Value))
      requires i <= |s|
      modifies this`i
      ensures Did(ParseMember(s, old(i)), ok, out)
      decreases |s| - i, 5
    {
      hide NumOf, ParseString;
      out := ("", VNull);
      SkipBlanks();
      var good, key := ReadString();
      if !good { return false, out; }
      SkipBlanks();
      if i >= |s| || s[i] != ':' { return false, out; }
      i := i + 1;
      var fine, v := ReadValue();
      if !fine { return false, out; }
      return true, (key, v);
    }

    method ReadObject() returns (ok: bool, out: Value)
      requires i < |s| && s[i] == '{'
      modifies this`i
      ensures Did(ParseValue(s, old(i)), ok, out)
      decreases |s| - i, 3
    {
      hide NumOf, ParseMember, ParseString;
      ghost var start := i;
      i := i + 1;
      SkipBlanks();
      if i < |s| && s[i] == '}' { i := i + 1; return true, VObj(map[]); }
      var fields: map<string, Value> := map[];
      while true
        invariant start < i <= |s|
        invariant ParseFields(s, i, fields) == ParseValue(s, start)
        decreases |s| - i
      {
        var good, member := ReadMember();
        if !good { return false, VNull; }
        fields := Emplace(fields, member.0, member.1);
        SkipBlanks();
        if i >= |s| { return false, VNull; }
        if s[i] == ',' { i := i + 1; continue; }
        if s[i] == '}' { i := i + 1; return true, VObj(fields); }
        return false, VNull;
      }
    }
  }

  method JsonParse(text: string) returns (v: Option<Value>)
    ensures v == Parse(text)
  {
    var p := new JsonParser(text);
    var ok, out := p.ReadValue();
    return if ok then Some(out) else None;
  }
}
