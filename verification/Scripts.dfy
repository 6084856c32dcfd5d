// Programs written out as text, one order to the robot to a line: such a text compiles, and its run
// gives exactly these orders, in this order, with just these numbers and colours
// (src/compiler.cpp:172-211; src/engine.cpp:219-275, 360-399; tests/test_execution.cpp:20-60).

module Scripts {
  import opened Ast
  import opened Source
  import opened Decimals
  import opened Lexer
  import opened Parser
  import opened Options
  import opened Semantics
  import opened Safety
  import opened LiteralPrograms
  import opened Pipeline
  import Compiler
  import Json
  import Laws

  datatype Order = Give(command: Command) | Ask(sensor: Kind)

  /** The words of an order, as one writes it. */
  function Words(order: Order): seq<string> {
    match order
    case Give(DriveForward(speed, ms)) => ["drive", Json.Number(speed), Json.Number(ms)]
    case Give(DriveBackward(speed, ms)) => ["backward", Json.Number(speed), Json.Number(ms)]
    case Give(TurnLeftBy(degrees)) => ["turn-left", Json.Number(degrees)]
    case Give(TurnRightBy(degrees)) => ["turn-right", Json.Number(degrees)]
    case Give(WaitMs(ms)) => ["wait", Json.Number(ms)]
    case Give(SetLight(color)) =>
      ["light", if color == 0 then "off" else if color == 1 then "red" else if color == 2 then "green"
                else if color == 3 then "blue" else if color == 4 then "yellow" else "white"]
    case Give(StopMotors) => ["stop"]
    case Give(BeepOnce) => ["beep"]
    case Ask(sensor) =>
      [if sensor == DistanceCm then "distance-cm" else if sensor == Button then "button"
       else if sensor == LineLeft then "line-left" else "line-right"]
  }

  /** What can be ordered. */
  predicate Orderly(order: Order) {
    match order
    case Give(DriveForward(speed, ms)) => 0 <= speed <= 100 && 0 <= ms <= 10000
    case Give(DriveBackward(speed, ms)) => 0 <= speed <= 100 && 0 <= ms <= 10000
    case Give(TurnLeftBy(degrees)) => 0 <= degrees <= 3600
    case Give(TurnRightBy(degrees)) => 0 <= degrees <= 3600
    case Give(WaitMs(ms)) => 0 <= ms <= 10000
    case Give(SetLight(color)) => 0 <= color <= 5
    case Give(_) => true
    case Ask(sensor) => sensor == DistanceCm || sensor == Button || sensor == LineLeft || sensor == LineRight
  }

  /** Words with one blank between them. */
  function Spaced(words: seq<string>): string {
    if words == [] then "" else if |words| == 1 then words[0] else words[0] + " " + Spaced(words[1..])
  }

  function Line(words: seq<string>): string { "(" + Spaced(words) + ")" }

  /** The orders, each on its own line. */
  function Script(orders: seq<Order>): string {
    if orders == [] then ""
    else if |orders| == 1 then Line(Words(orders[0]))
    else Line(Words(orders[0])) + "\n" + Script(orders[1..])
  }

  // ---- tokens --------------------------------------------------------------------------------------------

  ghost predicate ArePlain(words: seq<string>) {
    words != [] && forall word :: word in words ==> IsPlainWord(word)
  }

  predicate AreRead(toks: seq<Token>, words: seq<string>) {
    |toks| == |words| && forall i :: 0 <= i < |toks| ==> IsReadAs(toks[i], words[i])
  }

  /** From `o` on the source is `text` up to `e`. */
  predicate Has(src: string, o: nat, text: string, e: nat) {
    o <= e <= |src| && src[o..e] == text
  }

  lemma HasParts(src: string, o: nat, a: string, b: string, e: nat)
    requires Has(src, o, a + b, e)
    ensures Has(src, o, a, o + |a|) && Has(src, o + |a|, b, e) && e == o + |a| + |b|
  {
    assert (a + b)[..|a|] == a && (a + b)[|a|..] == b;
  }

  lemma {:induction false} WordsLex(src: string, o: nat, words: seq<string>, e: nat) returns (toks: seq<Token>)
    requires ArePlain(words) && Has(src, o, Spaced(words), e) && e < |src| && src[e] == ')'
    ensures LexFrom(src, o) == Lexed(toks + LexFrom(src, e).tokens, LexFrom(src, e).diags) && AreRead(toks, words)
    decreases |words|
  {
    hide LexFrom, IsPlainWord, IsReadAs, WordToken;
    var word := words[0];
    assert IsPlainWord(word);
    WordIsNotEmpty(word);
    if |words| == 1 {
      WordLexes(src, o, word, e);
      toks := [WordToken(src, o, e)];
    } else {
      var rest := words[1..];
      var k := o + |word|;
      Parts(src, o, word, Spaced(rest), e);
      WordLexes(src, o, word, k);
      BlankLexes(src, k);
      var more := WordsLex(src, k + 1, rest, e);
      toks := [WordToken(src, o, k)] + more;
      assert [WordToken(src, o, k)] + (more + LexFrom(src, e).tokens) == toks + LexFrom(src, e).tokens;
      ReadsOn(WordToken(src, o, k), more, words);
    }
  }

  lemma Parts(src: string, o: nat, word: string, rest: string, e: nat)
    requires Has(src, o, word + " " + rest, e)
    ensures Has(src, o, word, o + |word|) && o + |word| < |src| && src[o + |word|] == ' ' && Has(src, o + |word| + 1, rest, e)
  {
    HasParts(src, o, word + " ", rest, e);
    HasParts(src, o, word, " ", o + |word| + 1);
    var k := o + |word|;
    assert src[k] == src[k..k + 1][0] == ' ';
  }

  lemma ReadsOn(t: Token, more: seq<Token>, words: seq<string>)
    requires words != [] && IsReadAs(t, words[0]) && AreRead(more, words[1..])
    ensures AreRead([t] + more, words)
  {
    hide IsReadAs;
  }

  lemma WordLexes(src: string, o: nat, word: string, e: nat)
    requires Has(src, o, word, e) && o < e < |src| && (src[e] == ' ' || src[e] == ')') && IsPlainWord(word)
    ensures LexFrom(src, o) == Lexed([WordToken(src, o, e)] + LexFrom(src, e).tokens, LexFrom(src, e).diags)
    ensures IsReadAs(WordToken(src, o, e), word)
  {
    WordIsPlain(src, o, e);
    WordLexeme(src, o, e);
    LexOne(src, o, Lexeme(e, [WordToken(src, o, e)], []));
    hide *;
  }

  lemma BlankLexes(src: string, o: nat)
    requires o < |src| && (src[o] == ' ' || src[o] == '\n')
    ensures LexFrom(src, o) == LexFrom(src, o + 1)
  {
    assert NextLexeme(src, o) == Lexeme(o + 1, [], []);
    LexOne(src, o, Lexeme(o + 1, [], []));
  }

  lemma MarkLexes(src: string, o: nat)
    requires o < |src| && (src[o] == '(' || src[o] == ')')
    ensures var t := Token(if src[o] == '(' then LParen else RParen, SpanOf(src, o, o + 1), [src[o]], 0);
            LexFrom(src, o) == Lexed([t] + LexFrom(src, o + 1).tokens, LexFrom(src, o + 1).diags)
  {
    MarkLexeme(src, o);
    LexOne(src, o, NextLexeme(src, o));
    hide *;
  }

  /** The tokens of a line, from `pos` on. */
  predicate LineAt(toks: seq<Token>, pos: nat, words: seq<string>) {
    && pos + |words| + 2 <= |toks|
    && toks[pos].kind == LParen && toks[pos + |words| + 1].kind == RParen
    && AreRead(toks[pos + 1..pos + |words| + 1], words)
  }

  /** ... and of all the lines of a script, and the end. */
  predicate ScriptAt(toks: seq<Token>, pos: nat, orders: seq<Order>)
    decreases |orders|
  {
    if orders == [] then pos + 1 == |toks| && toks[pos].kind == End
    else LineAt(toks, pos, Words(orders[0])) && ScriptAt(toks, pos + |Words(orders[0])| + 2, orders[1..])
  }

  lemma {:induction false} ScriptShifts(front: seq<Token>, toks: seq<Token>, pos: nat, orders: seq<Order>)
    requires ScriptAt(toks, pos, orders)
    ensures ScriptAt(front + toks, |front| + pos, orders)
    decreases |orders|
  {
    hide Words, LineAt;
    if orders != [] {
      var words := Words(orders[0]);
      ScriptShifts(front, toks, pos + |words| + 2, orders[1..]);
      LineShifts(front, toks, pos, words);
    }
  }

  lemma LineShifts(front: seq<Token>, toks: seq<Token>, pos: nat, words: seq<string>)
    requires LineAt(toks, pos, words)
    ensures LineAt(front + toks, |front| + pos, words)
  {
    hide AreRead;
    assert (front + toks)[|front| + pos + 1..|front| + pos + |words| + 1] == toks[pos + 1..pos + |words| + 1];
  }

  lemma {:induction false} LineLexes(src: string, o: nat, words: seq<string>, e: nat) returns (toks: seq<Token>)
    requires ArePlain(words) && Has(src, o, Line(words), e)
    ensures |toks| == |words| + 2 && LineAt(toks, 0, words)
    ensures LexFrom(src, o) == Lexed(toks + LexFrom(src, e).tokens, LexFrom(src, e).diags)
  {
    hide ArePlain, LexFrom, AreRead, Spaced;
    HasParts(src, o, "(" + Spaced(words), ")", e);
    HasParts(src, o, "(", Spaced(words), e - 1);
    assert src[o] == src[o..o + 1][0] == '(' && src[e - 1] == src[e - 1..e][0] == ')';
    MarkLexes(src, o);
    MarkLexes(src, e - 1);
    var inner := WordsLex(src, o + 1, words, e - 1);
    ReadLength(inner, words);
    var open, close := Token(LParen, SpanOf(src, o, o + 1), [src[o]], 0), Token(RParen, SpanOf(src, e - 1, e), [src[e - 1]], 0);
    toks := [open] + inner + [close];
    assert [open] + (inner + ([close] + LexFrom(src, e).tokens)) == toks + LexFrom(src, e).tokens;
    assert toks[1..|words| + 1] == inner;
  }

  lemma ReadLength(toks: seq<Token>, words: seq<string>)
    requires AreRead(toks, words)
    ensures |toks| == |words|
  {
  }

  lemma {:induction false} ScriptLexes(src: string, o: nat, orders: seq<Order>) returns (toks: seq<Token>)
    requires orders != [] && Has(src, o, Script(orders), |src|) && forall order :: order in orders ==> Orderly(order)
    ensures LexFrom(src, o) == Lexed(toks, []) && ScriptAt(toks, 0, orders)
    decreases |orders|
  {
    hide Words, LexFrom, Line, LineAt, Orderly;
    var words := Words(orders[0]);
    var e := o + |Line(words)|;
    assert Orderly(orders[0]);
    WordsArePlain(orders[0]);
    var rest: seq<Token>;
    if |orders| == 1 {
      LexNothing(src);
      rest := [EndToken(src)];
    } else {
      HasParts(src, o, Line(words) + "\n", Script(orders[1..]), |src|);
      HasParts(src, o, Line(words), "\n", e + 1);
      assert src[e] == src[e..e + 1][0] == '\n';
      BlankLexes(src, e);
      rest := ScriptLexes(src, e + 1, orders[1..]);
    }
    var first := LineLexes(src, o, words, e);
    toks := first + rest;
    ScriptShifts(first, rest, 0, orders[1..]);
    LineGrows(first, rest, words);
    assert |first| + 0 == 0 + |words| + 2;
  }

  lemma LineGrows(toks: seq<Token>, more: seq<Token>, words: seq<string>)
    requires LineAt(toks, 0, words)
    ensures LineAt(toks + more, 0, words)
  {
    assert (toks + more)[1..|words| + 1] == toks[1..|words| + 1];
  }

  lemma WordsArePlain(order: Order)
    requires Orderly(order)
    ensures ArePlain(Words(order))
  {
    hide IsPlainWord, Json.Number;
    match order
    case Give(DriveForward(speed, ms)) => NumberIsPlain(speed); NumberIsPlain(ms); DriveIsPlain();
    case Give(DriveBackward(speed, ms)) => NumberIsPlain(speed); NumberIsPlain(ms); BackwardIsPlain();
    case Give(TurnLeftBy(degrees)) => NumberIsPlain(degrees); TurnIsPlain();
    case Give(TurnRightBy(degrees)) => NumberIsPlain(degrees); TurnIsPlain();
    case Give(WaitMs(ms)) => NumberIsPlain(ms); WaitIsPlain();
    case Give(SetLight(color)) => ColorsArePlain(); LightIsPlain();
    case Give(_) => StopIsPlain();
    case Ask(_) => SensorsArePlain();
  }

  lemma DriveIsPlain() ensures IsPlainWord("drive") { }
  lemma BackwardIsPlain() ensures IsPlainWord("backward") { }
  lemma TurnIsPlain() ensures IsPlainWord("turn-left") && IsPlainWord("turn-right") { }
  lemma WaitIsPlain() ensures IsPlainWord("wait") { }
  lemma LightIsPlain() ensures IsPlainWord("light") { }
  lemma StopIsPlain() ensures IsPlainWord("stop") && IsPlainWord("beep") { }
  lemma SensorsArePlain()
    ensures IsPlainWord("distance-cm") && IsPlainWord("button") && IsPlainWord("line-left") && IsPlainWord("line-right")
  {
  }
  lemma ColorsArePlain()
    ensures IsPlainWord("off") && IsPlainWord("red") && IsPlainWord("green")
    ensures IsPlainWord("blue") && IsPlainWord("yellow") && IsPlainWord("white")
  {
  }

  // ---- trees ------------------------------------------------------------------------------------------------

  /** The list of the words. */
  predicate Lists(raw: Raw, words: seq<string>) {
    raw.List? && |raw.list| == |words| && forall i :: 0 <= i < |words| ==> IsRead(raw.list[i], words[i])
  }

  lemma {:induction false} WordsParse(toks: seq<Token>, pos: nat, open: Span, span: Span, kids: seq<Raw>, words: seq<string>, k: nat)
    returns (raw: Raw)
    requires Terminated(toks) && k <= |words| && pos + |words| - k < |toks| && toks[pos + |words| - k].kind == RParen
    requires AreRead(toks[pos..pos + |words| - k], words[k..])
    requires |kids| == k && forall i :: 0 <= i < k ==> IsRead(kids[i], words[i])
    ensures Lists(raw, words) && pos + |words| - k + 1 < |toks|
    ensures ParseList(toks, pos, open, span, kids) == Parsed(Some(raw), pos + |words| - k + 1, [])
    decreases |words| - k
  {
    hide IsRead, IsReadAs;
    if k == |words| {
      raw := List(Join(span, toks[pos].span), kids);
    } else {
      var t := toks[pos];
      assert t == toks[pos..pos + |words| - k][0] && IsReadAs(t, words[k]);
      var kid := Kid(t, words[k]);
      assert toks[pos + 1..pos + 1 + |words| - (k + 1)] == toks[pos..pos + |words| - k][1..] && words[k + 1..] == words[k..][1..];
      raw := WordsParse(toks, pos + 1, open, Join(span, kid.span), kids + [kid], words, k + 1);
    }
  }

  lemma Kid(t: Token, word: string) returns (raw: Raw)
    requires IsReadAs(t, word)
    ensures t.kind == Symbol || t.kind == Integer
    ensures raw == (if t.kind == Symbol then Sym(t.span, t.text) else Int(t.span, t.value)) && IsRead(raw, word)
  {
    raw := if t.kind == Symbol then Sym(t.span, t.text) else Int(t.span, t.value);
  }

  predicate AllList(raws: seq<Raw>, orders: seq<Order>) {
    |raws| == |orders| && forall i :: 0 <= i < |orders| ==> Lists(raws[i], Words(orders[i]))
  }

  lemma {:induction false} ScriptParses(toks: seq<Token>, pos: nat, orders: seq<Order>) returns (raws: seq<Raw>)
    requires Terminated(toks) && pos < |toks| && ScriptAt(toks, pos, orders)
    ensures ParseFrom(toks, pos) == Program(raws, []) && AllList(raws, orders)
    decreases |orders|
  {
    hide Words, Lists, AreRead;
    if orders == [] {
      raws := [];
    } else {
      var words := Words(orders[0]);
      var t := toks[pos];
      assert words[0..] == words;
      var raw := WordsParse(toks, pos + 1, t.span, t.span, [], words, 0);
      assert ParseExpr(toks, pos) == Parsed(Some(raw), pos + |words| + 2, []);
      var rest := ScriptParses(toks, pos + |words| + 2, orders[1..]);
      raws := [raw] + rest;
    }
  }

  // ---- nodes ------------------------------------------------------------------------------------------------

  predicate IsLiteral(n: Node, v: Value) {
    IsConstant(n) && ConstantOf(n) == v && n.args == [] && n.children == []
  }

  function KindOf(order: Order): Kind {
    match order
    case Give(DriveForward(_, _)) => Drive
    case Give(DriveBackward(_, _)) => Backward
    case Give(TurnLeftBy(_)) => TurnLeft
    case Give(TurnRightBy(_)) => TurnRight
    case Give(WaitMs(_)) => Wait
    case Give(SetLight(_)) => Light
    case Give(StopMotors) => Stop
    case Give(BeepOnce) => Beep
    case Ask(sensor) => sensor
  }

  function Numbers(order: Order): seq<Value> {
    match order
    case Give(DriveForward(speed, ms)) => [IntV(speed), IntV(ms)]
    case Give(DriveBackward(speed, ms)) => [IntV(speed), IntV(ms)]
    case Give(TurnLeftBy(degrees)) => [IntV(degrees)]
    case Give(TurnRightBy(degrees)) => [IntV(degrees)]
    case Give(WaitMs(ms)) => [IntV(ms)]
    case Give(SetLight(color)) => [ColorV(color)]
    case _ => []
  }

  /** The node of an order: its kind, and its literals. */
  predicate Carries(n: Node, order: Order) {
    && n.kind == KindOf(order) && n.children == [] && |n.args| == |Numbers(order)|
    && forall i :: 0 <= i < |n.args| ==> IsLiteral(n.args[i], Numbers(order)[i])
  }

  // ---- compiling ---------------------------------------------------------------------------------------------

  /** Such a word denotes such a value. */
  predicate Denotes(word: string, v: Value) {
    || (v.IntV? && 0 <= v.i <= 10000 && word == Json.Number(v.i))
    || (v == ColorV(0) && word == "off") || (v == ColorV(1) && word == "red") || (v == ColorV(2) && word == "green")
    || (v == ColorV(3) && word == "blue") || (v == ColorV(4) && word == "yellow") || (v == ColorV(5) && word == "white")
  }

  lemma NoInteger(word: string)
    requires word != "" && !IsDigit(word[0]) && (word[0] == '-' ==> |word| > 1 && !IsDigit(word[1]))
    ensures !IsIntegerWord(word)
  {
    assert word[0] == '-' ==> Digits(word)[0] == word[1];
    assert Digits(word) != [] && !IsDigit(Digits(word)[0]);
  }

  lemma LiteralCompiles(raw: Raw, word: string, v: Value)
    requires IsRead(raw, word) && Denotes(word, v)
    ensures !raw.List? && (v.IntV? ==> raw.Int? && raw.value == v.i) && (v.ColorV? ==> raw.Sym?)
    ensures IsLiteral(Compiler.CompileAtom(raw), v)
  {
    if v.IntV? { NumberIsPlain(v.i); hide Json.Number, IsIntegerWord, SignedValue; } else { NoInteger(word); hide IsIntegerWord; }
  }

  lemma WordsDenote(order: Order)
    requires Orderly(order)
    ensures |Words(order)| == |Numbers(order)| + 1
    ensures forall i :: 0 <= i < |Numbers(order)| ==> Denotes(Words(order)[i + 1], Numbers(order)[i])
  {
    hide Json.Number;
  }

  lemma HeadIs(raw: Raw, order: Order)
    requires Lists(raw, Words(order)) && Orderly(order)
    ensures raw.List? && raw.list != [] && raw.list[0].Sym? && raw.list[0].symbol == Words(order)[0]
  {
    NoInteger(Words(order)[0]);
    hide Json.Number, IsIntegerWord;
  }

  lemma {:induction false} OrderForm(raw: Raw, order: Order) returns (f: Compiler.Form)
    requires Lists(raw, Words(order)) && Orderly(order)
    ensures IsOrder(raw, order) && f == Compiler.Analyze(raw, map[], true) && Formed(raw, order, f)
  {
    HeadIs(raw, order);
    f := Compiler.Analyze(raw, map[], true);
    hide *;
    ArgumentsAre(raw, order);
    match order
    case Give(DriveForward(_, _)) => DriveForm(raw, order);
    case Give(DriveBackward(_, _)) => DriveForm(raw, order);
    case Give(TurnLeftBy(_)) => TurnForm(raw, order);
    case Give(TurnRightBy(_)) => TurnForm(raw, order);
    case Give(WaitMs(_)) => TurnForm(raw, order);
    case _ => PlainForm(raw, order);
  }

  /** A list with the head of the order and its numbers and colours. */
  predicate IsOrder(raw: Raw, order: Order) {
    && raw.List? && |raw.list| == |Numbers(order)| + 1 && raw.list[0].Sym? && raw.list[0].symbol == Words(order)[0]
    && forall i :: 1 <= i < |raw.list| ==> Matches(raw.list[i], Numbers(order)[i - 1])
  }

  predicate Matches(x: Raw, v: Value) {
    !x.List? && (v.IntV? ==> x.Int? && x.value == v.i) && (v.ColorV? ==> x.Sym?)
  }

  ghost predicate Formed(raw: Raw, order: Order, f: Compiler.Form) {
    && !Compiler.IsSignature(raw) && raw.List? && raw.list != [] && raw.list[0].Sym? && raw.list[0].symbol != "do"
    && f.Accept? && f.kind == KindOf(order) && f.a == 1 && f.b == |raw.list| && f.c == |raw.list| && f.params == [] && f.diags == []
  }

  lemma DriveForm(raw: Raw, order: Order)
    requires IsOrder(raw, order) && Orderly(order) && order.Give? && (order.command.DriveForward? || order.command.DriveBackward?)
    ensures Formed(raw, order, Compiler.Analyze(raw, map[], true))
  {
    assert Matches(raw.list[1], Numbers(order)[0]) && Matches(raw.list[2], Numbers(order)[1]);
    hide Json.Number;
  }

  lemma TurnForm(raw: Raw, order: Order)
    requires IsOrder(raw, order) && Orderly(order) && order.Give? && (order.command.TurnLeftBy? || order.command.TurnRightBy? || order.command.WaitMs?)
    ensures Formed(raw, order, Compiler.Analyze(raw, map[], true))
  {
    assert Matches(raw.list[1], Numbers(order)[0]);
    hide Json.Number;
  }

  lemma PlainForm(raw: Raw, order: Order)
    requires IsOrder(raw, order) && Orderly(order) && (order.Ask? || order.command.SetLight? || order.command.StopMotors? || order.command.BeepOnce?)
    ensures Formed(raw, order, Compiler.Analyze(raw, map[], true))
  {
    hide Json.Number, Matches;
  }

  /** The elements after the head are the numbers and colours. */
  lemma ArgumentsAre(raw: Raw, order: Order)
    requires Lists(raw, Words(order)) && Orderly(order)
    ensures IsOrder(raw, order)
    ensures forall i :: 1 <= i < |raw.list| ==> !raw.list[i].List? && IsLiteral(Compiler.CompileAtom(raw.list[i]), Numbers(order)[i - 1])
  {
    hide Words, IsRead, Denotes, Numbers, IsLiteral, Compiler.CompileAtom, Orderly;
    HeadIs(raw, order);
    WordsDenote(order);
    forall i | 1 <= i < |raw.list|
      ensures Matches(raw.list[i], Numbers(order)[i - 1])
      ensures !raw.list[i].List? && IsLiteral(Compiler.CompileAtom(raw.list[i]), Numbers(order)[i - 1])
    {
      assert Denotes(Words(order)[i - 1 + 1], Numbers(order)[i - 1]);
      LiteralCompiles(raw.list[i], Words(order)[i], Numbers(order)[i - 1]);
    }
  }

  predicate AllLiterals(ns: seq<Node>, vs: seq<Value>) {
    |ns| == |vs| && forall i :: 0 <= i < |ns| ==> IsLiteral(ns[i], vs[i])
  }

  lemma {:induction false} LiteralsCompile(raw: Raw, i: nat, vs: seq<Value>) returns (ns: seq<Node>)
    requires raw.List? && 1 <= i <= |raw.list| && |vs| == |raw.list| - 1
    requires forall k :: i <= k < |raw.list| ==> !raw.list[k].List? && IsLiteral(Compiler.CompileAtom(raw.list[k]), vs[k - 1])
    ensures Compiler.CompileRange(raw, i, |raw.list|, map[]) == Compiler.Listing(ns, []) && AllLiterals(ns, vs[i - 1..])
    decreases |raw.list| - i
  {
    hide IsLiteral, Compiler.CompileAtom;
    if i == |raw.list| {
      ns := [];
    } else {
      var more := LiteralsCompile(raw, i + 1, vs);
      var n := Compiler.CompileAtom(raw.list[i]);
      assert Compiler.CompileExpr(raw.list[i], map[], false) == Compiler.Compiled(Some(n), []);
      ns := [n] + more;
    }
  }

  lemma {:induction false} OrderCompiles(raw: Raw, order: Order) returns (n: Node)
    requires Lists(raw, Words(order)) && Orderly(order)
    ensures Compiler.CompileExpr(raw, map[], true) == Compiler.Compiled(Some(n), []) && Carries(n, order)
    ensures raw.List? && raw.list != [] && raw.list[0].Sym? && raw.list[0].symbol != "do" && !Compiler.IsSignature(raw)
  {
    hide Words, Numbers, IsLiteral, Compiler.CompileAtom, Compiler.Analyze, Compiler.CompileExpr, Compiler.CompileRange, KindOf, Orderly, Lists, Matches;
    var f := OrderForm(raw, order);
    ArgumentsAre(raw, order);
    var vs := Numbers(order);
    var args := LiteralsCompile(raw, 1, vs);
    assert vs[0..] == vs;
    Compiler.CompileForms(raw, map[], true);
    Compiler.RangeEnds(raw, |raw.list|, map[]);
    n := Node(0, f.kind, raw.span, f.op, args, [], [], []);
  }

  predicate AllCarry(ns: seq<Node>, orders: seq<Order>) {
    |ns| == |orders| && forall i :: 0 <= i < |ns| ==> Carries(ns[i], orders[i])
  }

  /** No expression is a do or the definition of a function. */
  predicate AllPlain(raws: seq<Raw>) {
    forall raw :: raw in raws ==>
      raw.List? && raw.list != [] && raw.list[0].Sym? && raw.list[0].symbol != "do" && !Compiler.IsSignature(raw)
  }

  lemma {:induction false} OrdersCompile(raws: seq<Raw>, orders: seq<Order>) returns (ns: seq<Node>)
    requires AllList(raws, orders) && forall order :: order in orders ==> Orderly(order)
    ensures Compiler.CompileTops(raws, map[]) == Compiler.Listing(ns, []) && AllCarry(ns, orders) && AllPlain(raws)
    decreases |orders|
  {
    hide Words, Lists, Orderly, Carries, Compiler.CompileExpr;
    if orders == [] {
      ns := [];
    } else {
      assert Orderly(orders[0]);
      var n := OrderCompiles(raws[0], orders[0]);
      var more := OrdersCompile(raws[1..], orders[1..]);
      ns := [n] + more;
      assert raws == [raws[0]] + raws[1..];
    }
  }

  lemma {:induction false} NothingDefined(raws: seq<Raw>, i: nat)
    requires AllPlain(raws) && i <= |raws|
    ensures Compiler.CollectUpTo(raws, i) == Compiler.Signatures(map[], [])
  {
    if i > 0 { NothingDefined(raws, i - 1); assert raws[i - 1] in raws; }
  }

  lemma {:induction false} LiteralsNumbered(ns: seq<Node>, vs: seq<Value>, k: nat)
    requires AllLiterals(ns, vs)
    ensures Compiler.NumberAll(ns, k) == (ns, k)
    decreases |ns|
  {
    if ns != [] {
      assert IsLiteral(ns[0], vs[0]);
      assert Compiler.Number(ns[0], k) == (ns[0], k);
      LiteralsNumbered(ns[1..], vs[1..], k);
      assert [ns[0]] + ns[1..] == ns;
    }
  }

  lemma {:induction false} OrderNumbered(n: Node, order: Order, k: nat)
    requires Carries(n, order)
    ensures Carries(Compiler.Number(n, k).0, order)
  {
    hide IsLiteral, Numbers, KindOf;
    var k' := if Highlightable(n.kind) then k + 1 else k;
    LiteralsNumbered(n.args, Numbers(order), k');
    assert Compiler.NumberAll([], k') == ([], k');
    assert Compiler.Number(n, k).0 == n.(id := if Highlightable(n.kind) then k else n.id);
  }

  lemma {:induction false} OrdersNumbered(ns: seq<Node>, orders: seq<Order>, k: nat)
    requires AllCarry(ns, orders)
    ensures AllCarry(Compiler.NumberAll(ns, k).0, orders)
    decreases |ns|
  {
    hide Carries, Compiler.Number;
    if ns != [] {
      OrderNumbered(ns[0], orders[0], k);
      OrdersNumbered(ns[1..], orders[1..], Compiler.Number(ns[0], k).1);
    }
  }

  /** The tree of a script: its order, or a do of its orders. */
  predicate Follows(root: Node, orders: seq<Order>) {
    if |orders| == 1 then Carries(root, orders[0]) else root.kind == Do && AllCarry(root.children, orders)
  }

  lemma {:induction false} TreeCompiles(raws: seq<Raw>, orders: seq<Order>) returns (root: Node)
    requires orders != [] && AllList(raws, orders) && forall order :: order in orders ==> Orderly(order)
    ensures Compiler.CompileProgram(Program(raws, [])) == Compiler.Result(Some(root), []) && Follows(root, orders)
  {
    hide Words, Lists, Orderly, Carries, Compiler.CompileExpr, Compiler.Number, Compiler.CompileTops, Compiler.IsSignature;
    var ns := OrdersCompile(raws, orders);
    NothingDefined(raws, |raws|);
    assert raws[0] in raws;
    assert Compiler.TopsOf(raws) == raws;
    if |orders| == 1 {
      OrderNumbered(ns[0], orders[0], 0);
      root := Compiler.Number(ns[0], 0).0;
    } else {
      root := DoNumbered(Node(0, Do, Join(raws[0].span, raws[|raws| - 1].span), "do", [], ns, [], []), orders);
    }
  }

  lemma {:induction false} DoNumbered(n: Node, orders: seq<Order>) returns (root: Node)
    requires n.kind == Do && n.args == [] && AllCarry(n.children, orders)
    ensures root == Compiler.Number(n, 0).0 && root.kind == Do && AllCarry(root.children, orders)
  {
    hide AllCarry;
    assert Compiler.NumberAll([], 1) == ([], 1);
    OrdersNumbered(n.children, orders, 1);
    root := Compiler.Number(n, 0).0;
  }

  lemma {:induction false} ScriptCompiles(orders: seq<Order>) returns (root: Node)
    requires orders != [] && forall order :: order in orders ==> Orderly(order)
    ensures Compiler.Compile(Script(orders)) == Compiler.Result(Some(root), []) && Follows(root, orders)
  {
    hide Script, ScriptAt, LexFrom, AllList, Compiler.CompileProgram, Orderly, Follows;
    var src := Script(orders);
    assert src[0..|src|] == src;
    LexIsTerminated(src, 0);
    var toks := ScriptLexes(src, 0, orders);
    var raws := ScriptParses(toks, 0, orders);
    assert Parse(src) == Program(raws, []);
    root := TreeCompiles(raws, orders);
  }

  // ---- running -------------------------------------------------------------------------------------------------

  /** The entry that an order adds to a trace. */
  function Entry(host: Host, order: Order, trace: Trace): Item {
    match order
    case Give(command) => Act(command)
    case Ask(sensor) => Sensed(sensor, if sensor == DistanceCm then IntV(host.distance(trace)) else BoolV(host.flag(sensor, trace)))
  }

  /** A trace after its node has carried out an order. */
  function Obeyed(host: Host, trace: Trace, n: Node, order: Order): Trace {
    trace + [NodeStart(n), Entry(host, order, trace + [NodeStart(n)]), NodeDone(n)]
  }

  function AllObeyed(host: Host, trace: Trace, ns: seq<Node>, orders: seq<Order>): Trace
    requires |ns| == |orders|
    decreases |ns|
  {
    if ns == [] then trace else AllObeyed(host, Obeyed(host, trace, ns[0], orders[0]), ns[1..], orders[1..])
  }

  ghost predicate NeverCancelled(host: Host) {
    forall polls, trace :: !host.cancel(polls, trace)
  }

  /** What the work of an order makes of the trace. */
  lemma {:induction false} OrderWorks(w: World, n: Node, order: Order, m: Machine, sc: Scope)
    requires Carries(n, order) && Orderly(order) && NeverCancelled(w.host) && m.status.Running?
    ensures var r := Laws.Work(w, n, m, sc);
            r.m == m.(polls := r.m.polls, trace := m.trace + [Entry(w.host, order, m.trace)]) && r.sc == sc
  {
    hide Eval, Run, Laws.Work;
    match order
    case Give(DriveForward(speed, ms)) => TwoLiterals(w, n, IntV(speed), IntV(ms), m, sc); Laws.DriveLaw(w, n, m, sc);
    case Give(DriveBackward(speed, ms)) => TwoLiterals(w, n, IntV(speed), IntV(ms), m, sc); Laws.DriveLaw(w, n, m, sc);
    case Give(TurnLeftBy(degrees)) => OneLiteral(w, n.args[0], IntV(degrees), m, sc); Laws.TurnLaw(w, n, m, sc);
    case Give(TurnRightBy(degrees)) => OneLiteral(w, n.args[0], IntV(degrees), m, sc); Laws.TurnLaw(w, n, m, sc);
    case Give(WaitMs(ms)) => OneLiteral(w, n.args[0], IntV(ms), m, sc); Laws.TurnLaw(w, n, m, sc);
    case Give(SetLight(color)) => OneLiteral(w, n.args[0], ColorV(color), m, sc); Laws.LightLaw(w, n, m, sc);
    case Give(_) => Laws.PlainLaw(w, n, m, sc);
    case Ask(_) => Laws.SensorLaw(w, n, m, sc);
  }

  lemma OneLiteral(w: World, n: Node, v: Value, m: Machine, sc: Scope)
    requires IsLiteral(n, v) && NeverCancelled(w.host) && m.status.Running?
    ensures Eval(w, n, m, sc) == Out(v, m.(polls := m.polls + 1), sc)
  {
    LiteralEvaluates(w, n, m, sc);
    hide Eval;
  }

  lemma TwoLiterals(w: World, n: Node, a: Value, b: Value, m: Machine, sc: Scope)
    requires |n.args| == 2 && IsLiteral(n.args[0], a) && IsLiteral(n.args[1], b) && NeverCancelled(w.host) && m.status.Running?
    ensures Eval(w, n.args[0], m, sc) == Out(a, m.(polls := m.polls + 1), sc)
    ensures Eval(w, n.args[1], m.(polls := m.polls + 1), sc) == Out(b, m.(polls := m.polls + 2), sc)
  {
    hide Eval, NeverCancelled;
    OneLiteral(w, n.args[0], a, m, sc);
    OneLiteral(w, n.args[1], b, m.(polls := m.polls + 1), sc);
  }

  /** A node is announced, works, and is announced as done. */
  lemma {:induction false} OrderRuns(w: World, n: Node, order: Order, m: Machine, sc: Scope)
    requires Carries(n, order) && Orderly(order) && NeverCancelled(w.host) && m.status.Running? && m.steps < w.limits.maxTotalSteps
    ensures var r := Eval(w, n, m, sc);
            r.m == m.(polls := r.m.polls, steps := m.steps + 1, trace := Obeyed(w.host, m.trace, n, order)) && r.sc == sc
  {
    var begun := m.(polls := m.polls + 1, steps := m.steps + 1, trace := m.trace + [NodeStart(n)]);
    OrderWorks(w, n, order, begun, sc);
    hide Run, Carries, Orderly, Entry;
    assert Highlightable(n.kind) by { OrdersAreAnnounced(n, order); }
    var item := Entry(w.host, order, begun.trace);
    assert m.trace + [NodeStart(n)] + [item] + [NodeDone(n)] == m.trace + [NodeStart(n), item, NodeDone(n)];
  }

  lemma OrdersAreAnnounced(n: Node, order: Order)
    requires Carries(n, order) && Orderly(order)
    ensures Highlightable(n.kind)
  {
  }

  lemma {:induction false} OrdersRun(w: World, ns: seq<Node>, orders: seq<Order>, m: Machine, sc: Scope, last: Value)
    requires AllCarry(ns, orders) && (forall order :: order in orders ==> Orderly(order)) && NeverCancelled(w.host)
    requires m.status.Running? && m.steps + |ns| <= w.limits.maxTotalSteps
    ensures var r := Laws.Sequence(w, ns, m, sc, last);
            r.m == m.(polls := r.m.polls, steps := m.steps + |ns|, trace := AllObeyed(w.host, m.trace, ns, orders)) && r.sc == sc
    decreases |ns|
  {
    hide Eval, Carries, Orderly, Obeyed, NeverCancelled;
    if ns != [] {
      assert Orderly(orders[0]);
      OrderRuns(w, ns[0], orders[0], m, sc);
      var r := Eval(w, ns[0], m, sc);
      OrdersRun(w, ns[1..], orders[1..], r.m, r.sc, r.v);
    }
  }

  /** A script does what it says: its text compiles, and, if nobody cancels it and it has a step for each
      of its nodes, its run gives the robot just these orders in this order, each from the start of its
      node to the end of it, and succeeds. */
  lemma {:induction false} ScriptsAreObeyed(orders: seq<Order>, host: Host, limits: Limits) returns (root: Node)
    requires orders != [] && forall order :: order in orders ==> Orderly(order)
    requires NeverCancelled(host) && |orders| + 1 <= limits.maxTotalSteps
    ensures Follows(root, orders)
    ensures var r := RunSource(Script(orders), host, limits);
            && r.Ran? && r.outcome.success
            && r.outcome.trace == if |orders| == 1 then Obeyed(host, [ProgramStart], root, orders[0]) + [ProgramDone]
                                  else AllObeyed(host, [ProgramStart, NodeStart(root)], root.children, orders) + [NodeDone(root), ProgramDone]
  {
    root := ScriptCompiles(orders);
    hide Script, Compiler.Compile, Eval, Functions, AllObeyed, Obeyed, Carries, Orderly, NeverCancelled;
    var w := World(host, limits, Functions(root));
    if |orders| == 1 {
      assert Orderly(orders[0]);
      OrderRuns(w, root, orders[0], START, Top);
    } else {
      DoRuns(w, root, orders);
    }
  }

  lemma {:induction false} DoRuns(w: World, n: Node, orders: seq<Order>)
    requires n.kind == Do && AllCarry(n.children, orders) && (forall order :: order in orders ==> Orderly(order))
    requires NeverCancelled(w.host) && |orders| + 1 <= w.limits.maxTotalSteps
    ensures var r := Eval(w, n, START, Top).m;
            r.status.Running? && r.trace + [ProgramDone] == AllObeyed(w.host, [ProgramStart, NodeStart(n)], n.children, orders) + [NodeDone(n), ProgramDone]
  {
    hide Run, AllObeyed, Carries, Orderly;
    var begun := START.(polls := 1, steps := 1, trace := [ProgramStart] + [NodeStart(n)]);
    assert [ProgramStart] + [NodeStart(n)] == [ProgramStart, NodeStart(n)];
    Laws.DoLaw(w, n, begun, Top);
    OrdersRun(w, n.children, orders, begun, Top, NoneV);
    var t := AllObeyed(w.host, [ProgramStart, NodeStart(n)], n.children, orders);
    assert t + [NodeDone(n)] + [ProgramDone] == t + [NodeDone(n), ProgramDone];
  }

  /** One of them, from its text: it drives at the speed and for the time that it says. */
  lemma {:induction false} DrivePrograms(speed: nat, ms: nat, host: Host, limits: Limits) returns (root: Node)
    requires speed <= 100 && ms <= 10000 && NeverCancelled(host) && limits.maxTotalSteps >= 2
    ensures RunSource("(drive " + Json.Number(speed) + " " + Json.Number(ms) + ")", host, limits).Ran?
    ensures RunSource("(drive " + Json.Number(speed) + " " + Json.Number(ms) + ")", host, limits).outcome.trace
         == [ProgramStart, NodeStart(root), Act(DriveForward(speed, ms)), NodeDone(root), ProgramDone]
  {
    var orders := [Give(DriveForward(speed, ms))];
    root := ScriptsAreObeyed(orders, host, limits);
    DriveScript(speed, ms);
    hide RunSource, Script, Json.Number;
    assert [ProgramStart] + [NodeStart(root), Act(DriveForward(speed, ms)), NodeDone(root)] + [ProgramDone]
        == [ProgramStart, NodeStart(root), Act(DriveForward(speed, ms)), NodeDone(root), ProgramDone];
  }

  lemma DriveScript(speed: nat, ms: nat)
    ensures Script([Give(DriveForward(speed, ms))]) == "(drive " + Json.Number(speed) + " " + Json.Number(ms) + ")"
  {
    hide Json.Number;
    var a, b := Json.Number(speed), Json.Number(ms);
    assert Spaced([b]) == b;
    assert ["drive", a, b][1..] == [a, b] && [a, b][1..] == [b];
    assert Spaced([a, b]) == a + " " + b;
    assert "(" + ("drive" + " " + (a + " " + b)) + ")" == "(drive " + a + " " + b + ")";
  }

  /** ... and another, in digits. */
  lemma {:induction false} DriveForty(host: Host, limits: Limits) returns (root: Node)
    requires NeverCancelled(host) && limits.maxTotalSteps >= 2
    ensures RunSource("(drive 40 1000)", host, limits).Ran?
    ensures RunSource("(drive 40 1000)", host, limits).outcome.trace
         == [ProgramStart, NodeStart(root), Act(DriveForward(40, 1000)), NodeDone(root), ProgramDone]
  {
    root := DrivePrograms(40, 1000, host, limits);
    FortyIs();
    hide RunSource, Json.Number;
    assert "(drive " + "40" + " " + "1000" + ")" == "(drive 40 1000)";
  }

  lemma FortyIs()
    ensures Json.Number(40) == "40" && Json.Number(1000) == "1000"
  {
    assert Json.Decimal(4) == "4" && Json.Decimal(40) == Json.Decimal(4) + "0";
    assert Json.Decimal(1) == "1" && Json.Decimal(10) == Json.Decimal(1) + "0";
    assert Json.Decimal(100) == Json.Decimal(10) + "0" && Json.Decimal(1000) == Json.Decimal(100) + "0";
  }
}
