// Programs of one operation and one integer literal, from their text to their run: a repeat
// compiles for every count up to 100, whatever the run-time limit, and a light compiles with an
// integer that is no colour (src/compiler.cpp:19, 160-204, 251-255).

module LiteralPrograms {
  import opened Ast
  import opened Source
  import opened Decimals
  import opened Lexer
  import opened LexerTheorems
  import opened Parser
  import opened Names
  import opened Options
  import opened Semantics
  import opened Safety
  import opened LiteralFaults
  import opened Pipeline
  import Compiler
  import Json
  import EditorReads

  /** (head word) */
  function FormText(head: string, word: string): string {
    "(" + head + " " + word + ")"
  }

  predicate IsHead(head: string) {
    head != "" && (forall i :: 0 <= i < |head| ==> IsSymbolChar(head[i])) && !IsDigit(head[0]) && head[0] != '-'
  }

  /** A word that is an integer in range, or a symbol. */
  predicate IsPlainWord(word: string) {
    && word != "" && (forall i :: 0 <= i < |word| ==> IsSymbolChar(word[i]))
    && if IsIntegerWord(word) then Magnitude(Digits(word)) <= MAX_INT64 else !IsDigit(word[0])
  }

  /** What a plain word is read as. */
  predicate IsRead(raw: Raw, word: string) {
    if IsIntegerWord(word) then raw.Int? && raw.value == SignedValue(word) else raw.Sym? && raw.symbol == word
  }

  // ---- reading the text ------------------------------------------------------------------------------

  lemma HeadIsSymbol(src: string, o: nat, e: nat)
    requires o < e <= |src| && IsHead(src[o..e])
    ensures forall i :: o <= i < e ==> IsSymbolChar(src[i])
    ensures WordToken(src, o, e) == Token(Symbol, SpanOf(src, o, e), src[o..e], 0) && WordProblems(src, o, e) == []
  {
    var w := src[o..e];
    assert Digits(w) == w && !IsDigit(w[0]);
    forall i | o <= i < e ensures IsSymbolChar(src[i]) { assert w[i - o] == src[i]; }
  }

  lemma WordIsPlain(src: string, o: nat, e: nat)
    requires o < e <= |src| && IsPlainWord(src[o..e])
    ensures forall i :: o <= i < e ==> IsSymbolChar(src[i])
    ensures WordProblems(src, o, e) == [] && IsReadAs(WordToken(src, o, e), src[o..e])
  {
    var w := src[o..e];
    forall i | o <= i < e ensures IsSymbolChar(src[i]) { assert w[i - o] == src[i]; }
  }

  /** The token of a plain word. */
  predicate IsReadAs(t: Token, word: string) {
    if IsIntegerWord(word) then t.kind == Integer && t.value == SignedValue(word) else t.kind == Symbol && t.text == word
  }

  lemma NumberIsPlain(number: int)
    requires -MAX_INT64 <= number <= MAX_INT64
    ensures var word := Json.Number(number); IsPlainWord(word) && IsIntegerWord(word) && SignedValue(word) == number
  {
    var w := Json.Number(number);
    EditorReads.NumberIsWord(number);
    assert Magnitude(Digits(w)) <= MAX_INT64;
    forall i | 0 <= i < |w| ensures IsSymbolChar(w[i]) {
      assert i > 0 ==> Digits(w)[if w[0] == '-' then i - 1 else i] == w[i];
      assert w[0] != '-' ==> Digits(w)[i] == w[i];
    }
  }

  /** One lexeme in front of the others. */
  lemma LexOne(src: string, o: nat, l: Lexeme)
    requires o < |src| && NextLexeme(src, o) == l
    ensures LexFrom(src, o) == Lexed(l.tokens + LexFrom(src, l.end).tokens, l.diags + LexFrom(src, l.end).diags)
  {
  }

  lemma {:induction false} FormLexes(head: string, word: string) returns (tokens: seq<Token>)
    requires IsHead(head) && IsPlainWord(word)
    ensures LexFrom(FormText(head, word), 0) == Lexed(tokens, [])
    ensures |tokens| == 5 && tokens[0].kind == LParen && tokens[3].kind == RParen && tokens[4].kind == End
    ensures tokens[1].kind == Symbol && tokens[1].text == head && IsReadAs(tokens[2], word)
  {
    hide *;
    var src, a, b, c := FormText(head, word), 1 + |head|, 2 + |head|, 2 + |head| + |word|;
    FormLexemes(head, word);
    var open, close := Token(LParen, SpanOf(src, 0, 1), ['('], 0), Token(RParen, SpanOf(src, c, c + 1), [')'], 0);
    LexOne(src, 0, Lexeme(1, [open], []));
    LexOne(src, 1, Lexeme(a, [WordToken(src, 1, a)], []));
    LexOne(src, a, Lexeme(b, [], []));
    LexOne(src, b, Lexeme(c, [WordToken(src, b, c)], []));
    LexOne(src, c, Lexeme(c + 1, [close], []));
    LexNothing(src);
    tokens := [open, WordToken(src, 1, a), WordToken(src, b, c), close, EndToken(src)];
    assert [open] + ([WordToken(src, 1, a)] + ([] + ([WordToken(src, b, c)] + ([close] + [EndToken(src)])))) == tokens;
  }

  lemma FormSlices(head: string, word: string)
    ensures var src := FormText(head, word);
            var a, b := 1 + |head|, 2 + |head|; var c := b + |word|;
            && |src| == c + 1 && src[1..a] == head && src[b..c] == word && src[0] == '(' && src[a] == ' ' && src[c] == ')'
  {
  }

  /** The five lexemes of the text. */
  lemma {:induction false} FormLexemes(head: string, word: string)
    requires IsHead(head) && IsPlainWord(word)
    ensures var src := FormText(head, word);
            var a, b := 1 + |head|, 2 + |head|; var c := b + |word|;
            && 1 < a && b < c && |src| == c + 1
            && NextLexeme(src, 0) == Lexeme(1, [Token(LParen, SpanOf(src, 0, 1), ['('], 0)], [])
            && NextLexeme(src, 1) == Lexeme(a, [WordToken(src, 1, a)], [])
            && NextLexeme(src, a) == Lexeme(b, [], [])
            && NextLexeme(src, b) == Lexeme(c, [WordToken(src, b, c)], [])
            && NextLexeme(src, c) == Lexeme(c + 1, [Token(RParen, SpanOf(src, c, c + 1), [')'], 0)], [])
            && WordToken(src, 1, a).kind == Symbol && WordToken(src, 1, a).text == head
            && IsReadAs(WordToken(src, b, c), word)
  {
    hide *;
    var src, a, b, c := FormText(head, word), 1 + |head|, 2 + |head|, 2 + |head| + |word|;
    FormSlices(head, word);
    WordIsNotEmpty(word);
    HeadIsNotEmpty(head);
    WordIsPlain(src, b, c);
    HeadIsSymbol(src, 1, a);
    MarkLexeme(src, 0);
    WordLexeme(src, 1, a);
    MarkLexeme(src, a);
    WordLexeme(src, b, c);
    MarkLexeme(src, c);
  }

  lemma WordIsNotEmpty(word: string)
    requires IsPlainWord(word)
    ensures |word| > 0
  {
  }

  lemma HeadIsNotEmpty(head: string)
    requires IsHead(head)
    ensures |head| > 0
  {
  }

  lemma MarkLexeme(src: string, o: nat)
    requires o < |src|
    ensures src[o] == '(' ==> NextLexeme(src, o) == Lexeme(o + 1, [Token(LParen, SpanOf(src, o, o + 1), ['('], 0)], [])
    ensures src[o] == ')' ==> NextLexeme(src, o) == Lexeme(o + 1, [Token(RParen, SpanOf(src, o, o + 1), [')'], 0)], [])
    ensures src[o] == ' ' ==> NextLexeme(src, o) == Lexeme(o + 1, [], [])
  {
    hide SpanOf;
  }

  lemma {:induction false} WordLexeme(src: string, o: nat, e: nat)
    requires o < e < |src| && (forall i :: o <= i < e ==> IsSymbolChar(src[i])) && (src[e] == ' ' || src[e] == ')')
    requires WordProblems(src, o, e) == []
    ensures NextLexeme(src, o) == Lexeme(e, [WordToken(src, o, e)], [])
  {
    StartsWord(src, o);
    MarkIsNoSymbol(src[e]);
    WordEndIs(src, o + 1, e);
    hide IsSymbolChar, WordToken, WordProblems;
  }

  lemma MarkIsNoSymbol(c: char)
    requires c == ' ' || c == ')'
    ensures !IsSymbolChar(c)
  {
  }

  lemma LexNothing(src: string)
    ensures LexFrom(src, |src|) == Lexed([EndToken(src)], []) && EndToken(src).kind == End
  {
  }

  lemma StartsWord(src: string, o: nat)
    requires o < |src| && IsSymbolChar(src[o])
    ensures !IsBlank(src[o]) && src[o] != ';' && src[o] != '(' && src[o] != ')'
  {
  }

  lemma {:induction false} FormParses(head: string, word: string) returns (raw: Raw)
    requires IsHead(head) && IsPlainWord(word)
    ensures Parse(FormText(head, word)) == Program([raw], [])
    ensures raw.List? && |raw.list| == 2 && raw.list[0].Sym? && raw.list[0].symbol == head
    ensures IsRead(raw.list[1], word)
  {
    var src := FormText(head, word);
    LexIsTerminated(src, 0);
    var toks := FormLexes(head, word);
    hide FormText, LexFrom, IsHead, IsPlainWord, IsIntegerWord, SignedValue;
    var sym := Sym(toks[1].span, head);
    var num := if toks[2].kind == Integer then Int(toks[2].span, toks[2].value) else Sym(toks[2].span, toks[2].text);
    raw := List(Join(Join(Join(toks[0].span, sym.span), num.span), toks[3].span), [sym, num]);
    assert ParseList(toks, 3, toks[0].span, Join(Join(toks[0].span, sym.span), num.span), [sym, num]) == Parsed(Some(raw), 4, []);
    assert [sym] + [num] == [sym, num] && [] + [sym] == [sym];
    assert ParseList(toks, 2, toks[0].span, Join(toks[0].span, sym.span), [sym]) == Parsed(Some(raw), 4, []);
    assert ParseList(toks, 1, toks[0].span, toks[0].span, []) == Parsed(Some(raw), 4, []);
    assert ParseExpr(toks, 0) == Parsed(Some(raw), 4, []);
    assert ParseFrom(toks, 4) == Program([], []);
    assert ParseFrom(toks, 0) == Program([raw], []);
  }

  // ---- compiling it ----------------------------------------------------------------------------------

  /** The operations of one operand that a literal can be given to. */
  predicate IsUnary(head: string, kind: Kind) {
    || (head == "repeat" && kind == Repeat) || (head == "light" && kind == Light) || (head == "wait" && kind == Wait)
    || (head == "turn-left" && kind == TurnLeft) || (head == "turn-right" && kind == TurnRight)
  }

  /** The literals that are written as symbols. */
  predicate IsNamedLiteral(word: string) {
    word == "true" || word == "false" || IsColor(word)
  }

  function NamedValue(word: string): Value {
    if IsColor(word) then ColorV(ColorCode(word)) else BoolV(word == "true")
  }

  /** The atom is a literal of that value, and one that the compiler lets the operation have. */
  predicate Takes(kind: Kind, raw: Raw, v: Value) {
    match raw
    case Int(_, i) =>
      && v == IntV(i)
      && (kind == Repeat ==> 0 <= i <= 100) && (kind == Wait ==> 0 <= i <= 10000)
      && (kind == TurnLeft || kind == TurnRight ==> 0 <= i <= 3600)
    case Sym(_, name) => IsNamedLiteral(name) && v == NamedValue(name)
    case List(_, _) => false
  }

  predicate IsOperation(n: Node, kind: Kind, v: Value) {
    && n.kind == kind && |n.args| == 1 && n.children == []
    && IsConstant(n.args[0]) && ConstantOf(n.args[0]) == v
  }

  lemma {:induction false} FormCompiles(raw: Raw, kind: Kind, v: Value) returns (root: Node)
    requires raw.List? && |raw.list| == 2 && raw.list[0].Sym? && IsUnary(raw.list[0].symbol, kind) && Takes(kind, raw.list[1], v)
    ensures Compiler.CompileProgram(Program([raw], [])) == Compiler.Result(Some(root), [])
    ensures IsOperation(root, kind, v)
  {
    var f := OperationForm(raw, kind, v);
    var literal := Compiler.CompileAtom(raw.list[1]);
    hide Compiler.Analyze, IsUnary, Takes;
    ArgCompiles(raw, kind, v);
    var node := Node(0, kind, raw.span, f.op, [literal], [], [], []);
    assert Compiler.CompileExpr(raw, map[], true) == Compiler.Compiled(Some(node), []);
    root := Compiler.Number(node, 0).0;
    NumberedOperation(node, kind, v);
    OneTop(raw, node);
  }

  lemma {:induction false} OperationForm(raw: Raw, kind: Kind, v: Value) returns (f: Compiler.Form)
    requires raw.List? && |raw.list| == 2 && raw.list[0].Sym? && IsUnary(raw.list[0].symbol, kind) && Takes(kind, raw.list[1], v)
    ensures f == Compiler.Analyze(raw, map[], true) && Highlightable(kind)
    ensures f.Accept? && f.kind == kind && f.a == 1 && f.b == 2 && f.c == 2 && f.params == [] && f.diags == []
    ensures raw.list[0].symbol != "do" && !Compiler.IsSignature(raw)
  {
    hide IsNamedLiteral, NamedValue;
    f := Compiler.Analyze(raw, map[], true);
  }

  lemma ArgCompiles(raw: Raw, kind: Kind, v: Value)
    requires raw.List? && |raw.list| == 2 && Takes(kind, raw.list[1], v)
    ensures var literal := Compiler.CompileAtom(raw.list[1]);
            && Compiler.CompileRange(raw, 1, 2, map[]) == Compiler.Listing([literal], [])
            && Compiler.CompileRange(raw, 2, 2, map[]) == Compiler.Listing([], [])
            && IsConstant(literal) && ConstantOf(literal) == v && literal.args == [] && literal.children == []
  {
    assert Compiler.CompileRange(raw, 2, 2, map[]) == Compiler.Listing([], []);
    assert Compiler.CompileExpr(raw.list[1], map[], false) == Compiler.Compiled(Some(Compiler.CompileAtom(raw.list[1])), []);
  }

  lemma NumberedOperation(n: Node, kind: Kind, v: Value)
    requires IsOperation(n, kind, v) && Highlightable(kind) && n.args[0].args == [] && n.args[0].children == []
    ensures IsOperation(Compiler.Number(n, 0).0, kind, v)
  {
    var literal := n.args[0];
    assert Compiler.NumberAll([], 1) == ([], 1);
    assert Compiler.Number(literal, 1) == (literal, 1);
    assert n.args == [literal] && [literal][1..] == [];
    assert Compiler.NumberAll(n.args, 1).0 == [literal];
  }

  lemma OneTop(raw: Raw, node: Node)
    requires raw.List? && |raw.list| == 2 && raw.list[0].Sym? && raw.list[0].symbol != "do" && !Compiler.IsSignature(raw)
    requires Compiler.CompileExpr(raw, map[], true) == Compiler.Compiled(Some(node), [])
    ensures Compiler.CompileProgram(Program([raw], [])) == Compiler.Result(Some(Compiler.Number(node, 0).0), [])
  {
    hide Compiler.CompileExpr, Compiler.Number;
    var tops := [raw];
    assert !Compiler.IsSingleDo([raw]) && Compiler.TopsOf([raw]) == tops;
    assert Compiler.CollectUpTo(tops, 0) == Compiler.Signatures(map[], []);
    assert Compiler.CollectUpTo(tops, 1) == Compiler.Signatures(map[], []);
    assert Compiler.CompileTops([], map[]) == Compiler.Listing([], []);
    assert tops[1..] == [];
    assert Compiler.CompileTops(tops, map[]) == Compiler.Listing([node], []);
  }

  /** The text of an operation and a literal compiles to the operation on the literal. */
  lemma {:induction false} OperationCompiles(head: string, kind: Kind, word: string, v: Value) returns (root: Node)
    requires IsUnary(head, kind) && IsPlainWord(word) && forall raw :: IsRead(raw, word) ==> Takes(kind, raw, v)
    ensures Compiler.Compile(FormText(head, word)) == Compiler.Result(Some(root), []) && IsOperation(root, kind, v)
  {
    HeadsAreHeads(head, kind);
    hide FormText, Parse, Compiler.CompileProgram, IsUnary, Takes, IsRead, IsPlainWord, IsHead;
    var raw := FormParses(head, word);
    root := FormCompiles(raw, kind, v);
  }

  lemma HeadsAreHeads(head: string, kind: Kind)
    requires IsUnary(head, kind)
    ensures IsHead(head)
  {
  }

  // ---- running it ------------------------------------------------------------------------------------

  /** No cancel, and a step to spend. */
  ghost predicate Undisturbed(host: Host, limits: Limits) {
    limits.maxTotalSteps > 0 && forall polls, trace :: !host.cancel(polls, trace)
  }

  /** The trace of a run whose root fails right after its start. */
  function FailingTrace(root: Node, fault: Fault): Trace {
    [ProgramStart, NodeStart(root), NodeError(root, fault), Act(StopMotors), ProgramError(RunFailed(fault))]
  }

  lemma {:induction false} EmptyRounds(w: World, n: Node, left: nat, m: Machine, sc: Scope)
    requires n.kind == Repeat && n.children == []
    ensures Run(w, n, Rounds(left, 0), m, sc) == Out(NoneV, m, sc)
  {
    hide Eval;
    if left > 0 { EmptyRounds(w, n, left - 1, m, sc); }
  }

  /** The machine when the root has started and its literal been read. */
  function Begun(n: Node): Machine {
    START.(polls := 2, steps := 1, trace := [ProgramStart, NodeStart(n)])
  }

  /** The start of the root, and what its literal makes of it. */
  lemma {:induction false} OperationRuns(w: World, n: Node, kind: Kind, head: string, v: Value)
    requires IsOperation(n, kind, v) && IsUnary(head, kind) && Undisturbed(w.host, w.limits)
    ensures Fits(n, Accept(n, [], v))
    ensures var r := Run(w, n, Accept(n, [], v), Begun(n), Top);
            Eval(w, n, START, Top) == if r.m.status.Running? then r.(m := r.m.(trace := r.m.trace + [NodeDone(n)])) else r
  {
    hide Run;
    var begun := START.(polls := 1, steps := 1, trace := [ProgramStart] + [NodeStart(n)]);
    LiteralIsRead(w, n, [], begun, Top);
    assert [ProgramStart] + [NodeStart(n)] == [ProgramStart, NodeStart(n)];
  }

  /** An operation that fails on its literal gives the failing trace. */
  lemma {:induction false} OperationFails(n: Node, kind: Kind, head: string, v: Value, host: Host, limits: Limits, fault: Fault)
    requires IsOperation(n, kind, v) && IsUnary(head, kind) && Undisturbed(host, limits)
    requires var w := World(host, limits, Functions(n)); Fits(n, Accept(n, [], v)) && Plan(w, n, Accept(n, [], v), Begun(n), Top) == Raise(fault)
    ensures Execute(host, limits, n).trace == FailingTrace(n, fault)
  {
    hide Functions, Run, Eval, IsOperation, Undisturbed, IsUnary, Accept, Plan;
    var w := World(host, limits, Functions(n));
    OperationRuns(w, n, kind, head, v);
    Raised(w, n, Accept(n, [], v), Begun(n), Top);
  }

  /** A program that is one repeat with a literal count compiles for every count up to 100. Undisturbed,
      it fails exactly if the count is over the run-time limit. */
  lemma {:induction false} RepeatPrograms(number: nat, host: Host, limits: Limits) returns (root: Node)
    requires number <= 100 && Undisturbed(host, limits)
    ensures RunSource(FormText("repeat", Json.Number(number)), host, limits).Ran?
    ensures IsOperation(root, Repeat, IntV(number))
    ensures RunSource(FormText("repeat", Json.Number(number)), host, limits).outcome.trace
         == if number > limits.maxRepeatCount then FailingTrace(root, RepeatLimit)
            else [ProgramStart, NodeStart(root), NodeDone(root), ProgramDone]
  {
    hide Functions, FormText, Compiler.Compile, Execute, IsOperation, Undisturbed, Json.Number, IsPlainWord, IsIntegerWord, SignedValue;
    NumberIsPlain(number);
    root := OperationCompiles("repeat", Repeat, Json.Number(number), IntV(number));
    RepeatTrace(root, number, host, limits);
  }

  lemma {:induction false} RepeatTrace(n: Node, number: nat, host: Host, limits: Limits)
    requires IsOperation(n, Repeat, IntV(number)) && Undisturbed(host, limits)
    ensures Execute(host, limits, n).trace
         == if number > limits.maxRepeatCount then FailingTrace(n, RepeatLimit)
            else [ProgramStart, NodeStart(n), NodeDone(n), ProgramDone]
  {
    hide Functions, Run, Eval, IsOperation, Undisturbed;
    var w := World(host, limits, Functions(n));
    RepeatGoes(w, n, number, Begun(n));
    OperationRuns(w, n, Repeat, "repeat", IntV(number));
  }

  lemma {:induction false} RepeatGoes(w: World, n: Node, number: nat, m: Machine)
    requires IsOperation(n, Repeat, IntV(number))
    ensures Fits(n, Accept(n, [], IntV(number)))
    ensures Run(w, n, Accept(n, [], IntV(number)), m, Top)
         == if number > w.limits.maxRepeatCount then Out(NoneV, FailAt(m, n, RepeatLimit), Top) else Out(NoneV, m, Top)
  {
    hide Eval;
    assert Accept(n, [], IntV(number)) == Operands([] + [IntV(number)]);
    if number <= w.limits.maxRepeatCount {
      assert Plan(w, n, Operands([] + [IntV(number)]), m, Top) == Perform(Nothing, Rounds(number, 0));
      EmptyRounds(w, n, number, m, Top);
    }
  }

  /** A program that is one light with an integer compiles, and always fails. */
  lemma {:induction false} LightPrograms(number: int, host: Host, limits: Limits) returns (root: Node)
    requires -MAX_INT64 <= number <= MAX_INT64 && Undisturbed(host, limits)
    ensures RunSource(FormText("light", Json.Number(number)), host, limits).Ran?
    ensures IsOperation(root, Light, IntV(number))
    ensures RunSource(FormText("light", Json.Number(number)), host, limits).outcome.trace == FailingTrace(root, ExpectedColor)
  {
    hide Functions, FormText, Compiler.Compile, Execute, Undisturbed, Json.Number, IsPlainWord, IsIntegerWord, SignedValue;
    NumberIsPlain(number);
    root := OperationCompiles("light", Light, Json.Number(number), IntV(number));
    OperationFails(root, Light, "light", IntV(number), host, limits, ExpectedColor);
  }

  /** A program that is one operation on an integer, given true, false or a colour instead, compiles, and
      always fails: (wait true), (repeat red), (turn-left false) and so on. */
  lemma {:induction false} MistypedPrograms(head: string, kind: Kind, word: string, host: Host, limits: Limits) returns (root: Node)
    requires IsUnary(head, kind) && kind != Light && IsNamedLiteral(word) && Undisturbed(host, limits)
    ensures RunSource(FormText(head, word), host, limits).Ran?
    ensures IsOperation(root, kind, NamedValue(word))
    ensures RunSource(FormText(head, word), host, limits).outcome.trace == FailingTrace(root, ExpectedInteger)
  {
    hide Functions, FormText, Compiler.Compile, Execute, Undisturbed, IsPlainWord, IsIntegerWord, SignedValue, IsNamedLiteral, IsColor, ColorCode;
    NamesArePlain(word);
    root := OperationCompiles(head, kind, word, NamedValue(word));
    OperationFails(root, kind, head, NamedValue(word), host, limits, ExpectedInteger);
  }

  lemma NamesArePlain(word: string)
    requires IsNamedLiteral(word)
    ensures IsPlainWord(word) && !IsIntegerWord(word)
  {
    assert word[0] == Digits(word)[0] && !IsDigit(word[0]);
  }

  /** One of them, from its text. */
  lemma {:induction false} WaitTrueFails(host: Host, limits: Limits) returns (root: Node)
    requires Undisturbed(host, limits)
    ensures RunSource("(wait true)", host, limits).Ran?
    ensures RunSource("(wait true)", host, limits).outcome.trace == FailingTrace(root, ExpectedInteger)
  {
    hide Undisturbed, RunSource;
    assert FormText("wait", "true") == "(wait true)";
    root := MistypedPrograms("wait", Wait, "true", host, limits);
  }

  // ---- integer literals in and out of range ---------------------------------------------------------

  /** The decimal text of a number is accepted exactly if the number lies in the symmetric range, which
      is one short of what 64 bits hold. */
  lemma NumbersInRange(src: string, o: nat, e: nat, number: int)
    requires o < e <= |src| && src[o..e] == Json.Number(number)
    ensures WordProblems(src, o, e) == if -MAX_INT64 <= number <= MAX_INT64 then [] else [Diagnostic(SpanOf(src, o, e), IntegerOutOfRange)]
  {
    EditorReads.NumberIsWord(number);
    hide Json.Number, Magnitude, SpanOf;
  }

  /** The least integer of 64 bits is rejected. */
  lemma LeastIntegerIsRejected()
    ensures var word := "-9223372036854775808";
            && IsIntegerWord(word) && SignedValue(word) == -0x8000_0000_0000_0000
            && WordProblems(word, 0, |word|) == [Diagnostic(SpanOf(word, 0, |word|), IntegerOutOfRange)]
  {
    LeastText();
    EditorReads.NumberIsWord(-0x8000_0000_0000_0000);
    hide Json.Number, WordProblems, SpanOf, SignedValue, IsIntegerWord;
    var word := "-9223372036854775808";
    assert word[0..|word|] == word;
    NumbersInRange(word, 0, |word|, -0x8000_0000_0000_0000);
  }

  lemma LeastText()
    ensures Json.Number(-0x8000_0000_0000_0000) == "-9223372036854775808"
  {
    hide Json.Decimal;
    LeastDigits();
    var digits := "9223372" + "036854" + "775808";
    assert digits == "9223372036854775808";
    assert "-" + digits == "-9223372036854775808";
  }

  lemma NextDigit(n: nat, k: nat)
    requires n > 0 && k < 10
    ensures Json.Decimal(10 * n + k) == Json.Decimal(n) + [Json.HEX[k]]
  {
    assert (10 * n + k) / 10 == n && (10 * n + k) % 10 == k;
  }

  /** Six more digits of a number. */
  lemma SixDigits(n: nat, a: nat, b: nat, c: nat, d: nat, e: nat, f: nat)
    requires n > 0 && a < 10 && b < 10 && c < 10 && d < 10 && e < 10 && f < 10
    ensures Json.Decimal(1000000 * n + 100000 * a + 10000 * b + 1000 * c + 100 * d + 10 * e + f)
         == Json.Decimal(n) + [Json.HEX[a], Json.HEX[b], Json.HEX[c], Json.HEX[d], Json.HEX[e], Json.HEX[f]]
  {
    hide Json.Decimal, Json.HEX;
    NextDigit(n, a);
    NextDigit(10 * n + a, b);
    NextDigit(100 * n + 10 * a + b, c);
    NextDigit(1000 * n + 100 * a + 10 * b + c, d);
    NextDigit(10000 * n + 1000 * a + 100 * b + 10 * c + d, e);
    NextDigit(100000 * n + 10000 * a + 1000 * b + 100 * c + 10 * d + e, f);
  }

  lemma LeastDigits()
    ensures Json.Decimal(9223372036854775808) == "9223372" + "036854" + "775808"
  {
    assert Json.Decimal(9) == [Json.HEX[9]];
    hide Json.Decimal;
    SixDigits(9, 2, 2, 3, 3, 7, 2);
    assert [Json.HEX[9]] + [Json.HEX[2], Json.HEX[2], Json.HEX[3], Json.HEX[3], Json.HEX[7], Json.HEX[2]] == "9223372";
    SixDigits(9223372, 0, 3, 6, 8, 5, 4);
    assert [Json.HEX[0], Json.HEX[3], Json.HEX[6], Json.HEX[8], Json.HEX[5], Json.HEX[4]] == "036854";
    SixDigits(9223372036854, 7, 7, 5, 8, 0, 8);
    assert [Json.HEX[7], Json.HEX[7], Json.HEX[5], Json.HEX[8], Json.HEX[0], Json.HEX[8]] == "775808";
  }
}
