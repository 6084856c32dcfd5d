// Which programs compile, and what is reported of the others: an account of the language by its
// own table of forms, argument counts and literal ranges, and the compiler's diagnostics shown to
// be exactly that (src/compiler.cpp:41-89, 91-319, 366-382, 391-448).

module Legality {
  import opened Ast
  import opened Source
  import opened Parser
  import opened Alphabet
  import opened Options
  import opened Compiler
  import opened Names
  import Lossless

  // ---- the table -----------------------------------------------------------------------------------------

  /** The kind of node, the least and the greatest number of arguments, and for the first arguments
      the range of a literal there with what is reported outside it. */
  datatype Row = Row(kind: Kind, least: nat, most: Option<nat>, ranges: seq<Range>)

  datatype Range = Range(lo: int, hi: int, problem: Problem)

  function RowOf(word: string): Option<Row> {
    match word
    case "do" => Some(Row(Do, 0, None, []))
    case "repeat" => Some(Row(Repeat, 1, None, [Range(0, 100, RepeatLiteral)]))
    case "when" => Some(Row(When, 1, None, []))
    case "if" => Some(Row(If, 3, Some(3), []))
    case "while" => Some(Row(While, 1, None, []))
    case "drive" => Some(Row(Drive, 2, Some(2), [Range(0, 100, SpeedLiteral), Range(0, 10000, DurationLiteral)]))
    case "backward" => Some(Row(Backward, 2, Some(2), [Range(0, 100, SpeedLiteral), Range(0, 10000, DurationLiteral)]))
    case "turn-left" => Some(Row(TurnLeft, 1, Some(1), [Range(0, 3600, DegreesLiteral)]))
    case "turn-right" => Some(Row(TurnRight, 1, Some(1), [Range(0, 3600, DegreesLiteral)]))
    case "stop" => Some(Row(Stop, 0, Some(0), []))
    case "wait" => Some(Row(Wait, 1, Some(1), [Range(0, 10000, DurationLiteral)]))
    case "light" => Some(Row(Light, 1, Some(1), []))
    case "beep" => Some(Row(Beep, 0, Some(0), []))
    case "distance-cm" => Some(Row(DistanceCm, 0, Some(0), []))
    case "button" => Some(Row(Button, 0, Some(0), []))
    case "line-left" => Some(Row(LineLeft, 0, Some(0), []))
    case "line-right" => Some(Row(LineRight, 0, Some(0), []))
    case "<" => Some(Row(Compare, 2, Some(2), []))
    case ">" => Some(Row(Compare, 2, Some(2), []))
    case "=" => Some(Row(Compare, 2, Some(2), []))
    case "<=" => Some(Row(Compare, 2, Some(2), []))
    case ">=" => Some(Row(Compare, 2, Some(2), []))
    case "and" => Some(Row(BooleanOp, 2, None, []))
    case "or" => Some(Row(BooleanOp, 2, None, []))
    case "not" => Some(Row(BooleanOp, 1, Some(1), []))
    case "+" => Some(Row(Arithmetic, 2, None, []))
    case "*" => Some(Row(Arithmetic, 2, None, []))
    case "-" => Some(Row(Arithmetic, 2, Some(2), []))
    case "/" => Some(Row(Arithmetic, 2, Some(2), []))
    case _ => None
  }

  predicate Fits(row: Row, argc: nat) {
    row.least <= argc && (row.most.Some? ==> argc <= row.most.value)
  }

  /** A word that no variable and no parameter can be. */
  predicate IsLiteralWord(word: string) { word in LITERALS }

  /** A word that no function can be. */
  predicate IsLanguageWord(word: string) {
    word in CONTROL || word in COMMANDS || word in SENSORS || word in OPERATORS || word in LITERALS
  }

  // ---- what is legal --------------------------------------------------------------------------------------

  predicate IsNameList(ps: seq<Raw>) {
    forall i :: 0 <= i < |ps| ==> ps[i].Sym? && !IsLiteralWord(ps[i].symbol)
  }

  predicate InRanges(ranges: seq<Range>, args: seq<Raw>) {
    forall i :: 0 <= i < |ranges| && i < |args| && args[i].Int? ==> ranges[i].lo <= args[i].value <= ranges[i].hi
  }

  /** The list as such is in order: its head, the number of its elements, its names and its literals. */
  predicate LegalForm(list: seq<Raw>, arity: Arity, top: bool)
    requires list != [] && list[0].Sym?
  {
    var word, argc := list[0].symbol, |list| - 1;
    if word == "define" then
      if argc >= 1 && list[1].List? then
        var head := list[1].list;
        top && head != [] && head[0].Sym? && !IsLanguageWord(head[0].symbol) && IsNameList(head[1..])
      else argc == 2 && list[1].Sym? && !IsLiteralWord(list[1].symbol)
    else if word == "set!" then argc == 2 && list[1].Sym? && !IsLiteralWord(list[1].symbol)
    else
      match RowOf(word)
      case Some(row) => Fits(row, argc) && InRanges(row.ranges, list[1..])
      case None => word in arity && argc == arity[word]
  }

  /** The first element that is an expression of its own: after the head, and after the name of a
      definition or assignment. */
  function FirstPart(list: seq<Raw>): nat
    requires list != [] && list[0].Sym?
  {
    if list[0].symbol == "define" || list[0].symbol == "set!" then 2 else 1
  }

  /** Atoms are legal; a list is if it has a symbol as its head, is in order, and its parts are legal. */
  predicate Legal(raw: Raw, arity: Arity, top: bool)
    decreases raw
  {
    raw.List? ==>
      && raw.list != [] && raw.list[0].Sym? && LegalForm(raw.list, arity, top)
      && forall i :: FirstPart(raw.list) <= i < |raw.list| ==> Legal(raw.list[i], arity, false)
  }

  // ---- what is reported of the others -------------------------------------------------------------------------

  datatype Verdict = Refused(diag: Diagnostic) | Passed(own: seq<Diagnostic>)

  function NameComplaint(p: Raw): seq<Diagnostic> {
    if !p.Sym? then [Diagnostic(p.span, ParameterName)]
    else if IsLiteralWord(p.symbol) then [Diagnostic(p.span, Problem.ReservedName)]
    else []
  }

  function NameComplaints(ps: seq<Raw>): seq<Diagnostic> {
    if ps == [] then [] else NameComplaint(ps[0]) + NameComplaints(ps[1..])
  }

  function RangeComplaints(ranges: seq<Range>, args: seq<Raw>): seq<Diagnostic> {
    if ranges == [] || args == [] then []
    else
      (if args[0].Int? && !(ranges[0].lo <= args[0].value <= ranges[0].hi) then [Diagnostic(args[0].span, ranges[0].problem)] else [])
      + RangeComplaints(ranges[1..], args[1..])
  }

  /** What is wrong with the list as such: one thing that drops it, or what its parts do not decide. */
  function Judge(raw: Raw, arity: Arity, top: bool): Verdict
    requires raw.List? && raw.list != [] && raw.list[0].Sym?
  {
    var list, word, argc := raw.list, raw.list[0].symbol, |raw.list| - 1;
    var miscounted := Refused(Diagnostic(raw.span, WrongArgumentCount));
    if word == "define" then
      if argc == 0 then miscounted
      else if list[1].List? then
        var target := list[1];
        if !top then Refused(Diagnostic(raw.span, NestedFunction))
        else if target.list == [] || !target.list[0].Sym? then Refused(Diagnostic(target.span, FunctionName))
        else if IsLanguageWord(target.list[0].symbol) then Refused(Diagnostic(target.list[0].span, BuiltinName))
        else Passed(NameComplaints(target.list[1..]))
      else if !list[1].Sym? then Refused(Diagnostic(list[1].span, ExpectedName))
      else if argc != 2 then miscounted
      else if IsLiteralWord(list[1].symbol) then Refused(Diagnostic(list[1].span, Problem.ReservedName))
      else Passed([])
    else if word == "set!" then
      if argc != 2 || !list[1].Sym? then Refused(Diagnostic(raw.span, ExpectedName))
      else if IsLiteralWord(list[1].symbol) then Refused(Diagnostic(list[1].span, Problem.ReservedName))
      else Passed([])
    else
      match RowOf(word)
      case Some(row) => if Fits(row, argc) then Passed(RangeComplaints(row.ranges, list[1..])) else miscounted
      case None =>
        if word !in arity then Refused(Diagnostic(list[0].span, UnknownFunction))
        else if argc != arity[word] then miscounted
        else Passed([])
  }

  /** All that is reported of an expression, in order: of the list itself, then of its parts. */
  function Complaints(raw: Raw, arity: Arity, top: bool): seq<Diagnostic>
    decreases raw, 1
  {
    if !raw.List? then []
    else if raw.list == [] then [Diagnostic(raw.span, EmptyList)]
    else if !raw.list[0].Sym? then [Diagnostic(raw.list[0].span, ExpectedOperation)]
    else
      match Judge(raw, arity, top)
      case Refused(diag) => [diag]
      case Passed(own) => own + PartComplaints(raw, FirstPart(raw.list), arity)
  }

  function PartComplaints(raw: Raw, i: nat, arity: Arity): seq<Diagnostic>
    requires raw.List?
    decreases raw, 0, |raw.list| - i
  {
    if i >= |raw.list| then [] else Complaints(raw.list[i], arity, false) + PartComplaints(raw, i + 1, arity)
  }

  // ---- nothing is reported exactly of what is legal -------------------------------------------------------------

  lemma {:induction false} NamesLegal(ps: seq<Raw>)
    ensures NameComplaints(ps) == [] <==> IsNameList(ps)
  {
    hide IsLiteralWord;
    if ps != [] {
      NamesLegal(ps[1..]);
      assert IsNameList(ps) <==> ps[0].Sym? && !IsLiteralWord(ps[0].symbol) && IsNameList(ps[1..]) by { assert ps == [ps[0]] + ps[1..]; }
    }
  }

  lemma {:induction false} RangesLegal(ranges: seq<Range>, args: seq<Raw>)
    ensures RangeComplaints(ranges, args) == [] <==> InRanges(ranges, args)
  {
    if ranges != [] && args != [] {
      RangesLegal(ranges[1..], args[1..]);
      assert ranges == [ranges[0]] + ranges[1..] && args == [args[0]] + args[1..];
      assert InRanges(ranges, args) ==> InRanges(ranges[1..], args[1..]) by {
        if InRanges(ranges, args) {
          forall i | 0 <= i < |ranges[1..]| && i < |args[1..]| && args[1..][i].Int? ensures ranges[1..][i].lo <= args[1..][i].value <= ranges[1..][i].hi {
            assert ranges[1..][i] == ranges[i + 1] && args[1..][i] == args[i + 1];
          }
        }
      }
    }
  }

  lemma {:induction false} FormLegal(raw: Raw, arity: Arity, top: bool)
    requires raw.List? && raw.list != [] && raw.list[0].Sym?
    ensures LegalForm(raw.list, arity, top) <==> Judge(raw, arity, top) == Passed([])
  {
    hide IsLiteralWord, IsLanguageWord, RowOf, NameComplaints, RangeComplaints, InRanges, IsNameList;
    var list := raw.list;
    if |list| > 1 && list[1].List? && list[1].list != [] { NamesLegal(list[1].list[1..]); }
    if RowOf(list[0].symbol).Some? { RangesLegal(RowOf(list[0].symbol).value.ranges, list[1..]); }
  }

  /** An expression is legal exactly if nothing is reported of it. */
  lemma {:induction false} LegalExactly(raw: Raw, arity: Arity, top: bool)
    ensures Legal(raw, arity, top) <==> Complaints(raw, arity, top) == []
    decreases raw, 1
  {
    hide Judge, LegalForm;
    if raw.List? && raw.list != [] && raw.list[0].Sym? {
      FormLegal(raw, arity, top);
      PartsLegal(raw, FirstPart(raw.list), arity);
    }
  }

  lemma {:induction false} PartsLegal(raw: Raw, i: nat, arity: Arity)
    requires raw.List?
    ensures PartComplaints(raw, i, arity) == [] <==> forall k :: i <= k < |raw.list| ==> Legal(raw.list[k], arity, false)
    decreases raw, 0, |raw.list| - i
  {
    hide Legal, Complaints;
    if i < |raw.list| {
      LegalExactly(raw.list[i], arity, false);
      PartsLegal(raw, i + 1, arity);
    }
  }

  // ---- the compiler reports exactly that ---------------------------------------------------------------------------

  lemma WordsAgree(word: string)
    ensures Names.IsReserved(word) <==> IsLiteralWord(word)
    ensures IsBuiltinName(word) <==> IsLanguageWord(word)
  {
    hide CONTROL, COMMANDS, SENSORS, OPERATORS, LITERALS;
    ControlWords(word);
    CommandWords(word);
    SensorWords(word);
    OperatorWords(word);
    LiteralWords(word);
    hide IsControl, IsCommandName, IsSensorName, IsComparison, IsBooleanOp, IsArithmetic, IsColor;
  }

  lemma ControlWords(word: string)
    ensures IsControl(word) <==> word in CONTROL
  {
  }

  lemma CommandWords(word: string)
    ensures IsCommandName(word) <==> word in COMMANDS
  {
  }

  lemma SensorWords(word: string)
    ensures IsSensorName(word) <==> word in SENSORS
  {
  }

  lemma OperatorWords(word: string)
    ensures IsComparison(word) || IsBooleanOp(word) || IsArithmetic(word) <==> word in OPERATORS
  {
  }

  lemma LiteralWords(word: string)
    ensures Names.IsReserved(word) <==> word in LITERALS
  {
  }

  lemma {:induction false} ComplaintsPush(ps: seq<Raw>, p: Raw)
    ensures NameComplaints(ps + [p]) == NameComplaints(ps) + NameComplaints([p])
  {
    hide NameComplaint;
    if ps == [] {
      assert ps + [p] == [p];
    } else {
      ComplaintsPush(ps[1..], p);
      assert (ps + [p])[1..] == ps[1..] + [p];
    }
  }

  lemma {:induction false} ParamsReported(ps: seq<Raw>)
    ensures ParamProblems(ps) == NameComplaints(ps)
  {
    hide Names.IsReserved, IsLiteralWord;
    if ps != [] {
      var init, p := ps[..|ps| - 1], ps[|ps| - 1];
      ParamsReported(init);
      ComplaintsPush(init, p);
      assert ps == init + [p];
      if p.Sym? { WordsAgree(p.symbol); }
      assert NameComplaints([p][1..]) == [];
    }
  }

  /** Which part of an accepted list is compiled as arguments and statements: all from the first part on. */
  predicate TakesParts(raw: Raw, f: Form)
    requires raw.List? && raw.list != [] && raw.list[0].Sym? && f.Accept?
  {
    var first := FirstPart(raw.list);
    (f.a == f.b && f.c == first) || (f.a == first && f.b == f.c)
  }

  lemma {:induction false} DefineJudged(raw: Raw, arity: Arity, top: bool)
    requires IsForm(raw) && raw.list[0].symbol == "define"
    ensures match Judge(raw, arity, top)
            case Refused(diag) => Analyze(raw, arity, top) == Reject(diag)
            case Passed(own) =>
              var f := Analyze(raw, arity, top);
              f.Accept? && f.diags == own && TakesParts(raw, f) && f.kind == if raw.list[1].List? then DefineFunc else DefineVar
  {
    hide Names.IsReserved, IsLiteralWord, IsBuiltinName, IsLanguageWord, ParamProblems, NameComplaints, RowOf, ParamsOf;
    if |raw.list| > 1 {
      var target := raw.list[1];
      if target.Sym? { WordsAgree(target.symbol); }
      if target.List? && target.list != [] {
        ParamsReported(target.list[1..]);
        if target.list[0].Sym? { WordsAgree(target.list[0].symbol); }
      }
    }
  }

  lemma {:induction false} SetJudged(raw: Raw, arity: Arity, top: bool)
    requires IsForm(raw) && raw.list[0].symbol == "set!"
    ensures match Judge(raw, arity, top)
            case Refused(diag) => Analyze(raw, arity, top) == Reject(diag)
            case Passed(own) => var f := Analyze(raw, arity, top); f.Accept? && f.diags == own && TakesParts(raw, f) && f.kind == SetVar
  {
    hide Names.IsReserved, IsLiteralWord, RowOf;
    if |raw.list| > 1 && raw.list[1].Sym? { WordsAgree(raw.list[1].symbol); }
  }

  /** The ranges of a row, for one or two arguments. */
  lemma RangesReported(ranges: seq<Range>, args: seq<Raw>)
    requires |args| >= |ranges| && |ranges| <= 2
    ensures RangeComplaints([], args) == []
    ensures |ranges| == 1 ==> RangeComplaints(ranges, args) == OutOfRange(args[0], ranges[0].lo, ranges[0].hi, ranges[0].problem)
    ensures |ranges| == 2 ==> RangeComplaints(ranges, args)
                              == OutOfRange(args[0], ranges[0].lo, ranges[0].hi, ranges[0].problem)
                               + OutOfRange(args[1], ranges[1].lo, ranges[1].hi, ranges[1].problem)
  {
    if |ranges| > 0 { assert RangeComplaints(ranges[1..], args[1..]) == if |ranges| == 1 then [] else RangeComplaints(ranges[1..], args[1..]); }
    if |ranges| == 2 { assert ranges[1..][0] == ranges[1] && args[1..][0] == args[1] && ranges[1..][1..] == []; }
  }

  /** The judgement of a form in the table is the compiler's. */
  predicate Judged(raw: Raw, arity: Arity, top: bool)
    requires IsForm(raw) && RowOf(raw.list[0].symbol).Some?
  {
    match Judge(raw, arity, top)
    case Refused(diag) => Analyze(raw, arity, top) == Reject(diag)
    case Passed(own) =>
      var f := Analyze(raw, arity, top);
      f.Accept? && f.diags == own && TakesParts(raw, f) && f.kind == RowOf(raw.list[0].symbol).value.kind
  }

  lemma {:induction false} RowJudged(raw: Raw, arity: Arity, top: bool)
    requires IsForm(raw) && raw.list[0].symbol != "define" && raw.list[0].symbol != "set!" && RowOf(raw.list[0].symbol).Some?
    ensures Judged(raw, arity, top)
  {
    hide Judged;
    var word := raw.list[0].symbol;
    if IsControl(word) { ControlJudged(raw, arity, top); }
    else if IsCommandName(word) { CommandJudged(raw, arity, top); }
    else if IsSensorName(word) { SensorJudged(raw, arity, top); }
    else { OperatorJudged(raw, arity, top); }
  }

  lemma {:induction false} ControlJudged(raw: Raw, arity: Arity, top: bool)
    requires IsForm(raw) && IsControl(raw.list[0].symbol) && raw.list[0].symbol != "define" && raw.list[0].symbol != "set!"
    ensures RowOf(raw.list[0].symbol).Some? && Judged(raw, arity, top)
  {
    hide OutOfRange, RangeComplaints, AnalyzeDefine;
    var row, args := RowOf(raw.list[0].symbol).value, raw.list[1..];
    if Fits(row, |args|) { RangesReported(row.ranges, args); }
  }

  lemma {:induction false} CommandJudged(raw: Raw, arity: Arity, top: bool)
    requires IsForm(raw) && IsCommandName(raw.list[0].symbol)
    ensures RowOf(raw.list[0].symbol).Some? && Judged(raw, arity, top)
  {
    CommandForms(raw, arity, top);
    hide OutOfRange, RangeComplaints, AnalyzeDefine, Analyze;
    var row, args := RowOf(raw.list[0].symbol).value, raw.list[1..];
    if Fits(row, |args|) { RangesReported(row.ranges, args); }
  }

  /** What the compiler makes of a command. */
  lemma CommandForms(raw: Raw, arity: Arity, top: bool)
    requires IsForm(raw) && IsCommandName(raw.list[0].symbol)
    ensures var kind, n := CommandKind(raw.list[0].symbol), |raw.list|;
            Analyze(raw, arity, top) == if n - 1 != CommandArity(kind) then Reject(Diagnostic(raw.span, WrongArgumentCount))
                                        else Accept(kind, raw.list[0].symbol, 1, n, n, [], CommandProblems(kind, raw.list))
  {
    hide CommandKind, CommandArity, CommandProblems, AnalyzeDefine;
  }

  lemma {:induction false} SensorJudged(raw: Raw, arity: Arity, top: bool)
    requires IsForm(raw) && IsSensorName(raw.list[0].symbol)
    ensures RowOf(raw.list[0].symbol).Some? && Judged(raw, arity, top)
  {
    hide OutOfRange, CommandProblems, AnalyzeDefine;
    RangesReported([], raw.list[1..]);
  }

  lemma {:induction false} OperatorJudged(raw: Raw, arity: Arity, top: bool)
    requires IsForm(raw) && RowOf(raw.list[0].symbol).Some?
    requires !IsControl(raw.list[0].symbol) && !IsCommandName(raw.list[0].symbol) && !IsSensorName(raw.list[0].symbol)
    ensures Judged(raw, arity, top)
  {
    OperatorForms(raw, arity, top);
    hide Analyze;
    RangesReported([], raw.list[1..]);
  }

  lemma OperatorForms(raw: Raw, arity: Arity, top: bool)
    requires IsForm(raw) && RowOf(raw.list[0].symbol).Some?
    requires !IsControl(raw.list[0].symbol) && !IsCommandName(raw.list[0].symbol) && !IsSensorName(raw.list[0].symbol)
    ensures var word, n := raw.list[0].symbol, |raw.list|;
            && (IsComparison(word) || IsBooleanOp(word) || IsArithmetic(word))
            && Analyze(raw, arity, top) == if !OperatorArity(word, n - 1) then Reject(Diagnostic(raw.span, WrongArgumentCount))
                                           else Accept(OperatorKind(word), word, 1, n, n, [], [])
  {
    hide OperatorArity, OperatorKind, AnalyzeDefine, CommandProblems, OutOfRange;
  }

  lemma {:induction false} CallJudged(raw: Raw, arity: Arity, top: bool)
    requires IsForm(raw) && raw.list[0].symbol != "define" && raw.list[0].symbol != "set!" && RowOf(raw.list[0].symbol).None?
    ensures match Judge(raw, arity, top)
            case Refused(diag) => Analyze(raw, arity, top) == Reject(diag)
            case Passed(own) => var f := Analyze(raw, arity, top); f.Accept? && f.diags == own && TakesParts(raw, f) && f.kind == Call
  {
  }

  /** What the kind of a legal form's node is. */
  function KindOf(list: seq<Raw>): Kind
    requires list != [] && list[0].Sym?
  {
    var word := list[0].symbol;
    if word == "define" then (if |list| > 1 && list[1].List? then DefineFunc else DefineVar)
    else if word == "set!" then SetVar
    else if RowOf(word).Some? then RowOf(word).value.kind
    else Call
  }

  lemma FormJudged(raw: Raw, arity: Arity, top: bool)
    requires IsForm(raw)
    ensures match Judge(raw, arity, top)
            case Refused(diag) => Analyze(raw, arity, top) == Reject(diag)
            case Passed(own) =>
              var f := Analyze(raw, arity, top);
              f.Accept? && f.diags == own && TakesParts(raw, f) && f.kind == KindOf(raw.list)
  {
    hide Judge, Analyze, RowOf, TakesParts;
    var word := raw.list[0].symbol;
    if word == "define" { DefineJudged(raw, arity, top); JudgesArgument(raw, arity, top); }
    else if word == "set!" { SetJudged(raw, arity, top); }
    else if RowOf(word).Some? { RowJudged(raw, arity, top); }
    else { CallJudged(raw, arity, top); }
  }

  lemma JudgesArgument(raw: Raw, arity: Arity, top: bool)
    requires IsForm(raw) && raw.list[0].symbol == "define"
    ensures Judge(raw, arity, top).Passed? ==> |raw.list| > 1
  {
    hide RowOf;
  }

  /** The diagnostics of an expression are exactly its complaints, and a legal form becomes a node of
      the kind in the table. */
  lemma {:induction false} ExactlyReported(raw: Raw, arity: Arity, top: bool)
    ensures CompileExpr(raw, arity, top).diags == Complaints(raw, arity, top)
    ensures raw.List? && Legal(raw, arity, top) ==>
              CompileExpr(raw, arity, top).node.Some? && CompileExpr(raw, arity, top).node.value.kind == KindOf(raw.list)
    decreases raw, 1
  {
    hide Judge, Analyze, KindOf, LegalForm, RowOf, CompileRange, PartComplaints;
    if IsForm(raw) && Judge(raw, arity, top).Passed? {
      PartsBegin(raw, arity, top);
      PartsReported(raw, FirstPart(raw.list), arity);
      PassedReported(raw, arity, top);
    } else if IsForm(raw) {
      FormJudged(raw, arity, top);
      LegalExactly(raw, arity, top);
    }
  }

  lemma PartsBegin(raw: Raw, arity: Arity, top: bool)
    requires IsForm(raw) && Judge(raw, arity, top).Passed?
    ensures FirstPart(raw.list) <= |raw.list|
  {
    hide Judge, Analyze, KindOf, CompileRange, CompileExpr, FirstPart;
    FormJudged(raw, arity, top);
    CompileForms(raw, arity, top);
    AllParts(raw, Analyze(raw, arity, top), arity);
  }

  lemma {:induction false} PassedReported(raw: Raw, arity: Arity, top: bool)
    requires IsForm(raw) && Judge(raw, arity, top).Passed? && FirstPart(raw.list) <= |raw.list|
    requires CompileRange(raw, FirstPart(raw.list), |raw.list|, arity).diags == PartComplaints(raw, FirstPart(raw.list), arity)
    ensures CompileExpr(raw, arity, top).diags == Complaints(raw, arity, top)
    ensures Legal(raw, arity, top) ==>
              CompileExpr(raw, arity, top).node.Some? && CompileExpr(raw, arity, top).node.value.kind == KindOf(raw.list)
  {
    hide Judge, Analyze, KindOf, Legal, RowOf, CompileRange, PartComplaints, FirstPart, CompileExpr;
    FormJudged(raw, arity, top);
    LegalExactly(raw, arity, top);
    CompileForms(raw, arity, top);
    var f := Analyze(raw, arity, top);
    AllParts(raw, f, arity);
    var args, children := CompileRange(raw, f.a, f.b, arity).diags, CompileRange(raw, f.c, |raw.list|, arity).diags;
    assert f.diags + args + children == f.diags + (args + children);
    if Legal(raw, arity, top) { Lossless.ExprReads(raw, arity, top); }
  }

  /** Arguments and statements together are the parts. */
  lemma AllParts(raw: Raw, f: Form, arity: Arity)
    requires IsForm(raw) && f.Accept? && TakesParts(raw, f) && f.a <= f.b <= |raw.list| && f.c <= |raw.list|
    ensures FirstPart(raw.list) <= |raw.list|
    ensures CompileRange(raw, f.a, f.b, arity).diags + CompileRange(raw, f.c, |raw.list|, arity).diags
         == CompileRange(raw, FirstPart(raw.list), |raw.list|, arity).diags
  {
    if f.a == f.b {
      RangeEnds(raw, f.a, arity);
    } else {
      RangeSplits(raw, f.a, f.b, arity);
    }
    hide CompileRange;
  }

  lemma {:induction false} RangeSplits(raw: Raw, i: nat, j: nat, arity: Arity)
    requires raw.List? && i <= j <= |raw.list|
    ensures CompileRange(raw, i, |raw.list|, arity).diags
         == CompileRange(raw, i, j, arity).diags + CompileRange(raw, j, |raw.list|, arity).diags
    decreases j - i
  {
    hide *;
    if i == j {
      RangeEnds(raw, i, arity);
      assert [] + CompileRange(raw, j, |raw.list|, arity).diags == CompileRange(raw, j, |raw.list|, arity).diags;
    } else {
      RangeSplits(raw, i + 1, j, arity);
      RangeBegins(raw, i, j, arity);
      RangeBegins(raw, i, |raw.list|, arity);
      var a, b, c := CompileExpr(raw.list[i], arity, false).diags, CompileRange(raw, i + 1, j, arity).diags, CompileRange(raw, j, |raw.list|, arity).diags;
      assert a + (b + c) == a + b + c;
    }
  }

  lemma RangeBegins(raw: Raw, i: nat, j: nat, arity: Arity)
    requires raw.List? && i < j <= |raw.list|
    ensures CompileRange(raw, i, j, arity).diags == CompileExpr(raw.list[i], arity, false).diags + CompileRange(raw, i + 1, j, arity).diags
  {
    hide CompileExpr;
  }

  lemma {:induction false} PartsReported(raw: Raw, i: nat, arity: Arity)
    requires raw.List? && i <= |raw.list|
    ensures CompileRange(raw, i, |raw.list|, arity).diags == PartComplaints(raw, i, arity)
    decreases raw, 0, |raw.list| - i
  {
    hide CompileExpr, Complaints, Legal;
    if i < |raw.list| {
      ExactlyReported(raw.list[i], arity, false);
      PartsReported(raw, i + 1, arity);
    }
  }

  /** An expression compiles without diagnostics exactly if it is legal. */
  lemma CompilesExactly(raw: Raw, arity: Arity, top: bool)
    ensures CompileExpr(raw, arity, top).diags == [] <==> Legal(raw, arity, top)
  {
    hide CompileExpr, Legal, Complaints;
    LegalExactly(raw, arity, top);
    ExactlyReported(raw, arity, top);
  }

  // ---- whole programs ---------------------------------------------------------------------------------------------

  predicate IsFunction(e: Raw) {
    && e.List? && |e.list| >= 2 && e.list[0].Sym? && e.list[0].symbol == "define"
    && e.list[1].List? && e.list[1].list != [] && e.list[1].list[0].Sym?
  }

  function DefinedName(e: Raw): string
    requires IsFunction(e)
  {
    e.list[1].list[0].symbol
  }

  /** The top-level expressions; a single do stands for its own elements. */
  function Statements(exprs: seq<Raw>): seq<Raw> {
    if |exprs| == 1 && exprs[0].List? && exprs[0].list != [] && exprs[0].list[0].Sym? && exprs[0].list[0].symbol == "do"
    then exprs[0].list[1..] else exprs
  }

  /** Statement `i` defines a function that no earlier one defines. */
  predicate DefinesFirst(tops: seq<Raw>, i: nat)
    requires i < |tops|
  {
    IsFunction(tops[i]) && forall j :: 0 <= j < i && IsFunction(tops[j]) ==> DefinedName(tops[j]) != DefinedName(tops[i])
  }

  /** The table has exactly the functions that the first `n` statements define, with the number of
      parameters of the first definition. */
  ghost predicate Declares(arity: Arity, tops: seq<Raw>, n: nat)
    requires n <= |tops|
  {
    && (forall name :: name in arity ==> exists i :: 0 <= i < n && DefinesFirst(tops, i) && DefinedName(tops[i]) == name)
    && (forall i :: 0 <= i < n && DefinesFirst(tops, i) ==>
          DefinedName(tops[i]) in arity && arity[DefinedName(tops[i])] == |tops[i].list[1].list| - 1)
  }

  /** Each definition of a function that an earlier statement defines, at its name. */
  function Repeated(tops: seq<Raw>, n: nat): seq<Diagnostic>
    requires n <= |tops|
  {
    if n == 0 then []
    else
      Repeated(tops, n - 1)
      + if IsFunction(tops[n - 1]) && !DefinesFirst(tops, n - 1) then [Diagnostic(tops[n - 1].list[1].list[0].span, DuplicateFunction)] else []
  }

  lemma {:induction false} DeclaredNames(arity: Arity, tops: seq<Raw>, n: nat)
    requires n <= |tops| && Declares(arity, tops, n)
    ensures forall i :: 0 <= i < n && IsFunction(tops[i]) ==> DefinedName(tops[i]) in arity
  {
    forall i | 0 <= i < n && IsFunction(tops[i]) ensures DefinedName(tops[i]) in arity {
      var k := FirstOfName(tops, i);
    }
  }

  lemma {:induction false} FirstOfName(tops: seq<Raw>, i: nat) returns (k: nat)
    requires i < |tops| && IsFunction(tops[i])
    ensures k <= i && DefinesFirst(tops, k) && DefinedName(tops[k]) == DefinedName(tops[i])
    decreases i
  {
    if DefinesFirst(tops, i) {
      k := i;
    } else {
      var j :| 0 <= j < i && IsFunction(tops[j]) && DefinedName(tops[j]) == DefinedName(tops[i]);
      k := FirstOfName(tops, j);
    }
  }

  lemma {:induction false} TableIsExact(tops: seq<Raw>, n: nat)
    requires n <= |tops|
    ensures var s := CollectUpTo(tops, n); Declares(s.arity, tops, n) && s.diags == Repeated(tops, n)
  {
    if n > 0 {
      TableIsExact(tops, n - 1);
      var s, e := CollectUpTo(tops, n - 1), tops[n - 1];
      DeclaredNames(s.arity, tops, n - 1);
      assert IsSignature(e) <==> IsFunction(e);
      if IsFunction(e) {
        assert DefinedName(e) in s.arity <==> !DefinesFirst(tops, n - 1);
      }
      DeclaresOn(s.arity, tops, n);
    }
  }

  lemma DeclaresOn(arity: Arity, tops: seq<Raw>, n: nat)
    requires 0 < n <= |tops| && Declares(arity, tops, n - 1)
    ensures var e := tops[n - 1];
            Declares(if DefinesFirst(tops, n - 1) then arity[DefinedName(e) := |e.list[1].list| - 1] else arity, tops, n)
  {
    var e := tops[n - 1];
    if DefinesFirst(tops, n - 1) {
      var more := arity[DefinedName(e) := |e.list[1].list| - 1];
      forall i | 0 <= i < n && DefinesFirst(tops, i)
        ensures DefinedName(tops[i]) in more && more[DefinedName(tops[i])] == |tops[i].list[1].list| - 1
      {
      }
      forall name | name in more ensures exists i :: 0 <= i < n && DefinesFirst(tops, i) && DefinedName(tops[i]) == name {
        if name == DefinedName(e) { assert DefinesFirst(tops, n - 1); }
      }
    }
  }

  function AllComplaints(tops: seq<Raw>, arity: Arity): seq<Diagnostic> {
    if tops == [] then [] else Complaints(tops[0], arity, true) + AllComplaints(tops[1..], arity)
  }

  lemma {:induction false} TopsReported(tops: seq<Raw>, arity: Arity)
    ensures CompileTops(tops, arity).diags == AllComplaints(tops, arity)
    ensures AllComplaints(tops, arity) == [] <==> forall i :: 0 <= i < |tops| ==> Legal(tops[i], arity, true)
  {
    hide CompileExpr, Complaints, Legal;
    if tops != [] {
      TopsReported(tops[1..], arity);
      ExactlyReported(tops[0], arity, true);
      LegalExactly(tops[0], arity, true);
      assert tops == [tops[0]] + tops[1..];
    }
  }

  /** What is reported of a program: what the lexer and parser report; then, if there is an expression
      at all, the repeated definitions and the complaints about each statement, in order. */
  lemma {:induction false} ProgramReported(src: string) returns (arity: Arity)
    ensures var p, tops := Parse(src), Statements(Parse(src).exprs);
            && Declares(arity, tops, |tops|)
            && Compile(src).diags == if p.exprs == [] then (if p.diags == [] then [Diagnostic(NO_SPAN, EmptyProgram)] else p.diags)
                                     else p.diags + Repeated(tops, |tops|) + AllComplaints(tops, arity)
  {
    hide CompileTops, CollectUpTo, AllComplaints, Repeated, Declares, Parse;
    var p := Parse(src);
    var tops := Statements(p.exprs);
    assert tops == TopsOf(p.exprs);
    TableIsExact(tops, |tops|);
    arity := CollectUpTo(tops, |tops|).arity;
    TopsReported(tops, arity);
  }

  /** Which programs compile: those of which the lexer and parser report nothing, that have an expression,
      define no function twice, and whose statements are all legal. */
  lemma {:induction false} CompilesExactlyWhenLegal(src: string) returns (arity: Arity)
    ensures var p, tops := Parse(src), Statements(Parse(src).exprs);
            && Declares(arity, tops, |tops|)
            && (Ok(Compile(src)) <==>
                  && p.diags == [] && p.exprs != []
                  && (forall i, j :: 0 <= i < j < |tops| && IsFunction(tops[i]) && IsFunction(tops[j]) ==> DefinedName(tops[i]) != DefinedName(tops[j]))
                  && (forall i :: 0 <= i < |tops| ==> Legal(tops[i], arity, true)))
  {
    hide CompileTops, CollectUpTo, Declares, Parse, Legal, AllComplaints;
    arity := ProgramReported(src);
    var p := Parse(src);
    var tops := Statements(p.exprs);
    TopsReported(tops, arity);
    NoneRepeated(tops, |tops|);
    if p.diags == [] && p.exprs != [] && Repeated(tops, |tops|) == [] && AllComplaints(tops, arity) == [] { HasRoot(src, arity); }
  }

  lemma {:induction false} NoneRepeated(tops: seq<Raw>, n: nat)
    requires n <= |tops|
    ensures Repeated(tops, n) == []
            <==> forall i, j :: 0 <= i < j < n && IsFunction(tops[i]) && IsFunction(tops[j]) ==> DefinedName(tops[i]) != DefinedName(tops[j])
  {
    if n > 0 { NoneRepeated(tops, n - 1); }
  }

  lemma {:induction false} HasRoot(src: string, arity: Arity)
    requires Parse(src).exprs != [] && Compile(src).diags == []
    ensures Compile(src).root.Some?
  {
    hide Parse, CollectUpTo, Number, CompileExpr;
    var p := Parse(src);
    var tops := TopsOf(p.exprs);
    var table := CollectUpTo(tops, |tops|).arity;
    if |p.exprs| == 1 && !IsSingleDo(p.exprs) {
      assert tops == p.exprs;
      assert CompileTops(tops, table).diags == [];
      Lossless.ExprReads(tops[0], table, true);
      OneTop(tops, table);
    }
  }

  lemma OneTop(tops: seq<Raw>, arity: Arity)
    requires |tops| == 1 && CompileTops(tops, arity).diags == []
    ensures CompileExpr(tops[0], arity, true).diags == []
    ensures CompileExpr(tops[0], arity, true).node.Some? ==> CompileTops(tops, arity).nodes != []
  {
    hide CompileExpr;
    var first, rest := CompileExpr(tops[0], arity, true), CompileTops(tops[1..], arity);
    assert |first.diags + rest.diags| == |first.diags| + |rest.diags|;
  }
}
