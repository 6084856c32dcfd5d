// The text generator of app/src/generator.js: a writer that appends the cards' text to its
// source, and records where each card's text stands.

module EditorWriter {
  import opened Ast
  import opened Source
  import opened BrowserParser
  import opened Editor

  // ---- the spans recorded -----------------------------------------------------------------------------

  /** The spans recorded while a card is written after `before`. */
  function CardMarks(card: Card, indent: nat, before: string): map<string, Span>
    decreases card, 2
  {
    var end := |before| + |CardText(card, indent)|;
    BodyMarks(card.body, indent, before)[card.id := SpanOf(before + CardText(card, indent), |before|, end)]
  }

  function BodyMarks(body: Body, indent: nat, before: string): map<string, Span>
    decreases body, 1
  {
    var open := before + Pad(indent) + "(";
    match body
    case Sequence(form, params, children) => LinesMarks(children, indent + 1, open + form + EmitAll(params))
    case IfCard(condition, thenCards, elseCards) =>
      var thenStart := open + "if" + " " + Emit(condition) + "\n";
      BranchMarks(thenCards, indent + 1, thenStart)
      + BranchMarks(elseCards, indent + 1, thenStart + BranchText(thenCards, indent + 1) + "\n")
    case DefineFunction(name, names, children) =>
      LinesMarks(children, indent + 1, open + "define" + " " + ("(" + name + Names(names) + ")"))
    case _ => map[]
  }

  function BranchMarks(cards: seq<Card>, indent: nat, before: string): map<string, Span>
    decreases cards, 1
  {
    if |cards| == 1 then CardMarks(cards[0], indent, before)
    else LinesMarks(cards, indent + 1, before + Pad(indent) + "(do")
  }

  function LinesMarks(cards: seq<Card>, indent: nat, before: string): map<string, Span>
    decreases cards, 0
  {
    if cards == [] then map[]
    else CardMarks(cards[0], indent, before + "\n") + LinesMarks(cards[1..], indent, before + "\n" + CardText(cards[0], indent))
  }

  function ProgramMarks(cards: seq<Card>): map<string, Span> {
    if cards == [] then map[]
    else CardMarks(cards[0], 0, "") + LinesMarks(cards[1..], 0, CardText(cards[0], 0))
  }

  // ---- the writer ----------------------------------------------------------------------------------------

  class Writer {
    var source: string
    var cardSpans: map<string, Span>

    constructor ()
      ensures source == "" && cardSpans == map[]
    {
      source, cardSpans := "", map[];
    }

    method Append(text: string)
      modifies this`source
      ensures source == old(source) + text
    {
      source := source + text;
    }

    method WriteCard(card: Card, indent: nat)
      modifies this
      ensures source == old(source) + CardText(card, indent)
      ensures cardSpans == old(cardSpans) + CardMarks(card, indent, old(source))
      decreases card, 3
    {
      hide BodyText, BodyMarks, Pad, Emit, EmitAll, Show, LineOf, ColumnOf;
      ghost var before := source;
      CardSteps(card, indent, before, cardSpans);
      var start := |source|;
      match card.body {
        case Sequence(_, _, _) => WriteSequence(card.body, indent);
        case IfCard(_, _, _) => WriteIf(card.body, indent);
        case DefineFunction(_, _, _) => WriteFunction(card.body, indent);
        case _ => WriteLine(card.body, indent);
      }
      var span := SpanFromOffsets(source, start, |source|);
      cardSpans := cardSpans[card.id := span];
    }

    /** The cards that are one line. */
    method WriteLine(body: Body, indent: nat)
      requires body.DefineVar? || body.SetVar? || body.Simple? || body.Generic?
      modifies this
      ensures source == old(source) + BodyText(body, indent)
      ensures cardSpans == old(cardSpans) + BodyMarks(body, indent, old(source))
    {
      hide Pad, Emit, EmitAll, Show;
      match body
      case DefineVar(name, value) => Append(Pad(indent) + "(" + ("define" + " " + name + " " + Emit(value)) + ")");
      case SetVar(target, value) => Append(Pad(indent) + "(" + ("set!" + " " + Show(target) + " " + Emit(value)) + ")");
      case Simple(form, params) => Append(Pad(indent) + "(" + (form + EmitAll(params)) + ")");
      case Generic(form, params) => Append(Pad(indent) + "(" + (form + EmitAll(params)) + ")");
    }

    method WriteSequence(body: Body, indent: nat)
      requires body.Sequence?
      modifies this
      ensures source == old(source) + BodyText(body, indent)
      ensures cardSpans == old(cardSpans) + BodyMarks(body, indent, old(source))
      decreases body, 2
    {
      hide *;
      ghost var before := source;
      SequenceSteps(body, indent, before);
      Append(Pad(indent) + "(" + body.form + EmitAll(body.params));
      WriteLines(body.children, indent + 1);
      Append(")");
    }

    /** The children of a card, each on a new line. */
    method WriteLines(cards: seq<Card>, indent: nat)
      modifies this
      ensures source == old(source) + LinesText(cards, indent)
      ensures cardSpans == old(cardSpans) + LinesMarks(cards, indent, old(source))
      decreases cards, 0
    {
      hide *;
      ghost var before, marks := source, cardSpans;
      var k := 0;
      assert cards[0..] == cards;
      while k < |cards|
        invariant k <= |cards|
        invariant source + LinesText(cards[k..], indent) == before + LinesText(cards, indent)
        invariant cardSpans + LinesMarks(cards[k..], indent, source) == marks + LinesMarks(cards, indent, before)
      {
        LinesStep(cards, k, indent, source, cardSpans);
        Append("\n");
        WriteCard(cards[k], indent);
        k := k + 1;
      }
      NoLines(cards, indent, source, cardSpans);
    }

    method WriteIf(body: Body, indent: nat)
      requires body.IfCard?
      modifies this
      ensures source == old(source) + BodyText(body, indent)
      ensures cardSpans == old(cardSpans) + BodyMarks(body, indent, old(source))
      decreases body, 2
    {
      hide *;
      IfSteps(body, indent, source, cardSpans);
      Append(Pad(indent) + "(" + "if" + " " + Emit(body.condition));
      Append("\n");
      WriteBranch(body.thenCards, indent + 1);
      Append("\n");
      WriteBranch(body.elseCards, indent + 1);
      Append(")");
    }

    method WriteBranch(cards: seq<Card>, indent: nat)
      modifies this
      ensures source == old(source) + BranchText(cards, indent)
      ensures cardSpans == old(cardSpans) + BranchMarks(cards, indent, old(source))
      decreases cards, 1
    {
      hide *;
      BranchSteps(cards, indent, source, cardSpans);
      if |cards| == 0 {
        Append(Pad(indent) + "(do)");
        return;
      }
      if |cards| == 1 {
        WriteCard(cards[0], indent);
        return;
      }
      Append(Pad(indent) + "(do");
      WriteLines(cards, indent + 1);
      Append(")");
    }

    method WriteFunction(body: Body, indent: nat)
      requires body.DefineFunction?
      modifies this
      ensures source == old(source) + BodyText(body, indent)
      ensures cardSpans == old(cardSpans) + BodyMarks(body, indent, old(source))
      decreases body, 2
    {
      hide *;
      FunctionSteps(body, indent, source);
      Append(Pad(indent) + "(" + "define" + " " + ("(" + body.name + Names(body.names) + ")"));
      WriteLines(body.children, indent + 1);
      Append(")");
    }
  }

  method GenerateProgram(cards: seq<Card>) returns (source: string, cardSpans: map<string, Span>)
    ensures source == ProgramText(cards) && cardSpans == ProgramMarks(cards)
  {
    hide *;
    var writer := new Writer();
    if cards != [] { ProgramSteps(cards); }
    for i := 0 to |cards|
      invariant i == 0 ==> writer.source == "" && writer.cardSpans == map[]
      invariant i > 0 ==> writer.source + LinesText(cards[i..], 0) == ProgramText(cards)
      invariant i > 0 ==> writer.cardSpans + LinesMarks(cards[i..], 0, writer.source) == ProgramMarks(cards)
    {
      LinesStep(cards, i, 0, writer.source, writer.cardSpans);
      if i > 0 { writer.Append("\n"); }
      writer.WriteCard(cards[i], 0);
    }
    NoLines(cards, 0, writer.source, writer.cardSpans);
    return writer.source, writer.cardSpans;
  }

  // ---- one step of the writing at a time -------------------------------------------------------------------

  lemma CardSteps(card: Card, indent: nat, before: string, marks: map<string, Span>)
    ensures CardText(card, indent) == BodyText(card.body, indent)
    ensures var s := before + BodyText(card.body, indent);
            (marks + BodyMarks(card.body, indent, before))[card.id := SpanOf(s, |before|, |s|)] == marks + CardMarks(card, indent, before)
  {
    hide BodyText, BodyMarks, LineOf, ColumnOf;
  }

  lemma SequenceSteps(body: Body, indent: nat, before: string)
    requires body.Sequence?
    ensures var open := Pad(indent) + "(" + body.form + EmitAll(body.params);
            && before + BodyText(body, indent) == before + open + LinesText(body.children, indent + 1) + ")"
            && BodyMarks(body, indent, before) == LinesMarks(body.children, indent + 1, before + open)
  {
    hide Pad, EmitAll, LinesText, LinesMarks;
    Regroup(before, Pad(indent), body.form, EmitAll(body.params), LinesText(body.children, indent + 1));
  }

  lemma Regroup(before: string, pad: string, form: string, args: string, lines: string)
    ensures before + pad + "(" + form + args == before + (pad + "(" + form + args)
    ensures before + (pad + "(" + (form + args + lines) + ")") == before + (pad + "(" + form + args) + lines + ")"
  {
  }

  lemma IfSteps(body: Body, indent: nat, before: string, marks: map<string, Span>)
    requires body.IfCard?
    ensures var open := Pad(indent) + "(" + "if" + " " + Emit(body.condition);
            var s := before + open + "\n";
            var t := s + BranchText(body.thenCards, indent + 1) + "\n";
            && before + BodyText(body, indent) == t + BranchText(body.elseCards, indent + 1) + ")"
            && marks + BodyMarks(body, indent, before)
               == marks + BranchMarks(body.thenCards, indent + 1, s) + BranchMarks(body.elseCards, indent + 1, t)
  {
    hide Pad, Emit, BranchText, BranchMarks;
    var s := before + (Pad(indent) + "(" + "if" + " " + Emit(body.condition)) + "\n";
    var t := s + BranchText(body.thenCards, indent + 1) + "\n";
    RegroupIf(before, Pad(indent), Emit(body.condition), BranchText(body.thenCards, indent + 1), BranchText(body.elseCards, indent + 1));
    var a, b := BranchMarks(body.thenCards, indent + 1, s), BranchMarks(body.elseCards, indent + 1, t);
    assert BodyMarks(body, indent, before) == a + b;
    assert marks + (a + b) == marks + a + b;
  }

  lemma RegroupIf(before: string, pad: string, c: string, a: string, b: string)
    ensures before + pad + "(" + "if" + " " + c + "\n" == before + (pad + "(" + "if" + " " + c) + "\n"
    ensures before + (pad + "(" + ("if" + " " + c + "\n" + a + "\n" + b) + ")")
         == before + (pad + "(" + "if" + " " + c) + "\n" + a + "\n" + b + ")"
  {
  }

  lemma BranchSteps(cards: seq<Card>, indent: nat, before: string, marks: map<string, Span>)
    ensures |cards| == 1 ==> BranchText(cards, indent) == CardText(cards[0], indent)
                             && BranchMarks(cards, indent, before) == CardMarks(cards[0], indent, before)
    ensures |cards| != 1 ==>
              && before + BranchText(cards, indent) == before + (Pad(indent) + "(do") + LinesText(cards, indent + 1) + ")"
              && BranchMarks(cards, indent, before) == LinesMarks(cards, indent + 1, before + (Pad(indent) + "(do"))
    ensures |cards| == 0 ==> before + BranchText(cards, indent) == before + (Pad(indent) + "(do)")
                             && marks + BranchMarks(cards, indent, before) == marks
  {
    hide Pad, CardText, CardMarks;
    assert before + Pad(indent) + "(do" == before + (Pad(indent) + "(do");
    assert |cards| == 0 ==> cards == [];
    if cards == [] {
      assert Pad(indent) + "(do" + "" + ")" == Pad(indent) + "(do)";
    }
  }

  lemma FunctionSteps(body: Body, indent: nat, before: string)
    requires body.DefineFunction?
    ensures var open := Pad(indent) + "(" + "define" + " " + ("(" + body.name + Names(body.names) + ")");
            && before + BodyText(body, indent) == before + open + LinesText(body.children, indent + 1) + ")"
            && BodyMarks(body, indent, before) == LinesMarks(body.children, indent + 1, before + open)
  {
    hide Pad, Names, LinesText, LinesMarks;
    var signature := "(" + body.name + Names(body.names) + ")";
    Regroup(before, Pad(indent), "define" + " ", signature, LinesText(body.children, indent + 1));
    assert Pad(indent) + "(" + ("define" + " ") + signature == Pad(indent) + "(" + "define" + " " + signature;
    assert before + Pad(indent) + "(" + ("define" + " ") + signature == before + Pad(indent) + "(" + "define" + " " + signature;
  }

  lemma LinesStep(cards: seq<Card>, k: nat, indent: nat, s: string, marks: map<string, Span>)
    requires k < |cards|
    ensures s + LinesText(cards[k..], indent) == s + "\n" + CardText(cards[k], indent) + LinesText(cards[k + 1..], indent)
    ensures marks + LinesMarks(cards[k..], indent, s)
         == marks + CardMarks(cards[k], indent, s + "\n") + LinesMarks(cards[k + 1..], indent, s + "\n" + CardText(cards[k], indent))
  {
    hide CardText, CardMarks;
    assert cards[k..][1..] == cards[k + 1..];
    var a, b := CardMarks(cards[k], indent, s + "\n"), LinesMarks(cards[k + 1..], indent, s + "\n" + CardText(cards[k], indent));
    assert marks + (a + b) == marks + a + b;
  }

  lemma NoLines(cards: seq<Card>, indent: nat, s: string, marks: map<string, Span>)
    ensures s + LinesText(cards[|cards|..], indent) == s && marks + LinesMarks(cards[|cards|..], indent, s) == marks
    ensures cards == [] ==> ProgramText(cards) == "" && ProgramMarks(cards) == map[]
  {
    assert cards[|cards|..] == [];
  }

  lemma ProgramSteps(cards: seq<Card>)
    requires cards != []
    ensures ProgramText(cards) == "" + CardText(cards[0], 0) + LinesText(cards[1..], 0)
    ensures ProgramMarks(cards) == map[] + CardMarks(cards[0], 0, "") + LinesMarks(cards[1..], 0, "" + CardText(cards[0], 0))
  {
    hide CardText, CardMarks, LinesText, LinesMarks;
    assert "" + CardText(cards[0], 0) == CardText(cards[0], 0);
  }
}
