// The spans that the generator records and the spans that the editor's parser gives the same
// statements: they end together, and the recorded ones begin at the indentation.

module EditorPlaces {
  import Ast
  import opened Source
  import opened BrowserParser
  import opened Editor
  import opened EditorText
  import opened EditorReads
  import opened EditorWriter
  import opened EditorSpans
  import EditorTheorems
  import Json

  // ---- every opening parenthesis opens a list of the tree --------------------------------------------

  predicate NoComment(src: string) {
    forall i :: 0 <= i < |src| ==> src[i] != ';'
  }

  /** `y` is the tree or part of it. */
  predicate Has(js: Js, y: Js)
    decreases js
  {
    js == y || (js.JsList? && exists i :: 0 <= i < |js.children| && Has(js.children[i], y))
  }

  predicate HasAny(jss: seq<Js>, y: Js) {
    exists i :: 0 <= i < |jss| && Has(jss[i], y)
  }

  ghost predicate OpensIn(src: string, js: Js, s: nat)
    requires s <= |src|
  {
    exists y :: Has(js, y) && Reads(src, y, s)
  }

  ghost predicate Reads(src: string, y: Js, s: nat)
    requires s <= |src|
  {
    JsExpr(src, s).Ok? && JsExpr(src, s).value.0 == y
  }

  lemma {:induction false} SkipsBlanks(src: string, o: nat)
    requires o <= |src| && NoComment(src)
    ensures forall i :: o <= i < Skip(src, o) ==> src[i] != '('
    decreases |src| - o
  {
    if o < |src| && IsJsSpace(src[o]) { SkipsBlanks(src, o + 1); }
  }

  lemma {:induction false} AtomsHaveNoParen(src: string, o: nat)
    requires o <= |src|
    ensures forall i :: o <= i < AtomEnd(src, o) ==> src[i] != '('
  {
    AtomHasNoEnd(src, o);
    hide AtomEnd;
  }

  lemma {:induction false} ExprOpens(src: string, o: nat, s: nat)
    requires o <= |src| && NoComment(src) && JsExpr(src, o).Ok?
    requires o <= s < JsExpr(src, o).value.1 && src[s] == '('
    ensures OpensIn(src, JsExpr(src, o).value.0, s)
    decreases |src| - o, 2
  {
    hide NoComment, IsJsSpace, EndsAtom, OpensIn, Has, Reads, JsRest;
    var k := Skip(src, o);
    SkipsBlanks(src, o);
    SkipAgain(src, o);
    if src[k] == '(' {
      if s == k { OpensItself(src, o, k); } else { RestOpens(src, k + 1, k, [], s); }
    } else {
      AtomsHaveNoParen(src, k);
    }
  }

  lemma OpensItself(src: string, o: nat, k: nat)
    requires o <= |src| && Skip(src, o) == k && Skip(src, k) == k && JsExpr(src, o).Ok?
    ensures OpensIn(src, JsExpr(src, o).value.0, k)
  {
    var js := JsExpr(src, o).value.0;
    assert JsExpr(src, o) == JsExpr(src, k);
    hide JsExpr;
    assert Has(js, js) && Reads(src, js, k);
  }

  lemma {:induction false} RestOpens(src: string, o: nat, start: nat, kids: seq<Js>, s: nat)
    requires start < o <= |src| && NoComment(src) && JsRest(src, o, start, kids).Ok?
    requires o <= s < JsRest(src, o, start, kids).value.1 && src[s] == '('
    ensures OpensIn(src, JsRest(src, o, start, kids).value.0, s)
    decreases |src| - o, 3
  {
    hide NoComment, IsJsSpace, EndsAtom, OpensIn, Has, Reads, JsExpr, Skip;
    var k := Skip(src, o);
    SkipsBlanks(src, o);
    SkipAgain(src, o);
    if src[k] != ')' {
      var r := JsExpr(src, k).value;
      if s < r.1 {
        ExprOpens(src, k, s);
        RestKeeps(src, r.1, start, kids + [r.0]);
        PartOpens(src, JsRest(src, o, start, kids).value.0, |kids|, s);
      } else {
        RestOpens(src, r.1, start, kids + [r.0], s);
      }
    }
  }

  /** The children read so far stay where they are. */
  lemma {:induction false} RestKeeps(src: string, o: nat, start: nat, kids: seq<Js>)
    requires start < o <= |src| && JsRest(src, o, start, kids).Ok?
    ensures var js := JsRest(src, o, start, kids).value.0; js.JsList? && kids <= js.children
    decreases |src| - o
  {
    hide JsExpr, Skip;
    var k := Skip(src, o);
    SkipAgain(src, o);
    if src[k] != ')' {
      var r := JsExpr(src, k).value;
      RestKeeps(src, r.1, start, kids + [r.0]);
    }
  }

  lemma PartOpens(src: string, js: Js, i: nat, s: nat)
    requires s <= |src| && js.JsList? && i < |js.children| && OpensIn(src, js.children[i], s)
    ensures OpensIn(src, js, s)
  {
    hide Reads;
    var y :| Has(js.children[i], y) && Reads(src, y, s);
    assert Has(js, y);
  }

  lemma {:induction false} ProgramOpens(src: string, o: nat, s: nat)
    requires o <= |src| && NoComment(src) && JsProgram(src, o).Ok? && o <= s < |src| && src[s] == '('
    ensures exists y :: HasAny(JsProgram(src, o).value, y) && Reads(src, y, s)
    decreases |src| - o
  {
    hide NoComment, IsJsSpace, Has, Reads, JsExpr, Skip;
    var k := Skip(src, o);
    SkipsBlanks(src, o);
    SkipAgain(src, o);
    if k < |src| {
      var jss, r := JsProgram(src, o).value, JsExpr(src, k).value;
      var rest := JsProgram(src, r.1).value;
      assert jss == [r.0] + rest;
      if s < r.1 {
        ExprOpens(src, k, s);
        var y :| Has(r.0, y) && Reads(src, y, s);
        assert Has(jss[0], y);
      } else {
        ProgramOpens(src, r.1, s);
        var y :| HasAny(rest, y) && Reads(src, y, s);
        var i :| 0 <= i < |rest| && Has(rest[i], y);
        assert Has(jss[i + 1], y);
      }
    }
  }

  // ---- the span that the parser gives what it reads --------------------------------------------------

  lemma {:induction false} RestSpan(src: string, o: nat, start: nat, kids: seq<Js>)
    requires start < o <= |src| && JsRest(src, o, start, kids).Ok?
    ensures var r := JsRest(src, o, start, kids).value; r.0.span == SpanOf(src, start, r.1)
    decreases |src| - o
  {
    hide JsExpr, Skip, SpanOf;
    var k := Skip(src, o);
    SkipAgain(src, o);
    if src[k] != ')' {
      var r := JsExpr(src, k).value;
      RestSpan(src, r.1, start, kids + [r.0]);
    }
  }

  lemma ExprSpan(src: string, o: nat)
    requires o <= |src| && Skip(src, o) == o && JsExpr(src, o).Ok?
    ensures var r := JsExpr(src, o).value; r.0.span == SpanOf(src, o, r.1)
  {
    hide SpanOf, JsRest;
    if o < |src| && src[o] == '(' { RestSpan(src, o + 1, o, []); }
  }

  // ---- the statements behind the cards ---------------------------------------------------------------

  /** The card of a statement that the parser made. */
  ghost predicate IsStatementCard(card: Card) {
    exists js :: Parsed(js) && card == ProjectStatement(js, card.id)
  }

  ghost predicate AllStatementCards(places: seq<Place>) {
    forall i :: 0 <= i < |places| ==> IsStatementCard(places[i].0)
  }

  lemma AllJoin(a: seq<Place>, b: seq<Place>)
    requires AllStatementCards(a) && AllStatementCards(b)
    ensures AllStatementCards(a + b)
  {
    hide IsStatementCard;
  }

  lemma {:induction false} CardStatements(js: Js, id: string, indent: nat)
    requires Parsed(js)
    ensures AllStatementCards(CardPlaces(ProjectStatement(js, id), indent))
    decreases js, 2
  {
    hide AllStatementCards, Parsed, BodyPlaces, ProjectBody;
    var card := ProjectStatement(js, id);
    BodyStatements(js, id, indent);
    OneStatementCard(js, id, indent);
    AllJoin([(card, indent)], BodyPlaces(card.body, indent));
  }

  lemma OneStatementCard(js: Js, id: string, indent: nat)
    requires Parsed(js)
    ensures AllStatementCards([(ProjectStatement(js, id), indent)])
  {
    hide Parsed, ProjectBody;
    var card := ProjectStatement(js, id);
    assert IsStatementCard(card);
  }

  lemma {:induction false} BodyStatements(js: Js, id: string, indent: nat)
    requires Parsed(js)
    ensures AllStatementCards(BodyPlaces(ProjectBody(js, id), indent))
    decreases js, 1
  {
    hide AllStatementCards, LinesPlaces, BranchPlaces, CardPlaces, ProjectValue, ProjectValues, ProjectStatements, ProjectStatement, GenericBody, Parsed;
    var body := ProjectBody(js, id);
    if body.Sequence? || body.DefineFunction? {
      SequencePlaces(body, indent);
      ChildrenOf(js, id);
      var n := if js.children[0].raw == "do" then 1 else 2;
      KidsParsed(js);
      LinesStatements(js.children[n..], id, 0, indent + 1);
    } else if body.IfCard? {
      IfBodyOf(js, id);
      IfPlaces(body, indent);
      KidsParsed(js);
      CardStatements(js.children[2], id + "-then-1", indent + 1);
      CardStatements(js.children[3], id + "-else-1", indent + 1);
      OneBranch(ProjectStatement(js.children[2], id + "-then-1"), indent + 1);
      OneBranch(ProjectStatement(js.children[3], id + "-else-1"), indent + 1);
      AllJoin(BranchPlaces(body.thenCards, indent + 1), BranchPlaces(body.elseCards, indent + 1));
    } else {
      LinePlaces(body, indent, "");
      NoPlaces();
    }
  }

  lemma NoPlaces()
    ensures AllStatementCards([])
  {
  }

  lemma OneBranch(card: Card, indent: nat)
    ensures BranchPlaces([card], indent) == CardPlaces(card, indent)
  {
    hide CardPlaces, LinesPlaces;
  }

  lemma KidsParsed(js: Js)
    requires Parsed(js) && js.JsList?
    ensures AllParsed(js.children)
  {
  }

  lemma {:induction false} LinesStatements(jss: seq<Js>, id: string, k: nat, indent: nat)
    requires AllParsed(jss)
    ensures AllStatementCards(LinesPlaces(ProjectStatements(jss, id, k), indent))
    decreases jss, 0
  {
    hide AllStatementCards, CardPlaces, ProjectStatement, Parsed, Json.Decimal;
    if jss == [] {
      NoPlaces();
    } else {
      var sub := id + "-" + Json.Decimal(k + 1);
      var cards := ProjectStatements(jss, id, k);
      assert cards[0] == ProjectStatement(jss[0], sub) && cards[1..] == ProjectStatements(jss[1..], id, k + 1);
      CardStatements(jss[0], sub, indent);
      LinesStatements(jss[1..], id, k + 1, indent);
      AllJoin(CardPlaces(cards[0], indent), LinesPlaces(cards[1..], indent));
    }
  }

  // ---- the text has no comments ----------------------------------------------------------------------

  lemma WordNoComment(w: string)
    requires IsWord(w)
    ensures NoComment(w)
  {
  }

  lemma NoCommentJoin(a: string, b: string)
    requires NoComment(a) && NoComment(b)
    ensures NoComment(a + b)
  {
  }

  lemma {:induction false} ValueNoComment(f: Form)
    requires Lexical(f)
    ensures NoComment(ValueText(f))
    decreases f, 1
  {
    hide NoComment, IsWord, Settle;
    if f.Atom? {
      Settles(f.raw);
      WordNoComment(Settle(f.raw));
    } else {
      LexicalGroup(f);
      ValuesNoComment(GroupArgs(f));
      GroupParts(f);
      var head := GroupHead(f);
      if head == "" { MarksNoComment(); } else { WordNoComment(head); }
      MarksNoComment();
      NoCommentJoin(ValuesText(GroupArgs(f)), ")");
      NoCommentJoin(head, ValuesText(GroupArgs(f)) + ")");
      NoCommentJoin("(", head + (ValuesText(GroupArgs(f)) + ")"));
    }
  }

  lemma MarksNoComment()
    ensures NoComment("") && NoComment("(") && NoComment(")") && NoComment(" ") && NoComment("\n")
  {
  }

  lemma {:induction false} ValuesNoComment(fs: seq<Form>)
    requires AllLexical(fs)
    ensures NoComment(ValuesText(fs))
    decreases fs, 0
  {
    hide NoComment, Lexical, ValueText;
    MarksNoComment();
    if fs != [] {
      ValueNoComment(fs[0]);
      ValuesNoComment(fs[1..]);
      ValuesParts(fs);
      NoCommentJoin(ValueText(fs[0]), ValuesText(fs[1..]));
      NoCommentJoin(" ", ValueText(fs[0]) + ValuesText(fs[1..]));
    }
  }

  lemma {:induction false} StatementNoComment(f: Form, indent: nat)
    requires Lexical(f)
    ensures NoComment(StatementText(f, indent))
    decreases f, 1
  {
    hide *;
    var head, args, low := Stated(f)[0].raw, InlineArgs(f), Lower(f);
    StatedIsLexical(f);
    WordNoComment(head);
    ValuesNoComment(args);
    EditorTheorems.LowerIsLower(f);
    BelowNoComment(f, low, indent + 1);
    StatementParts(f, indent);
    MarksNoComment();
    var b := BelowText(low, indent + 1);
    NoCommentJoin(b, ")");
    NoCommentJoin(ValuesText(args), b + ")");
    NoCommentJoin(head, ValuesText(args) + (b + ")"));
    NoCommentJoin("(", head + (ValuesText(args) + (b + ")")));
  }

  lemma {:induction false} BelowNoComment(f: Form, fs: seq<Form>, indent: nat)
    requires AllLexical(fs) && forall i :: 0 <= i < |fs| ==> fs[i] < f
    ensures NoComment(BelowText(fs, indent))
    decreases f, 0, |fs|
  {
    hide NoComment, Lexical, StatementText, Pad;
    MarksNoComment();
    if fs != [] {
      StatementNoComment(fs[0], indent);
      BelowNoComment(f, fs[1..], indent);
      BelowParts(fs, indent);
      PadNoComment(indent);
      NoCommentJoin("\n", Pad(indent));
      NoCommentJoin(StatementText(fs[0], indent), BelowText(fs[1..], indent));
      NoCommentJoin("\n" + Pad(indent), StatementText(fs[0], indent) + BelowText(fs[1..], indent));
    }
  }

  lemma PadNoComment(indent: nat)
    ensures NoComment(Pad(indent))
  {
    PadIsBlank(indent);
    hide Pad;
  }

  lemma {:induction false} ProgramNoComment(jss: seq<Js>)
    requires AllParsed(jss)
    ensures NoComment(Round(jss))
  {
    hide *;
    ProgramWritten(jss);
    EditorTheorems.BaresLexical(jss);
    FormsNoComment(BareAll(jss));
  }

  lemma FormsNoComment(fs: seq<Form>)
    requires AllLexical(fs)
    ensures NoComment(FormsText(fs))
  {
    hide NoComment, Lexical, StatementText, BelowText;
    MarksNoComment();
    if fs != [] {
      StatementNoComment(fs[0], 0);
      BelowNoComment(Group(fs[1..]), fs[1..], 0);
      NoCommentJoin(StatementText(fs[0], 0), BelowText(fs[1..], 0));
    }
  }

  // ---- the theorem -----------------------------------------------------------------------------------

  /** The text of a card at its recorded span, read from the first character after the indentation. */
  lemma {:induction false} CardIsRead(src: string, span: Ast.Span, p: Place) returns (y: Js)
    requires IsStatementCard(p.0) && Stands(src, span, p)
    ensures var s := span.startOffset + 2 * p.1;
            && s < span.endOffset && src[s] == '(' && Reads(src, y, s) && y.span == SpanOf(src, s, span.endOffset)
  {
    hide *;
    var js := StatementOf(p.0);
    var f, s := Bare(js), span.startOffset + 2 * p.1;
    StatementWritten(js, p.0.id, p.1);
    PadIsBlank(p.1);
    StandsAt(src, span, p);
    AtSplit(src, span.startOffset, Pad(p.1), StatementText(f, p.1));
    BareIsLexical(js);
    y := StatementReads(src, s, f, p.1);
    StatementStands(src, s, f, p.1);
    ReadsIt(src, y, s, span.endOffset);
    ExprSpan(src, s);
  }

  lemma ReadsIt(src: string, y: Js, s: nat, e: nat)
    requires s <= |src| && JsExpr(src, s) == Ok((y, e))
    ensures Reads(src, y, s)
  {
  }

  lemma StatementOf(card: Card) returns (js: Js)
    requires IsStatementCard(card)
    ensures Parsed(js) && card == ProjectStatement(js, card.id)
  {
    js :| Parsed(js) && card == ProjectStatement(js, card.id);
  }

  lemma StandsAt(src: string, span: Ast.Span, p: Place)
    requires Stands(src, span, p)
    ensures At(src, span.startOffset, CardText(p.0, p.1)) && span.endOffset == span.startOffset + |CardText(p.0, p.1)|
  {
    hide CardText, SpanOf;
  }

  /** Recorded spans and parsed spans. When the generated text is parsed again, the tree has a list
      that begins 2 * d characters after the recorded start of each card at indentation d, and ends
      where the card does; so its span is the recorded one exactly at indentation 0. */
  lemma {:induction false} RecordedSpansAreIndented(src: string, p: Place) returns (jss: seq<Js>, again: seq<Js>, y: Js)
    requires JsProgram(src, 0).Ok?
    requires p in LinesPlaces(ProjectProgram(JsProgram(src, 0).value), 0)
    ensures JsProgram(src, 0) == Ok(jss) && JsProgram(Round(jss), 0) == Ok(again)
    ensures HasAny(again, y) && p.0.id in ProgramMarks(ProjectProgram(jss))
    ensures var span := ProgramMarks(ProjectProgram(jss))[p.0.id];
            && span.startOffset + 2 * p.1 < span.endOffset <= |Round(jss)|
            && y.span == SpanOf(Round(jss), span.startOffset + 2 * p.1, span.endOffset)
            && (y.span == span <==> p.1 == 0)
  {
    hide *;
    jss := JsProgram(src, 0).value;
    var text, cards := Round(jss), ProjectProgram(jss);
    ProgramIsParsed(src, 0);
    SpansAreCardTexts(jss, p);
    var span := ProgramMarks(cards)[p.0.id];
    StatementCardAt(jss, p);
    y := CardIsRead(text, span, p);
    EditorTheorems.BaresLexical(jss);
    ProgramWritten(jss);
    again := EditorTheorems.TreesLexical(BareAll(jss));
    ProgramNoComment(jss);
    SpanEnds(text, span, p);
    ProgramOpens(text, 0, span.startOffset + 2 * p.1);
    var z :| HasAny(again, z) && Reads(text, z, span.startOffset + 2 * p.1);
    OneReading(text, y, z, span.startOffset + 2 * p.1);
    SpansDiffer(text, span, p, y.span);
  }

  lemma StatementCardAt(jss: seq<Js>, p: Place)
    requires AllParsed(jss) && p in LinesPlaces(ProjectProgram(jss), 0)
    ensures IsStatementCard(p.0)
  {
    LinesStatements(jss, "card", 0, 0);
    hide LinesPlaces, IsStatementCard, ProjectStatements, Parsed;
  }

  lemma OneReading(src: string, y: Js, z: Js, s: nat)
    requires s <= |src| && Reads(src, y, s) && Reads(src, z, s)
    ensures y == z
  {
    hide JsExpr;
  }

  lemma SpanEnds(src: string, span: Ast.Span, p: Place)
    requires Stands(src, span, p)
    ensures span.endOffset <= |src| && span == SpanOf(src, span.startOffset, span.endOffset)
  {
    hide CardText, SpanOf;
  }

  lemma SpansDiffer(src: string, span: Ast.Span, p: Place, other: Ast.Span)
    requires span.startOffset + 2 * p.1 <= span.endOffset <= |src| && span == SpanOf(src, span.startOffset, span.endOffset)
    requires other == SpanOf(src, span.startOffset + 2 * p.1, span.endOffset)
    ensures other == span <==> p.1 == 0
  {
    hide LineOf, ColumnOf;
  }
}
