// Every card of a projected program has a span of its own in the generated text, and what
// stands there is exactly the text of that card.

module EditorSpans {
  import opened Ast
  import opened Source
  import opened BrowserParser
  import opened Editor
  import opened EditorWriter
  import Json
  import JsonRoundTrip

  /** A card and its indentation. The places of a program are listed as the cards are written. */
  type Place = (Card, nat)

  function CardPlaces(card: Card, indent: nat): seq<Place>
    decreases card, 2
  {
    [(card, indent)] + BodyPlaces(card.body, indent)
  }

  function BodyPlaces(body: Body, indent: nat): seq<Place>
    decreases body, 1
  {
    match body
    case Sequence(_, _, children) => LinesPlaces(children, indent + 1)
    case IfCard(_, thenCards, elseCards) => BranchPlaces(thenCards, indent + 1) + BranchPlaces(elseCards, indent + 1)
    case DefineFunction(_, _, children) => LinesPlaces(children, indent + 1)
    case _ => []
  }

  function BranchPlaces(cards: seq<Card>, indent: nat): seq<Place>
    decreases cards, 1
  {
    if |cards| == 1 then CardPlaces(cards[0], indent) else LinesPlaces(cards, indent + 1)
  }

  function LinesPlaces(cards: seq<Card>, indent: nat): seq<Place>
    decreases cards, 0
  {
    if cards == [] then [] else CardPlaces(cards[0], indent) + LinesPlaces(cards[1..], indent)
  }

  // ---- the recorded spans -----------------------------------------------------------------------------

  /** The card's text, from its indentation on, stands at the span. */
  ghost predicate Stands(src: string, span: Span, p: Place) {
    && span.startOffset <= span.endOffset <= |src|
    && span == SpanOf(src, span.startOffset, span.endOffset)
    && src[span.startOffset..span.endOffset] == CardText(p.0, p.1)
  }

  ghost predicate Found(src: string, span: Span, id: string, places: seq<Place>) {
    exists p :: p in places && p.0.id == id && Stands(src, span, p)
  }

  ghost predicate Right(src: string, marks: map<string, Span>, places: seq<Place>) {
    && (forall id <- marks :: Found(src, marks[id], id, places))
    && (forall p <- places :: p.0.id in marks)
  }

  lemma RightJoin(src: string, a: map<string, Span>, p: seq<Place>, b: map<string, Span>, q: seq<Place>)
    requires Right(src, a, p) && Right(src, b, q)
    ensures Right(src, a + b, p + q)
  {
    hide Stands;
    forall id <- a + b ensures Found(src, (a + b)[id], id, p + q) {
      if id in b { assert Found(src, b[id], id, q); } else { assert Found(src, a[id], id, p); }
    }
  }

  lemma RightPut(src: string, marks: map<string, Span>, places: seq<Place>, span: Span, p: Place)
    requires Right(src, marks, places) && Stands(src, span, p)
    ensures Right(src, marks[p.0.id := span], [p] + places)
  {
    hide Stands;
    var more := marks[p.0.id := span];
    forall id <- more ensures Found(src, more[id], id, [p] + places) {
      if id == p.0.id { assert p in [p] + places; } else { assert Found(src, marks[id], id, places); }
    }
  }

  lemma RightNone(src: string)
    ensures Right(src, map[], [])
  {
  }

  /** Positions do not depend on what follows. */
  lemma {:induction false} LineOfPrefix(src: string, s: string, o: nat)
    requires s <= src && o <= |s|
    ensures LineOf(s, o) == LineOf(src, o) && ColumnOf(s, o) == ColumnOf(src, o)
  {
    if o > 0 { LineOfPrefix(src, s, o - 1); }
  }

  lemma SpanStands(src: string, before: string, card: Card, indent: nat)
    requires before + CardText(card, indent) <= src
    ensures var s := before + CardText(card, indent); Stands(src, SpanOf(s, |before|, |s|), (card, indent))
  {
    hide LineOf, ColumnOf, CardText;
    var s := before + CardText(card, indent);
    LineOfPrefix(src, s, |before|);
    LineOfPrefix(src, s, |s|);
    assert src[|before|..|s|] == s[|before|..|s|];
  }

  lemma {:induction false} CardRight(src: string, card: Card, indent: nat, before: string)
    requires before + CardText(card, indent) <= src
    ensures Right(src, CardMarks(card, indent, before), CardPlaces(card, indent))
    decreases card, 2
  {
    hide *;
    CardOpens(card, indent, before);
    SpanStands(src, before, card, indent);
    BodyRight(src, card.body, indent, before);
    RightPut(src, BodyMarks(card.body, indent, before), BodyPlaces(card.body, indent),
             SpanOf(before + CardText(card, indent), |before|, |before + CardText(card, indent)|), (card, indent));
  }

  lemma CardOpens(card: Card, indent: nat, before: string)
    ensures CardText(card, indent) == BodyText(card.body, indent)
    ensures CardPlaces(card, indent) == [(card, indent)] + BodyPlaces(card.body, indent)
    ensures var s := before + CardText(card, indent);
            CardMarks(card, indent, before) == BodyMarks(card.body, indent, before)[card.id := SpanOf(s, |before|, |s|)]
  {
    hide BodyText, BodyMarks, BodyPlaces, LineOf, ColumnOf;
  }

  lemma {:induction false} BodyRight(src: string, body: Body, indent: nat, before: string)
    requires before + BodyText(body, indent) <= src
    ensures Right(src, BodyMarks(body, indent, before), BodyPlaces(body, indent))
    decreases body, 1
  {
    hide Right, BodyText, BodyMarks, BodyPlaces, Pad, Emit, EmitAll, Names, BranchText, LinesText;
    match body
    case Sequence(form, params, children) =>
      SequenceSteps(body, indent, before);
      LinesRight(src, children, indent + 1, before + (Pad(indent) + "(" + form + EmitAll(params)));
      SequencePlaces(body, indent);
    case DefineFunction(name, names, children) =>
      FunctionSteps(body, indent, before);
      LinesRight(src, children, indent + 1, before + (Pad(indent) + "(" + "define" + " " + ("(" + name + Names(names) + ")")));
      SequencePlaces(body, indent);
    case IfCard(condition, thenCards, elseCards) =>
      IfSteps(body, indent, before, map[]);
      var s := before + (Pad(indent) + "(" + "if" + " " + Emit(condition)) + "\n";
      var t := s + BranchText(thenCards, indent + 1) + "\n";
      Prefixes(s, BranchText(thenCards, indent + 1), "\n", BranchText(elseCards, indent + 1), ")", src);
      BranchRight(src, thenCards, indent + 1, s);
      BranchRight(src, elseCards, indent + 1, t);
      RightJoin(src, BranchMarks(thenCards, indent + 1, s), BranchPlaces(thenCards, indent + 1),
                BranchMarks(elseCards, indent + 1, t), BranchPlaces(elseCards, indent + 1));
      IfPlaces(body, indent);
      NoMarks(BodyMarks(body, indent, before));
      NoMarks(BranchMarks(thenCards, indent + 1, s));
    case _ =>
      RightNone(src);
      LinePlaces(body, indent, before);
  }

  lemma NoMarks(m: map<string, Span>)
    ensures map[] + m == m
  {
  }

  lemma Prefixes(s: string, a: string, sep: string, b: string, end: string, src: string)
    requires s + a + sep + b + end <= src
    ensures s + a <= src && s + a + sep + b <= src
  {
    assert s + a + sep + b + end == (s + a) + (sep + b + end);
    assert s + a + sep + b + end == (s + a + sep + b) + end;
  }

  lemma SequencePlaces(body: Body, indent: nat)
    requires body.Sequence? || body.DefineFunction?
    ensures BodyPlaces(body, indent) == LinesPlaces(body.children, indent + 1)
  {
  }

  lemma IfPlaces(body: Body, indent: nat)
    requires body.IfCard?
    ensures BodyPlaces(body, indent) == BranchPlaces(body.thenCards, indent + 1) + BranchPlaces(body.elseCards, indent + 1)
  {
  }

  lemma LinePlaces(body: Body, indent: nat, before: string)
    requires !body.Sequence? && !body.DefineFunction? && !body.IfCard?
    ensures BodyPlaces(body, indent) == [] && BodyMarks(body, indent, before) == map[]
  {
  }

  lemma {:induction false} BranchRight(src: string, cards: seq<Card>, indent: nat, before: string)
    requires before + BranchText(cards, indent) <= src
    ensures Right(src, BranchMarks(cards, indent, before), BranchPlaces(cards, indent))
    decreases cards, 1
  {
    BranchSteps(cards, indent, before, map[]);
    hide CardPlaces, LinesPlaces, Right, CardText, CardMarks, LinesMarks, LinesText, Pad, BranchMarks, BranchText;
    if |cards| == 1 {
      CardRight(src, cards[0], indent, before);
    } else {
      LinesRight(src, cards, indent + 1, before + (Pad(indent) + "(do"));
    }
  }

  lemma {:induction false} LinesRight(src: string, cards: seq<Card>, indent: nat, before: string)
    requires before + LinesText(cards, indent) <= src
    ensures Right(src, LinesMarks(cards, indent, before), LinesPlaces(cards, indent))
    decreases cards, 0
  {
    hide CardPlaces, Right, CardText, CardMarks;
    if cards == [] {
      RightNone(src);
    } else {
      var s := before + "\n";
      var text := CardText(cards[0], indent);
      assert before + LinesText(cards, indent) == s + text + LinesText(cards[1..], indent);
      assert s + text <= src;
      CardRight(src, cards[0], indent, s);
      LinesRight(src, cards[1..], indent, s + text);
      RightJoin(src, CardMarks(cards[0], indent, s), CardPlaces(cards[0], indent),
                LinesMarks(cards[1..], indent, s + text), LinesPlaces(cards[1..], indent));
    }
  }

  lemma {:induction false} ProgramRight(cards: seq<Card>)
    ensures Right(ProgramText(cards), ProgramMarks(cards), LinesPlaces(cards, 0))
  {
    hide CardPlaces, Right, CardText, CardMarks, LinesText, LinesMarks;
    var src := ProgramText(cards);
    if cards == [] {
      RightNone(src);
    } else {
      var text := CardText(cards[0], 0);
      assert "" + text == text;
      CardRight(src, cards[0], 0, "");
      LinesRight(src, cards[1..], 0, text);
      RightJoin(src, CardMarks(cards[0], 0, ""), CardPlaces(cards[0], 0), LinesMarks(cards[1..], 0, text), LinesPlaces(cards[1..], 0));
    }
  }

  // ---- the cards' names ----------------------------------------------------------------------------------

  /** The name itself, or a name below it. */
  predicate Under(id: string, base: string) { id == base || base + "-" <= id }

  predicate AllUnder(places: seq<Place>, base: string) { forall p <- places :: Under(p.0.id, base) }

  predicate AllBelow(places: seq<Place>, base: string) { forall p <- places :: base + "-" <= p.0.id }

  /** No two positions carry the same name. */
  predicate Distinct(places: seq<Place>) {
    forall i, j :: 0 <= i < j < |places| ==> places[i].0.id != places[j].0.id
  }

  lemma BelowUnder(id: string, base: string, step: string)
    requires Under(id, base + "-" + step)
    ensures base + "-" <= id
  {
    if id != base + "-" + step {
      assert id[..|base| + 1] == base + "-";
    }
  }

  lemma {:induction false} DecimalDiffers(i: nat, j: nat, id: string, base: string)
    requires Under(id, base + "-" + Json.Decimal(i)) && Under(id, base + "-" + Json.Decimal(j))
    ensures i == j
  {
    var a, b := Json.Decimal(i), Json.Decimal(j);
    JsonRoundTrip.DecimalReads(i);
    JsonRoundTrip.DecimalReads(j);
    hide Json.Decimal;
    var n := |base| + 1;
    StepOf(id, base, a);
    StepOf(id, base, b);
    NotLonger(id[n..], a, b);
    NotLonger(id[n..], b, a);
    assert a == id[n..][..|a|] == b;
  }

  /** Of two runs of digits at the start of a text, the one that a hyphen ends is no shorter. */
  lemma NotLonger(tail: string, a: string, b: string)
    requires |a| <= |tail| && tail[..|a|] == a && forall i :: 0 <= i < |a| ==> a[i] != '-'
    requires |b| < |tail| ==> tail[|b|] == '-'
    ensures |a| <= |b|
  {
    assert forall i :: 0 <= i < |a| ==> tail[..|a|][i] == tail[i];
  }

  /** A name under `base-step` continues, if at all, with a hyphen. */
  lemma StepOf(id: string, base: string, step: string)
    requires Under(id, base + "-" + step)
    ensures |base| + 1 + |step| <= |id| && id[|base| + 1..][..|step|] == step
    ensures |id| > |base| + 1 + |step| ==> id[|base| + 1..][|step|] == '-'
  {
    var n := |base| + 1;
    if id == base + "-" + step {
      assert id[n..] == step;
    } else {
      var whole := base + "-" + step + "-";
      assert id[..|whole|] == whole;
      forall k | 0 <= k < |step| + 1
        ensures id[n..][k] == (step + "-")[k]
      {
        assert id[n + k] == whole[n + k] == (step + "-")[k];
      }
      assert id[n..][..|step|] == step;
    }
  }

  lemma DistinctJoin(a: seq<Place>, b: seq<Place>)
    requires Distinct(a) && Distinct(b) && forall p <- a, q <- b :: p.0.id != q.0.id
    ensures Distinct(a + b)
  {
    forall i, j | 0 <= i < j < |a + b| ensures (a + b)[i].0.id != (a + b)[j].0.id {
      assert i < |a| ==> (a + b)[i] == a[i];
      assert j >= |a| ==> (a + b)[j] == b[j - |a|];
    }
  }

  lemma {:induction false} CardNames(js: Js, id: string, indent: nat)
    ensures var places := CardPlaces(ProjectStatement(js, id), indent); AllUnder(places, id) && Distinct(places)
    decreases js, 2
  {
    hide *;
    BodyNames(js, id, indent);
    CardOpens(ProjectStatement(js, id), indent, "");
    OwnName(js, id, indent);
  }

  lemma OwnName(js: Js, id: string, indent: nat)
    requires AllBelow(BodyPlaces(ProjectBody(js, id), indent), id) && Distinct(BodyPlaces(ProjectBody(js, id), indent))
    ensures var places := [(ProjectStatement(js, id), indent)] + BodyPlaces(ProjectStatement(js, id).body, indent);
            AllUnder(places, id) && Distinct(places)
  {
    hide ProjectBody, BodyPlaces;
    var places := BodyPlaces(ProjectBody(js, id), indent);
    forall q <- places ensures q.0.id != id { assert id + "-" <= q.0.id; }
    DistinctJoin([(ProjectStatement(js, id), indent)], places);
  }

  lemma {:induction false} BodyNames(js: Js, id: string, indent: nat)
    ensures var places := BodyPlaces(ProjectBody(js, id), indent); AllBelow(places, id) && Distinct(places)
    decreases js, 1
  {
    hide AllBelow, Distinct, LinesPlaces, BranchPlaces, ProjectValue, ProjectValues, ProjectStatements, ProjectStatement, GenericBody;
    NoNames(id);
    var body := ProjectBody(js, id);
    if body.Sequence? || body.DefineFunction? {
      SequencePlaces(body, indent);
      ChildrenOf(js, id);
      var n := if js.children[0].raw == "do" then 1 else 2;
      assert body.children == ProjectStatements(js.children[n..], id, 0);
      LinesNames(js.children[n..], id, 0, indent + 1);
    } else if body.IfCard? {
      IfBodyOf(js, id);
      IfPlaces(body, indent);
      CardNames(js.children[2], id + "-then-1", indent + 1);
      CardNames(js.children[3], id + "-else-1", indent + 1);
      IfNames(js, id, indent);
    } else {
      LinePlaces(body, indent, "");
    }
  }

  lemma NoNames(id: string)
    ensures AllBelow([], id) && Distinct([])
  {
  }

  lemma ChildrenOf(js: Js, id: string)
    requires ProjectBody(js, id).Sequence? || ProjectBody(js, id).DefineFunction?
    ensures js.JsList? && js.children != [] && js.children[0].JsAtom?
    ensures var n := if js.children[0].raw == "do" then 1 else 2;
            n <= |js.children| && ProjectBody(js, id).children == ProjectStatements(js.children[n..], id, 0)
  {
    hide ProjectValue, ProjectValues, ProjectStatements, ProjectStatement;
  }

  lemma IfBodyOf(js: Js, id: string)
    requires ProjectBody(js, id).IfCard?
    ensures js.JsList? && |js.children| == 4
    ensures ProjectBody(js, id).thenCards == [ProjectStatement(js.children[2], id + "-then-1")]
    ensures ProjectBody(js, id).elseCards == [ProjectStatement(js.children[3], id + "-else-1")]
  {
    hide ProjectValue, ProjectValues, ProjectStatements, ProjectStatement;
  }

  lemma {:induction false} IfNames(js: Js, id: string, indent: nat)
    requires js.JsList? && |js.children| == 4
    requires var a := CardPlaces(ProjectStatement(js.children[2], id + "-then-1"), indent + 1); AllUnder(a, id + "-then-1") && Distinct(a)
    requires var b := CardPlaces(ProjectStatement(js.children[3], id + "-else-1"), indent + 1); AllUnder(b, id + "-else-1") && Distinct(b)
    ensures var places := BranchPlaces([ProjectStatement(js.children[2], id + "-then-1")], indent + 1)
                          + BranchPlaces([ProjectStatement(js.children[3], id + "-else-1")], indent + 1);
            AllBelow(places, id) && Distinct(places)
  {
    hide CardPlaces, ProjectStatement, Under, LinesPlaces;
    var a := CardPlaces(ProjectStatement(js.children[2], id + "-then-1"), indent + 1);
    var b := CardPlaces(ProjectStatement(js.children[3], id + "-else-1"), indent + 1);
    assert "-" + "then-1" == "-then-1" && "-" + "else-1" == "-else-1";
    forall p <- a ensures id + "-" <= p.0.id && |p.0.id| > |id| + 1 && p.0.id[|id| + 1] == 't' { assert Under(p.0.id, id + "-then-1"); BranchName(p.0.id, id, "then-1"); }
    forall q <- b ensures id + "-" <= q.0.id && |q.0.id| > |id| + 1 && q.0.id[|id| + 1] == 'e' { assert Under(q.0.id, id + "-else-1"); BranchName(q.0.id, id, "else-1"); }
    DistinctJoin(a, b);
  }

  lemma BranchName(x: string, id: string, step: string)
    requires Under(x, id + ("-" + step)) && step != ""
    ensures id + "-" <= x && |x| > |id| + 1 && x[|id| + 1] == step[0]
  {
    assert id + ("-" + step) == id + "-" + step;
    BelowUnder(x, id, step);
    StepOf(x, id, step);
  }

  /** The statements numbered from `k` on under `id`. */
  ghost predicate NumberedFrom(x: string, id: string, k: nat) {
    exists j :: j > k && Under(x, id + "-" + Json.Decimal(j))
  }

  lemma {:induction false} LinesNames(jss: seq<Js>, id: string, k: nat, indent: nat)
    ensures var places := LinesPlaces(ProjectStatements(jss, id, k), indent);
            AllBelow(places, id) && Distinct(places) && forall p <- places :: NumberedFrom(p.0.id, id, k)
    decreases jss, 0
  {
    hide CardPlaces, ProjectStatement, Json.Decimal, Under;
    if jss != [] {
      var sub := id + "-" + Json.Decimal(k + 1);
      var a := CardPlaces(ProjectStatement(jss[0], sub), indent);
      var cards := ProjectStatements(jss, id, k);
      assert cards[0] == ProjectStatement(jss[0], sub) && cards[1..] == ProjectStatements(jss[1..], id, k + 1);
      CardNames(jss[0], sub, indent);
      LinesNames(jss[1..], id, k + 1, indent);
      var b := LinesPlaces(cards[1..], indent);
      forall p <- a
        ensures id + "-" <= p.0.id && NumberedFrom(p.0.id, id, k)
      {
        BelowUnder(p.0.id, id, Json.Decimal(k + 1));
      }
      forall q <- b
        ensures NumberedFrom(q.0.id, id, k)
      {
        assert NumberedFrom(q.0.id, id, k + 1);
      }
      forall p <- a, q <- b
        ensures p.0.id != q.0.id
      {
        if p.0.id == q.0.id {
          var j :| j > k + 1 && Under(q.0.id, id + "-" + Json.Decimal(j));
          DecimalDiffers(k + 1, j, q.0.id, id);
        }
      }
      DistinctJoin(a, b);
    }
  }

  /** Every card of a projected program has a span, and from its indentation on exactly its text
      stands there. */
  lemma {:induction false} SpansAreCardTexts(jss: seq<Js>, p: Place)
    requires p in LinesPlaces(ProjectProgram(jss), 0)
    ensures p.0.id in ProgramMarks(ProjectProgram(jss))
    ensures Stands(Round(jss), ProgramMarks(ProjectProgram(jss))[p.0.id], p)
  {
    hide ProgramText, ProgramMarks, LinesPlaces, Stands;
    var cards := ProjectProgram(jss);
    ProgramRight(cards);
    LinesNames(jss, "card", 0, 0);
    var q :| q in LinesPlaces(cards, 0) && q.0.id == p.0.id && Stands(ProgramText(cards), ProgramMarks(cards)[p.0.id], q);
  }
}
