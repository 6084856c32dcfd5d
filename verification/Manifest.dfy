// Which card a statement becomes, by the manifest of the editor written out as a table
// (app/cardcode-default.manifest.json:5-20; app/src/projection.js:1-149; app/tests/app.test.js:14-40).

module Manifest {
  import opened Lexer
  import opened BrowserParser
  import opened Editor
  import Json

  /** What a card holds: values alone, a target and its new value, values and then statements, a condition
      and two branches, a name and a value, or a signature and a body. */
  datatype Shape = Values | Assignment | Block | Branches | Variable | Function

  /** An entry of the manifest: the card, the form it stands for, how many values it has, and its shape. */
  datatype Entry = Entry(card: string, form: string, values: nat, shape: Shape)

  const TABLE := [
    Entry("control.do", "do", 0, Block),
    Entry("control.repeat", "repeat", 1, Block),
    Entry("control.when", "when", 1, Block),
    Entry("control.while", "while", 1, Block),
    Entry("control.if", "if", 1, Branches),
    Entry("binding.define-var", "define", 1, Variable),
    Entry("binding.define-func", "define", 0, Function),
    Entry("binding.set", "set!", 2, Assignment),
    Entry("robot.drive", "drive", 2, Values),
    Entry("robot.backward", "backward", 2, Values),
    Entry("robot.turn-left", "turn-left", 1, Values),
    Entry("robot.turn-right", "turn-right", 1, Values),
    Entry("robot.stop", "stop", 0, Values),
    Entry("robot.wait", "wait", 1, Values),
    Entry("robot.light", "light", 1, Values),
    Entry("robot.beep", "beep", 0, Values)]

  predicate IsName(js: Js) { js.JsAtom? && js.kind == SymbolAtom }

  /** A statement that an entry is about: its head is the form, and its elements are as many as the card holds,
      or at least so many. */
  predicate Matches(js: Js, e: Entry) {
    && js.JsList? && js.children != [] && IsName(js.children[0]) && js.children[0].raw == e.form
    && match e.shape
       case Values => |js.children| == 1 + e.values
       case Assignment => |js.children| == 3
       case Block => |js.children| >= 1 + e.values
       case Branches => |js.children| == 4
       case Variable => |js.children| == 3 && IsName(js.children[1])
       case Function =>
         && |js.children| >= 3 && js.children[1].JsList? && js.children[1].children != []
         && forall i :: 0 <= i < |js.children[1].children| ==> IsName(js.children[1].children[i])
  }

  /** The values are those of the elements after the head. */
  predicate AreValues(vals: seq<Val>, kids: seq<Js>) {
    && kids != [] && |vals| <= |kids| - 1
    && forall i :: 0 <= i < |vals| ==> vals[i] == ProjectValue(kids[i + 1])
  }

  /** The cards are those of the elements from `k` on, numbered from 1 under the card's own identifier. */
  predicate AreCards(cards: seq<Card>, kids: seq<Js>, k: nat, id: string) {
    && k <= |kids| && |cards| == |kids| - k
    && forall i :: 0 <= i < |cards| ==> cards[i] == ProjectStatement(kids[k + i], id + "-" + Json.Number(i + 1))
  }

  /** The card of an entry for a statement that it matches. */
  predicate IsCard(body: Body, e: Entry, js: Js, id: string)
    requires Matches(js, e)
  {
    var kids := js.children;
    match e.shape
    case Values => body.Simple? && body.form == e.form && |body.params| == e.values && AreValues(body.params, kids)
    case Assignment => body == Body.SetVar(ProjectValue(kids[1]), ProjectValue(kids[2]))
    case Block =>
      && body.Sequence? && body.form == e.form && |body.params| == e.values && AreValues(body.params, kids)
      && AreCards(body.children, kids, 1 + e.values, id)
    case Branches =>
      && body.IfCard? && body.condition == ProjectValue(kids[1])
      && body.thenCards == [ProjectStatement(kids[2], id + "-then-1")] && body.elseCards == [ProjectStatement(kids[3], id + "-else-1")]
    case Variable => body == Body.DefineVar(kids[1].raw, ProjectValue(kids[2]))
    case Function =>
      && body.DefineFunction? && body.name == kids[1].children[0].raw && |body.names| == |kids[1].children| - 1
      && (forall i :: 0 <= i < |body.names| ==> body.names[i] == kids[1].children[i + 1].raw)
      && AreCards(body.children, kids, 2, id)
  }

  /** The card of a statement that no entry matches: its head if that is a word, or else expr, and the values
      of the other elements. */
  predicate IsGeneric(body: Body, js: Js) {
    && body.Generic?
    && match js
       case JsAtom(_, _, _) => body.form == "expr" && body.params == [ProjectValue(js)]
       case JsList(_, kids) =>
         && body.form == (if kids != [] && IsName(kids[0]) then kids[0].raw else "expr")
         && if kids == [] then body.params == [] else |body.params| == |kids| - 1 && AreValues(body.params, kids)
  }

  // ---- values -----------------------------------------------------------------------------------------------

  const COLOUR_WORDS := ["off", "red", "green", "blue", "yellow", "white"]

  /** An atom that is a number up to 2^53 - 1 in size is that number, and a larger one its text; true and
      false are flags, the colours are texts, and any other word is a variable; a list is a call of its head. */
  lemma ValueIs(js: Js)
    ensures js.JsAtom? && js.kind == IntegerAtom ==>
              ProjectValue(js) == if IsIntegerWord(js.raw) && -9007199254740991 <= SignedValue(js.raw) <= 9007199254740991
                                  then NumberVal(SignedValue(js.raw)) else TextVal(js.raw)
    ensures js.JsAtom? && js.kind == SymbolAtom ==>
              ProjectValue(js) == if js.raw == "true" then FlagVal(true) else if js.raw == "false" then FlagVal(false)
                                  else if js.raw in COLOUR_WORDS then TextVal(js.raw) else VarVal(js.raw)
    ensures js.JsList? ==>
              var v := ProjectValue(js);
              && v.CallVal? && v.form == (if js.children != [] && js.children[0].JsAtom? then js.children[0].raw else "")
              && if js.children == [] then v.args == [] else |v.args| == |js.children| - 1 && AreValues(v.args, js.children)
  {
    if js.JsList? && js.children != [] { ValuesAre(js.children); }
    if js.JsAtom? { ColourWordsAre(js.raw); }
    hide IsIntegerWord, SignedValue, ProjectValues, COLOUR_WORDS;
  }

  lemma ColourWordsAre(w: string)
    ensures w in COLOUR_WORDS <==> IsReserved(w) && w != "true" && w != "false"
  {
  }

  lemma ValuesAre(kids: seq<Js>)
    requires kids != []
    ensures |ProjectValues(kids[1..])| == |kids| - 1 && AreValues(ProjectValues(kids[1..]), kids)
  {
    EachValue(kids[1..]);
    hide ProjectValue, ProjectValues;
  }

  lemma {:induction false} EachValue(jss: seq<Js>)
    ensures forall i :: 0 <= i < |jss| ==> ProjectValues(jss)[i] == ProjectValue(jss[i])
    decreases |jss|
  {
    hide ProjectValue;
    if jss != [] { EachValue(jss[1..]); }
  }

  // ---- statements ---------------------------------------------------------------------------------------------

  lemma {:induction false} EachCard(jss: seq<Js>, id: string, k: nat)
    ensures forall i :: 0 <= i < |jss| ==> ProjectStatements(jss, id, k)[i] == ProjectStatement(jss[i], id + "-" + Json.Number(k + i + 1))
    decreases |jss|
  {
    hide ProjectStatement, Json.Decimal;
    if jss != [] {
      EachCard(jss[1..], id, k + 1);
      var cards := ProjectStatements(jss, id, k);
      forall i | 0 <= i < |jss| ensures cards[i] == ProjectStatement(jss[i], id + "-" + Json.Number(k + i + 1)) {
        if i > 0 { assert cards[i] == ProjectStatements(jss[1..], id, k + 1)[i - 1]; }
      }
    }
  }

  lemma CardsAre(kids: seq<Js>, k: nat, id: string)
    requires k <= |kids|
    ensures AreCards(ProjectStatements(kids[k..], id, 0), kids, k, id)
  {
    EachCard(kids[k..], id, 0);
    hide ProjectStatement, ProjectStatements, Json.Number;
  }

  /** The top-level cards are card-1, card-2 and so on. */
  lemma ProgramIds(jss: seq<Js>)
    ensures AreCards(ProjectProgram(jss), jss, 0, "card")
  {
    CardsAre(jss, 0, "card");
    assert jss[0..] == jss;
    hide ProjectStatements, AreCards;
  }

  lemma {:induction false} EachRaw(jss: seq<Js>)
    requires forall i :: 0 <= i < |jss| ==> IsName(jss[i])
    ensures forall i :: 0 <= i < |jss| ==> IsName(jss[i]) && Raws(jss)[i] == jss[i].raw
  {
    if jss != [] { EachRaw(jss[1..]); }
  }

  lemma OfGeneric(js: Js)
    ensures IsGeneric(GenericBody(js), js)
  {
    if js.JsList? && js.children != [] { ValuesAre(js.children); }
    hide ProjectValue, ProjectValues, AreValues;
  }

  lemma ValuesEntry(e: Entry)
    requires e in TABLE && e.shape == Values
    ensures Arity(e.form) == e.values && e.form != "set!" && e.form != "define" && e.form != "do" && e.form != "repeat"
    ensures e.form != "when" && e.form != "while" && e.form != "if"
  {
    hide TABLE;
    ValuesForms(e);
    ArityIs(e.form);
    hide Arity;
  }

  lemma ArityIs(form: string)
    ensures form == "drive" || form == "backward" ==> Arity(form) == 2
    ensures form == "turn-left" || form == "turn-right" || form == "wait" || form == "light" ==> Arity(form) == 1
    ensures form == "stop" || form == "beep" ==> Arity(form) == 0
  {
  }

  lemma ValuesForms(e: Entry)
    requires e in TABLE && e.shape == Values
    ensures || ((e.form == "drive" || e.form == "backward") && e.values == 2)
            || ((e.form == "turn-left" || e.form == "turn-right" || e.form == "wait" || e.form == "light") && e.values == 1)
            || ((e.form == "stop" || e.form == "beep") && e.values == 0)
  {
  }

  lemma BlockEntry(e: Entry)
    requires e in TABLE && e.shape == Block
    ensures (e.form == "do" && e.values == 0) || ((e.form == "repeat" || e.form == "when" || e.form == "while") && e.values == 1)
  {
  }

  lemma OtherEntry(e: Entry)
    requires e in TABLE
    ensures e.shape == Assignment ==> e.form == "set!"
    ensures e.shape == Branches ==> e.form == "if"
    ensures e.shape == Variable || e.shape == Function ==> e.form == "define"
  {
  }

  lemma BlockIsCard(js: Js, e: Entry, id: string)
    requires e in TABLE && e.shape == Block && Matches(js, e)
    ensures IsCard(ProjectBody(js, id), e, js, id)
  {
    hide TABLE, ProjectValue, ProjectStatements, AreCards;
    BlockEntry(e);
    CardsAre(js.children, 1 + e.values, id);
  }

  lemma ValuesAreCard(js: Js, e: Entry, id: string)
    requires e in TABLE && e.shape == Values && Matches(js, e)
    ensures IsCard(ProjectBody(js, id), e, js, id)
  {
    ValuesEntry(e);
    ValuesAre(js.children);
    hide TABLE, ProjectValue, ProjectValues, Arity, AreValues;
  }

  lemma FunctionIsCard(js: Js, e: Entry, id: string)
    requires e in TABLE && e.shape == Function && Matches(js, e)
    ensures IsCard(ProjectBody(js, id), e, js, id)
  {
    hide TABLE, ProjectValue, ProjectValues, ProjectStatement, ProjectStatements, AreCards, Raws, Arity;
    OtherEntry(e);
    EachRaw(js.children[1].children[1..]);
    CardsAre(js.children, 2, id);
  }

  lemma VariableIsCard(js: Js, e: Entry, id: string)
    requires e in TABLE && e.shape == Variable && Matches(js, e)
    ensures IsCard(ProjectBody(js, id), e, js, id)
  {
    hide TABLE, ProjectValue, ProjectValues, ProjectStatement, ProjectStatements, AreCards, Raws, Arity;
    OtherEntry(e);
  }

  lemma MatchIsCard(js: Js, e: Entry, id: string)
    requires e in TABLE && Matches(js, e)
    ensures IsCard(ProjectBody(js, id), e, js, id) && !ProjectBody(js, id).Generic?
  {
    hide TABLE, AreCards, AreValues, ProjectValue, ProjectStatement, ProjectStatements;
    match e.shape
    case Values => ValuesAreCard(js, e, id);
    case Block => BlockIsCard(js, e, id);
    case Variable => VariableIsCard(js, e, id);
    case Function => FunctionIsCard(js, e, id);
    case _ => OtherEntry(e);
  }

  lemma InTable(k: nat)
    requires k < |TABLE|
    ensures TABLE[k] in TABLE
  {
  }

  /** Without an entry for it, a statement with a word as its head has the wrong number of elements. */
  lemma Unmatched(js: Js)
    requires js.JsList? && js.children != [] && IsName(js.children[0])
    requires forall k :: 0 <= k < |TABLE| ==> !Matches(js, TABLE[k])
    ensures var form, n := js.children[0].raw, |js.children|;
            && form != "do" && (form == "repeat" || form == "when" || form == "while" ==> n < 2)
            && (form == "if" ==> n != 4)
            && (form == "define" ==> !Matches(js, TABLE[5]) && !Matches(js, TABLE[6]))
            && n != Arity(form) + 1
  {
    assert !Matches(js, TABLE[0]) && !Matches(js, TABLE[1]) && !Matches(js, TABLE[2]) && !Matches(js, TABLE[3]);
    assert !Matches(js, TABLE[4]) && !Matches(js, TABLE[5]) && !Matches(js, TABLE[6]) && !Matches(js, TABLE[7]);
    assert !Matches(js, TABLE[8]) && !Matches(js, TABLE[9]) && !Matches(js, TABLE[10]) && !Matches(js, TABLE[11]);
    assert !Matches(js, TABLE[12]) && !Matches(js, TABLE[13]) && !Matches(js, TABLE[14]) && !Matches(js, TABLE[15]);
  }

  lemma UnmatchedDefine(js: Js, id: string)
    requires js.JsList? && js.children != [] && IsName(js.children[0]) && js.children[0].raw == "define"
    requires !Matches(js, TABLE[5]) && !Matches(js, TABLE[6])
    ensures ProjectDefine(js, id) == GenericBody(js)
  {
    hide GenericBody, ProjectValue, ProjectStatements, Raws;
  }

  /** The card of a statement is the one that the table says, with the values and cards of its elements in
      their order; and it is a generic one exactly if no entry of the table matches. */
  lemma {:induction false} StatementIsCard(js: Js, id: string)
    ensures forall e :: e in TABLE && Matches(js, e) ==> IsCard(ProjectBody(js, id), e, js, id)
    ensures ProjectBody(js, id).Generic? <==> forall e :: e in TABLE ==> !Matches(js, e)
    ensures ProjectBody(js, id).Generic? ==> IsGeneric(ProjectBody(js, id), js)
  {
    hide TABLE, Matches, IsCard, ProjectBody, IsGeneric;
    forall e | e in TABLE && Matches(js, e) ensures IsCard(ProjectBody(js, id), e, js, id) && !ProjectBody(js, id).Generic? {
      MatchIsCard(js, e, id);
    }
    if forall e :: e in TABLE ==> !Matches(js, e) {
      forall k | 0 <= k < |TABLE| ensures !Matches(js, TABLE[k]) { InTable(k); }
      Leftover(js, id);
      OfGeneric(js);
    }
  }

  lemma Leftover(js: Js, id: string)
    requires forall k :: 0 <= k < |TABLE| ==> !Matches(js, TABLE[k])
    ensures ProjectBody(js, id) == GenericBody(js) && GenericBody(js).Generic?
  {
    hide TABLE, Matches, Arity, ProjectValue, ProjectValues, ProjectStatement, ProjectStatements, ProjectDefine;
    if js.JsList? && js.children != [] && IsName(js.children[0]) {
      TableLength();
      Unmatched(js);
      if js.children[0].raw == "define" { UnmatchedDefine(js, id); }
    }
  }

  lemma TableLength()
    ensures |TABLE| == 16
  {
  }
}
