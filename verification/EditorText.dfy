// What the editor's loop writes, said directly of the syntax tree that it read: the cards in
// between (app/src/projection.js, app/src/generator.js) come to that text.

module EditorText {
  import opened Lexer
  import opened BrowserParser
  import opened Editor
  import Json

  /** A syntax tree without its places. */
  datatype Form = Atom(raw: string) | Group(forms: seq<Form>)

  function Bare(js: Js): Form
    decreases js, 1
  {
    match js
    case JsAtom(_, _, raw) => Form.Atom(raw)
    case JsList(_, kids) => Group(BareAll(kids))
  }

  function BareAll(jss: seq<Js>): (forms: seq<Form>)
    ensures |forms| == |jss|
    ensures forall i :: 0 <= i < |jss| ==> forms[i] == Bare(jss[i])
    decreases jss, 0
  {
    if jss == [] then [] else [Bare(jss[0])] + BareAll(jss[1..])
  }

  /** Text that reads as one atom. */
  predicate IsWord(w: string) {
    w != "" && forall i :: 0 <= i < |w| ==> !EndsAtom(w[i])
  }

  predicate Lexical(f: Form)
    decreases f
  {
    match f
    case Atom(raw) => IsWord(raw)
    case Group(fs) => forall i :: 0 <= i < |fs| ==> Lexical(fs[i])
  }

  predicate AllLexical(fs: seq<Form>) {
    forall i :: 0 <= i < |fs| ==> Lexical(fs[i])
  }

  /** What the parser makes: atoms that are words, of the kind that their text has. */
  predicate Parsed(js: Js)
    decreases js
  {
    match js
    case JsAtom(_, kind, raw) => IsWord(raw) && (kind == IntegerAtom <==> IsIntegerWord(raw))
    case JsList(_, kids) => forall i :: 0 <= i < |kids| ==> Parsed(kids[i])
  }

  predicate AllParsed(jss: seq<Js>) {
    forall i :: 0 <= i < |jss| ==> Parsed(jss[i])
  }

  // ---- the text, directly ---------------------------------------------------------------------------

  /** The text that the loop settles an atom of a value on. */
  function Settle(raw: string): string {
    if IsSafe(raw) then Json.Number(SignedValue(raw)) else raw
  }

  predicate IsSymbolForm(f: Form) { f.Atom? && !IsIntegerWord(f.raw) }

  function ValueText(f: Form): string
    decreases f, 1
  {
    match f
    case Atom(raw) => Settle(raw)
    case Group(fs) =>
      "(" + (if fs != [] && fs[0].Atom? then fs[0].raw else "") + (if fs == [] then "" else ValuesText(fs[1..])) + ")"
  }

  function ValuesText(fs: seq<Form>): string
    decreases fs, 0
  {
    if fs == [] then "" else " " + ValueText(fs[0]) + ValuesText(fs[1..])
  }

  /** A name that set! prints as an object. */
  predicate Vanishes(f: Form) {
    f.Group? || (!IsIntegerWord(f.raw) && !IsReserved(f.raw))
  }

  predicate LosesTarget(fs: seq<Form>) {
    |fs| == 3 && fs[0] == Form.Atom("set!") && Vanishes(fs[1])
  }

  /** The list that a statement is printed as: it always has a symbol as its head. */
  function Stated(f: Form): (fs: seq<Form>)
    ensures fs != [] && fs[0].Atom? && IsSymbolForm(fs[0])
  {
    match f
    case Atom(raw) => [Form.Atom("expr"), f]
    case Group(fs) =>
      if fs == [] then [Form.Atom("expr")]
      else if !IsSymbolForm(fs[0]) then [Form.Atom("expr")] + fs[1..]
      else if LosesTarget(fs) then [fs[0], Form.Atom("[object"), Form.Atom("Object]"), fs[2]]
      else fs
  }

  predicate IsSignature(f: Form) {
    f.Group? && f.forms != [] && forall i :: 0 <= i < |f.forms| ==> IsSymbolForm(f.forms[i])
  }

  /** How many elements of a statement stay on its line; the others are statements themselves. */
  function Inline(fs: seq<Form>): (n: nat)
    requires fs != [] && fs[0].Atom?
    ensures 1 <= n <= |fs|
  {
    var form := fs[0].raw;
    if form == "do" then 1
    else if (form == "repeat" || form == "when" || form == "while") && |fs| >= 2 then 2
    else if form == "if" && |fs| == 4 then 2
    else if form == "define" && |fs| >= 3 && IsSignature(fs[1]) then 2
    else |fs|
  }

  /** A statement whose line is already indented by `indent`. */
  function StatementText(f: Form, indent: nat): string
    decreases f, 1
  {
    var fs := Stated(f);
    "(" + fs[0].raw + ValuesText(fs[1..Inline(fs)])
    + (if f.Group? && fs == f.forms then BelowText(f.forms[Inline(fs)..], indent + 1) else "") + ")"
  }

  function BelowText(fs: seq<Form>, indent: nat): string
    decreases fs, 0
  {
    if fs == [] then "" else "\n" + Pad(indent) + StatementText(fs[0], indent) + BelowText(fs[1..], indent)
  }

  function FormsText(fs: seq<Form>): string {
    if fs == [] then "" else StatementText(fs[0], 0) + BelowText(fs[1..], 0)
  }

  // ---- the cards' text is that text -----------------------------------------------------------------

  lemma {:induction false} ValueWritten(js: Js)
    requires Parsed(js)
    ensures Emit(ProjectValue(js)) == ValueText(Bare(js))
    decreases js, 1
  {
    hide IsIntegerWord, IsWord, Json.Number;
    if js.JsList? && js.children != [] {
      ValuesWritten(js.children[1..]);
      assert BareAll(js.children)[1..] == BareAll(js.children[1..]);
    }
  }

  lemma {:induction false} ValuesWritten(jss: seq<Js>)
    requires AllParsed(jss)
    ensures EmitAll(ProjectValues(jss)) == ValuesText(BareAll(jss))
    decreases jss, 0
  {
    hide Parsed;
    if jss != [] {
      ValueWritten(jss[0]);
      ValuesWritten(jss[1..]);
      assert ProjectValues(jss)[1..] == ProjectValues(jss[1..]);
      assert BareAll(jss)[1..] == BareAll(jss[1..]);
    }
  }

  lemma OneValue(js: Js)
    requires Parsed(js)
    ensures ValuesText(BareAll([js])) == " " + Emit(ProjectValue(js))
    ensures EmitAll([ProjectValue(js)]) == " " + Emit(ProjectValue(js))
  {
    hide Parsed, ValueText, Emit;
    ValueWritten(js);
    assert BareAll([js]) == [Bare(js)] && [Bare(js)][1..] == [];
  }

  lemma {:induction false} GenericValues(js: Js)
    requires Parsed(js)
    requires js.JsList? ==> !LosesTarget(BareAll(js.children))
    ensures GenericBody(js).form == Stated(Bare(js))[0].raw
    ensures EmitAll(GenericBody(js).params) == ValuesText(Stated(Bare(js))[1..])
  {
    hide IsIntegerWord, IsWord, LosesTarget, ProjectValue, ProjectValues;
    if js.JsAtom? {
      OneValue(js);
      assert Stated(Bare(js))[1..] == [Bare(js)];
    } else if js.children != [] {
      ParsedKid(js, 0);
      ValuesWritten(js.children[1..]);
      assert Stated(Bare(js))[1..] == BareAll(js.children[1..]);
    }
  }

  lemma {:induction false} GenericWritten(js: Js, indent: nat)
    requires Parsed(js)
    requires Inline(Stated(Bare(js))) == |Stated(Bare(js))|
    requires js.JsList? ==> !LosesTarget(BareAll(js.children))
    ensures BodyText(GenericBody(js), indent) == Pad(indent) + StatementText(Bare(js), indent)
  {
    GenericValues(js);
    GenericText(js, indent);
    AllInline(Bare(js), indent);
    hide *;
    Spliced(Pad(indent), Stated(Bare(js))[0].raw, ValuesText(Stated(Bare(js))[1..]), "");
  }

  lemma Spliced(pad: string, head: string, values: string, rest: string)
    ensures pad + "(" + (head + values + rest) + ")" == pad + ("(" + head + values + rest + ")")
    ensures head + values + "" == head + values
  {
  }

  lemma GenericText(js: Js, indent: nat)
    ensures GenericBody(js).Generic?
    ensures BodyText(GenericBody(js), indent) == Pad(indent) + "(" + (GenericBody(js).form + EmitAll(GenericBody(js).params)) + ")"
  {
    hide EmitAll, Pad;
  }

  lemma AllInline(f: Form, indent: nat)
    requires Inline(Stated(f)) == |Stated(f)|
    ensures StatementText(f, indent) == "(" + Stated(f)[0].raw + ValuesText(Stated(f)[1..]) + "" + ")"
  {
    hide Inline, Stated, ValuesText;
    assert Stated(f)[1..Inline(Stated(f))] == Stated(f)[1..];
  }

  /** What a statement with a symbol as its head is written as. */
  lemma {:induction false} Lined(js: Js, indent: nat)
    requires Parsed(js) && js.JsList? && js.children != [] && IsJsSymbol(js.children[0])
    requires !LosesTarget(BareAll(js.children))
    ensures var fs := BareAll(js.children); var n := Inline(fs);
            StatementText(Bare(js), indent)
            == "(" + js.children[0].raw + ValuesText(BareAll(js.children[1..n])) + BelowText(BareAll(js.children[n..]), indent + 1) + ")"
  {
    hide IsIntegerWord, IsWord, Inline, Vanishes;
    var fs := BareAll(js.children);
    assert Parsed(js.children[0]);
    var n := Inline(fs);
    assert fs[1..n] == BareAll(js.children[1..n]) && fs[n..] == BareAll(js.children[n..]);
  }

  lemma {:induction false} SetWritten(js: Js, id: string, indent: nat)
    requires Parsed(js) && js.JsList? && LosesTarget(BareAll(js.children))
    ensures BodyText(ProjectBody(js, id), indent) == Pad(indent) + StatementText(Bare(js), indent)
  {
    hide *;
    SetShown(js, id, indent);
    SetStated(js, indent);
    SetValue(js);
    SetSpliced(Pad(indent), "set!", "[object", "Object]", Emit(ProjectValue(js.children[2])));
  }

  lemma SetValue(js: Js)
    requires Parsed(js) && js.JsList? && LosesTarget(BareAll(js.children))
    ensures |js.children| == 3 && Emit(ProjectValue(js.children[2])) == ValueText(Bare(js.children[2]))
  {
    ParsedKid(js, 2);
    hide Parsed, ProjectValue, Emit, ValueText;
    ValueWritten(js.children[2]);
  }

  lemma SetShown(js: Js, id: string, indent: nat)
    requires Parsed(js) && js.JsList? && LosesTarget(BareAll(js.children))
    ensures |js.children| == 3
    ensures BodyText(ProjectBody(js, id), indent)
         == Pad(indent) + "(" + ("set!" + " " + ("[object" + " " + "Object]") + " " + Emit(ProjectValue(js.children[2]))) + ")"
  {
    hide Emit, ProjectBody, Show, ProjectValue, Pad, Parsed;
    SetProjected(js, id);
    ObjectWords();
  }

  lemma SetSpliced(pad: string, head: string, a: string, b: string, v: string)
    ensures pad + "(" + (head + " " + (a + " " + b) + " " + v) + ")"
         == pad + ("(" + head + (" " + a + (" " + b + (" " + v + ""))) + "" + ")")
  {
  }

  lemma ObjectWords()
    ensures "[object Object]" == "[object" + " " + "Object]"
    ensures !IsIntegerWord("[object") && !IsIntegerWord("Object]") && !IsIntegerWord("set!")
  {
    assert Digits("[object")[0] == '[';
    assert Digits("Object]")[0] == 'O';
    assert Digits("set!")[0] == 's';
  }

  lemma {:induction false} SetProjected(js: Js, id: string)
    requires Parsed(js) && js.JsList? && LosesTarget(BareAll(js.children))
    ensures ProjectBody(js, id) == Body.SetVar(ProjectValue(js.children[1]), ProjectValue(js.children[2]))
    ensures Show(ProjectValue(js.children[1])) == "[object Object]"
  {
    hide Emit, IsWord, EndsAtom, ProjectValues;
    var kids := js.children;
    assert Bare(kids[0]).raw == "set!";
    assert Digits("set!")[0] == 's';
    assert Parsed(kids[0]) && Parsed(kids[1]) && Bare(kids[1]) == BareAll(kids)[1];
  }

  lemma {:induction false} SetStated(js: Js, indent: nat)
    requires Parsed(js) && js.JsList? && LosesTarget(BareAll(js.children))
    ensures StatementText(Bare(js), indent)
         == "(" + "set!" + (" " + "[object" + (" " + "Object]" + (" " + ValueText(Bare(js.children[2])) + ""))) + "" + ")"
  {
    ObjectWords();
    hide Emit, ValueText, ProjectValue, Vanishes, IsIntegerWord, Parsed;
    var fs, o, t, f := Stated(Bare(js)), Form.Atom("[object"), Form.Atom("Object]"), Bare(js.children[2]);
    assert fs == [Form.Atom("set!"), o, t, f];
    assert fs[1..Inline(fs)] == [o, t, f];
    ObjectText(o, t, f);
    ShortAtom(o); ShortAtom(t);
  }

  lemma ShortAtom(f: Form)
    requires f.Atom? && !IsIntegerWord(f.raw)
    ensures ValueText(f) == f.raw
  {
  }

  lemma ParsedKid(js: Js, i: nat)
    requires Parsed(js) && js.JsList? && i < |js.children|
    ensures Parsed(js.children[i])
  {
  }

  lemma ObjectText(a: Form, b: Form, c: Form)
    ensures ValuesText([a, b, c]) == " " + ValueText(a) + (" " + ValueText(b) + (" " + ValueText(c) + ""))
  {
    hide ValueText;
    assert [a, b, c][1..] == [b, c] && [b, c][1..] == [c] && [c][1..] == [];
    assert ValuesText([c]) == " " + ValueText(c) + "";
    assert ValuesText([b, c]) == " " + ValueText(b) + ValuesText([c]);
  }

  // statements with a symbol as their head, by the card they become

  predicate Headed(js: Js) {
    Parsed(js) && js.JsList? && js.children != [] && IsJsSymbol(js.children[0]) && !LosesTarget(BareAll(js.children))
  }

  lemma HeadedFacts(js: Js)
    requires Headed(js)
    ensures AllParsed(js.children) && BareAll(js.children)[0] == Form.Atom(js.children[0].raw)
  {
  }

  lemma {:induction false} SequenceWritten(js: Js, id: string, indent: nat)
    requires Headed(js)
    requires var form := js.children[0].raw; form == "do" || form == "repeat" || form == "when" || form == "while"
    requires js.children[0].raw == "do" || |js.children| >= 2
    requires var n := Inline(BareAll(js.children));
             LinesText(ProjectStatements(js.children[n..], id, 0), indent + 1) == BelowText(BareAll(js.children[n..]), indent + 1)
    ensures BodyText(ProjectBody(js, id), indent) == Pad(indent) + StatementText(Bare(js), indent)
  {
    Lined(js, indent);
    HeadedFacts(js);
    hide Headed, Parsed, ProjectStatements, LinesText, BelowText, Pad, ProjectValue, ValuesText, StatementText, Emit;
    var kids := js.children;
    var n := Inline(BareAll(kids));
    ghost var lines := BelowText(BareAll(kids[n..]), indent + 1);
    if n == 2 {
      assert kids[1..2] == [kids[1]];
      OneValue(kids[1]);
      Spliced(Pad(indent), kids[0].raw, ValuesText(BareAll(kids[1..2])), lines);
    } else {
      assert kids[1..1] == [];
      Spliced(Pad(indent), kids[0].raw, "", lines);
      assert ValuesText(BareAll(kids[1..1])) == "" by { NoValues(); }
    }
  }

  lemma NoValues()
    ensures ValuesText(BareAll([])) == "" && EmitAll([]) == ""
  {
  }

  lemma {:induction false} IfWritten(js: Js, id: string, indent: nat)
    requires Headed(js) && js.children[0].raw == "if" && |js.children| == 4
    requires forall i, sub | i == 2 || i == 3 ::
               CardText(ProjectStatement(js.children[i], sub), indent + 1) == Pad(indent + 1) + StatementText(Bare(js.children[i]), indent + 1)
    ensures BodyText(ProjectBody(js, id), indent) == Pad(indent) + StatementText(Bare(js), indent)
  {
    HeadedFacts(js);
    var kids := js.children;
    IfText(js, id, indent);
    IfLined(js, indent);
    hide *;
    IfSpliced(Pad(indent), "if", Emit(ProjectValue(kids[1])),
              Pad(indent + 1) + StatementText(Bare(kids[2]), indent + 1), Pad(indent + 1) + StatementText(Bare(kids[3]), indent + 1));
  }

  lemma IfText(js: Js, id: string, indent: nat)
    requires Headed(js) && js.children[0].raw == "if" && |js.children| == 4
    ensures BodyText(ProjectBody(js, id), indent)
         == Pad(indent) + "(" + ("if" + " " + Emit(ProjectValue(js.children[1]))
                                 + "\n" + CardText(ProjectStatement(js.children[2], id + "-then-1"), indent + 1)
                                 + "\n" + CardText(ProjectStatement(js.children[3], id + "-else-1"), indent + 1)) + ")"
  {
    hide Pad, CardText, ProjectStatement, Emit, ProjectValue, Parsed, LosesTarget;
  }

  lemma IfLined(js: Js, indent: nat)
    requires Headed(js) && js.children[0].raw == "if" && |js.children| == 4
    ensures StatementText(Bare(js), indent)
         == "(" + "if" + (" " + Emit(ProjectValue(js.children[1])))
            + ("\n" + (Pad(indent + 1) + StatementText(Bare(js.children[2]), indent + 1))
               + ("\n" + (Pad(indent + 1) + StatementText(Bare(js.children[3]), indent + 1)) + "")) + ")"
  {
    Lined(js, indent);
    HeadedFacts(js);
    hide Headed, Parsed, Pad, ProjectValue, ValuesText, StatementText, Emit, BelowText;
    var kids := js.children;
    assert Inline(BareAll(kids)) == 2;
    assert kids[1..2] == [kids[1]] && kids[2..] == [kids[2], kids[3]];
    OneValue(kids[1]);
    TwoBelow(kids[2], kids[3], indent + 1);
  }

  lemma IfSpliced(pad: string, head: string, v: string, a: string, b: string)
    ensures pad + "(" + (head + " " + v + "\n" + a + "\n" + b) + ")" == pad + ("(" + head + (" " + v) + ("\n" + a + ("\n" + b + "")) + ")")
  {
  }

  lemma TwoBelow(a: Js, b: Js, indent: nat)
    ensures BelowText(BareAll([a, b]), indent)
         == "\n" + (Pad(indent) + StatementText(Bare(a), indent)) + ("\n" + (Pad(indent) + StatementText(Bare(b), indent)) + "")
  {
    hide Pad, StatementText, Bare;
    assert BareAll([a, b]) == [Bare(a), Bare(b)] && [Bare(a), Bare(b)][1..] == [Bare(b)];
    assert BelowText([Bare(b)], indent) == "\n" + Pad(indent) + StatementText(Bare(b), indent) + "";
  }

  lemma {:induction false} NamesWritten(jss: seq<Js>)
    requires forall i :: 0 <= i < |jss| ==> Parsed(jss[i]) && IsJsSymbol(jss[i])
    ensures ValuesText(BareAll(jss)) == Names(Raws(jss))
  {
    hide IsIntegerWord, IsWord;
    if jss != [] {
      NamesWritten(jss[1..]);
      assert Parsed(jss[0]) && IsJsSymbol(jss[0]);
      assert BareAll(jss)[1..] == BareAll(jss[1..]) && Raws(jss)[1..] == Raws(jss[1..]);
      ShortAtom(Bare(jss[0]));
    }
  }

  /** The signature of a function, as the loop and as the direct account write it. */
  lemma {:induction false} SignatureWritten(js: Js)
    requires Parsed(js) && js.JsList?
    ensures IsSignature(Bare(js)) <==> js.children != [] && forall i :: 0 <= i < |js.children| ==> IsJsSymbol(js.children[i])
    ensures IsSignature(Bare(js)) ==> ValueText(Bare(js)) == "(" + js.children[0].raw + Names(Raws(js.children[1..])) + ")"
  {
    hide IsIntegerWord, IsWord;
    var kids := js.children;
    forall i | 0 <= i < |kids|
      ensures IsJsSymbol(kids[i]) <==> IsSymbolForm(BareAll(kids)[i])
    {
      ParsedKid(js, i);
    }
    if IsSignature(Bare(js)) {
      assert forall i :: 0 <= i < |kids| ==> IsSymbolForm(BareAll(kids)[i]);
      NamesWritten(kids[1..]);
      assert BareAll(kids)[1..] == BareAll(kids[1..]);
    }
  }

  lemma {:induction false} FunctionWritten(js: Js, id: string, indent: nat)
    requires Headed(js) && js.children[0].raw == "define" && |js.children| >= 3
    requires js.children[1].JsList? && IsSignature(Bare(js.children[1]))
    requires LinesText(ProjectStatements(js.children[2..], id, 0), indent + 1) == BelowText(BareAll(js.children[2..]), indent + 1)
    ensures BodyText(ProjectBody(js, id), indent) == Pad(indent) + StatementText(Bare(js), indent)
  {
    Lined(js, indent);
    HeadedFacts(js);
    var kids := js.children;
    SignatureWritten(kids[1]);
    hide Headed, Parsed, Pad, ProjectValue, ValuesText, StatementText, Emit, IsSignature, ProjectStatements, LinesText, BelowText, IsJsSymbol, Raws, Names;
    var head := kids[1].children;
    assert Inline(BareAll(kids)) == 2 && kids[1..2] == [kids[1]];
    OneForm(Bare(kids[1]));
    assert BareAll(kids[1..2]) == [Bare(kids[1])];
    ghost var lines := BelowText(BareAll(kids[2..]), indent + 1);
    ghost var signature := "(" + head[0].raw + Names(Raws(head[1..])) + ")";
    HeadText(js, id, indent);
    SignatureSpliced(Pad(indent), "define", signature, lines);
  }

  lemma HeadText(js: Js, id: string, indent: nat)
    requires Headed(js) && js.children[0].raw == "define" && |js.children| >= 3
    requires js.children[1].JsList? && js.children[1].children != [] && IsJsSymbol(js.children[1].children[0])
    requires forall i :: 0 <= i < |js.children[1].children| ==> IsJsSymbol(js.children[1].children[i])
    ensures BodyText(ProjectBody(js, id), indent)
         == Pad(indent) + "(" + ("define" + " " + ("(" + js.children[1].children[0].raw + Names(Raws(js.children[1].children[1..])) + ")")
                                 + LinesText(ProjectStatements(js.children[2..], id, 0), indent + 1)) + ")"
  {
    hide Pad, Names, Raws, LinesText, ProjectStatements, Parsed, LosesTarget;
  }

  lemma OneForm(f: Form)
    ensures ValuesText([f]) == " " + ValueText(f)
  {
    assert [f][1..] == [];
  }

  lemma SignatureSpliced(pad: string, head: string, signature: string, lines: string)
    ensures pad + "(" + (head + " " + signature + lines) + ")" == pad + ("(" + head + (" " + signature) + lines + ")")
  {
  }

  lemma {:induction false} VariableWritten(js: Js, id: string, indent: nat)
    requires Headed(js) && js.children[0].raw == "define" && |js.children| == 3 && IsJsSymbol(js.children[1])
    ensures BodyText(ProjectBody(js, id), indent) == Pad(indent) + StatementText(Bare(js), indent)
  {
    VariableLined(js, indent);
    var name, v := js.children[1].raw, Emit(ProjectValue(js.children[2]));
    assert BodyText(ProjectBody(js, id), indent) == Pad(indent) + "(" + ("define" + " " + name + " " + v) + ")" by {
      hide Parsed, LosesTarget, Emit, ProjectValue, Pad;
    }
    hide *;
    VariableSpliced(Pad(indent), "define", name, v);
  }

  lemma VariableLined(js: Js, indent: nat)
    requires Headed(js) && js.children[0].raw == "define" && |js.children| == 3 && IsJsSymbol(js.children[1])
    ensures StatementText(Bare(js), indent)
         == "(" + "define" + (" " + js.children[1].raw + (" " + Emit(ProjectValue(js.children[2])))) + "" + ")"
  {
    HeadedFacts(js);
    ParsedKid(js, 1);
    var kids := js.children;
    var fs := BareAll(kids);
    ShortAtom(Bare(kids[1]));
    ValueWritten(kids[2]);
    OneForm(Bare(kids[2]));
    TwoForms(Bare(kids[1]), Bare(kids[2]));
    assert Stated(Bare(js)) == fs && Inline(fs) == 3 by { hide Parsed, LosesTarget; }
    AllInline(Bare(js), indent);
    assert fs[1..] == [Bare(kids[1]), Bare(kids[2])];
    hide *;
  }

  lemma TwoForms(f: Form, g: Form)
    ensures ValuesText([f, g]) == " " + ValueText(f) + ValuesText([g])
  {
    assert [f, g][1..] == [g];
  }

  lemma VariableSpliced(pad: string, head: string, name: string, v: string)
    ensures pad + "(" + (head + " " + name + " " + v) + ")" == pad + ("(" + head + (" " + name + (" " + v)) + "" + ")")
  {
  }

  /** Commands, and set! with a target that is not printed as an object. */
  lemma {:induction false} SimpleWritten(js: Js, id: string, indent: nat)
    requires Headed(js) && |js.children| == Arity(js.children[0].raw) + 1
    ensures BodyText(ProjectBody(js, id), indent) == Pad(indent) + StatementText(Bare(js), indent)
  {
    HeadedFacts(js);
    GenericValues(js);
    var kids := js.children;
    assert Inline(BareAll(kids)) == |kids|;
    AllInline(Bare(js), indent);
    var form, values := kids[0].raw, EmitAll(ProjectValues(kids[1..]));
    if form == "set!" { KeptSet(js, id); }
    SimpleText(js, id, indent);
    hide *;
    Spliced(Pad(indent), form, values, "");
  }

  lemma SimpleText(js: Js, id: string, indent: nat)
    requires Headed(js) && |js.children| == Arity(js.children[0].raw) + 1
    requires js.children[0].raw == "set!" ==> Show(ProjectValue(js.children[1])) == Emit(ProjectValue(js.children[1]))
    ensures BodyText(ProjectBody(js, id), indent) == Pad(indent) + "(" + (js.children[0].raw + EmitAll(ProjectValues(js.children[1..]))) + ")"
  {
    hide Parsed, LosesTarget, Pad, ProjectValue, Emit, BareAll;
    var kids := js.children;
    if kids[0].raw == "set!" {
      TwoValues(kids[1], kids[2]);
      assert kids[1..] == [kids[1], kids[2]];
    }
  }

  lemma TwoValues(a: Js, b: Js)
    ensures EmitAll(ProjectValues([a, b])) == " " + Emit(ProjectValue(a)) + (" " + Emit(ProjectValue(b)) + "")
  {
    hide Emit, ProjectValue;
    assert [a, b][1..] == [b] && [b][1..] == [];
    assert ProjectValues([b]) == [ProjectValue(b)];
    assert ProjectValues([a, b]) == [ProjectValue(a), ProjectValue(b)];
    assert [ProjectValue(a), ProjectValue(b)][1..] == [ProjectValue(b)];
    assert EmitAll([ProjectValue(b)]) == " " + Emit(ProjectValue(b)) + "";
  }

  lemma KeptName(js: Js)
    requires Parsed(js) && !Vanishes(Bare(js))
    ensures Show(ProjectValue(js)) == Emit(ProjectValue(js))
  {
    hide IsWord;
    assert js.JsAtom? && Bare(js) == Form.Atom(js.raw);
    var v := ProjectValue(js);
    if js.kind == SymbolAtom {
      assert IsReserved(js.raw);
      assert v.FlagVal? || v.TextVal?;
    } else {
      assert v.NumberVal? || v.TextVal?;
    }
    assert Show(v) == Emit(v);
  }

  lemma KeptSet(js: Js, id: string)
    requires Headed(js) && js.children[0].raw == "set!" && |js.children| == 3
    ensures Show(ProjectValue(js.children[1])) == Emit(ProjectValue(js.children[1]))
  {
    hide IsWord, ProjectValues, IsIntegerWord, IsSafe;
    ParsedKid(js, 1);
    var fs := BareAll(js.children);
    assert fs[0] == Form.Atom("set!") && |fs| == 3;
    assert !Vanishes(fs[1]) && fs[1] == Bare(js.children[1]);
    KeptName(js.children[1]);
  }

  /** A card is written as the direct account of its statement says. */
  lemma {:induction false} StatementWritten(js: Js, id: string, indent: nat)
    requires Parsed(js)
    ensures CardText(ProjectStatement(js, id), indent) == Pad(indent) + StatementText(Bare(js), indent)
    decreases js, 1
  {
    hide Pad, StatementText, BodyText, LinesText, BelowText, ProjectStatements, LosesTarget, IsWord, IsIntegerWord, ProjectValue, ProjectValues, ProjectBody;
    if js.JsList? && LosesTarget(BareAll(js.children)) {
      SetWritten(js, id, indent);
    } else if js.JsList? && js.children != [] && IsJsSymbol(js.children[0]) {
      HeadedWritten(js, id, indent);
    } else {
      Headless(js, id);
      GenericWritten(js, indent);
    }
  }

  lemma Headless(js: Js, id: string)
    requires Parsed(js) && (js.JsAtom? || js.children == [] || !IsJsSymbol(js.children[0]))
    ensures Inline(Stated(Bare(js))) == |Stated(Bare(js))| && ProjectBody(js, id) == GenericBody(js)
  {
    hide IsWord, IsIntegerWord, ProjectValue, ProjectValues, BareAll;
    if js.JsList? && js.children != [] {
      ParsedKid(js, 0);
      assert BareAll(js.children)[0] == Bare(js.children[0]);
    }
  }

  lemma {:induction false} HeadedWritten(js: Js, id: string, indent: nat)
    requires Headed(js)
    ensures BodyText(ProjectBody(js, id), indent) == Pad(indent) + StatementText(Bare(js), indent)
    decreases js, 0
  {
    HeadedFacts(js);
    hide Pad, StatementText, BodyText, LinesText, BelowText, ProjectStatements, LosesTarget, ProjectValue, ProjectValues, GenericBody, Parsed, Headed;
    var kids := js.children;
    var form, n := kids[0].raw, Inline(BareAll(kids));
    if form == "do" || ((form == "repeat" || form == "when" || form == "while") && |kids| >= 2) {
      LinesWritten(kids[n..], id, 0, indent + 1);
      SequenceWritten(js, id, indent);
    } else if form == "if" && |kids| == 4 {
      forall i, sub | i == 2 || i == 3
        ensures CardText(ProjectStatement(kids[i], sub), indent + 1) == Pad(indent + 1) + StatementText(Bare(kids[i]), indent + 1)
      {
        StatementWritten(kids[i], sub, indent + 1);
      }
      IfWritten(js, id, indent);
    } else if form == "define" && |kids| >= 2 {
      DefineWritten(js, id, indent);
    } else if |kids| == Arity(form) + 1 {
      SimpleWritten(js, id, indent);
    } else {
      PlainWritten(js, id, indent);
    }
  }

  lemma {:induction false} PlainWritten(js: Js, id: string, indent: nat)
    requires Headed(js) && Inline(BareAll(js.children)) == |js.children| && ProjectBody(js, id) == GenericBody(js)
    ensures BodyText(ProjectBody(js, id), indent) == Pad(indent) + StatementText(Bare(js), indent)
  {
    HeadedFacts(js);
    ParsedKid(js, 0);
    assert Stated(Bare(js)) == BareAll(js.children) by { hide IsWord, IsIntegerWord, Inline; }
    GenericWritten(js, indent);
  }

  lemma {:induction false} DefineWritten(js: Js, id: string, indent: nat)
    requires Headed(js) && js.children[0].raw == "define" && |js.children| >= 2
    ensures BodyText(ProjectBody(js, id), indent) == Pad(indent) + StatementText(Bare(js), indent)
    decreases js, 0, 0
  {
    HeadedFacts(js);
    hide Pad, StatementText, BodyText, LinesText, BelowText, ProjectStatements, LosesTarget, ProjectValue, ProjectValues, GenericBody, Parsed, Headed;
    var kids := js.children;
    if kids[1].JsList? { SignatureWritten(kids[1]); }
    hide IsSignature;
    if kids[1].JsList? && |kids| >= 3 && IsSignature(Bare(kids[1])) {
      LinesWritten(kids[2..], id, 0, indent + 1);
      FunctionWritten(js, id, indent);
    } else if |kids| == 3 && IsJsSymbol(kids[1]) {
      VariableWritten(js, id, indent);
    } else {
      assert !IsSignature(Bare(kids[1])) || |kids| < 3 by { NoSignature(kids[1]); }
      PlainWritten(js, id, indent);
    }
  }

  lemma NoSignature(js: Js)
    ensures js.JsAtom? ==> !IsSignature(Bare(js))
  {
  }

  lemma {:induction false} LinesWritten(jss: seq<Js>, id: string, k: nat, indent: nat)
    requires AllParsed(jss)
    ensures LinesText(ProjectStatements(jss, id, k), indent) == BelowText(BareAll(jss), indent)
    decreases jss, 0
  {
    hide Pad, StatementText, CardText, ProjectStatement, Parsed, Json.Decimal;
    if jss != [] {
      var sub := id + "-" + Json.Decimal(k + 1);
      StatementWritten(jss[0], sub, indent);
      LinesWritten(jss[1..], id, k + 1, indent);
      assert BareAll(jss)[1..] == BareAll(jss[1..]);
      assert ProjectStatements(jss, id, k)[1..] == ProjectStatements(jss[1..], id, k + 1);
    }
  }

  /** The loop writes a program as the direct account of its statements says. */
  lemma {:induction false} ProgramWritten(jss: seq<Js>)
    requires AllParsed(jss)
    ensures Round(jss) == FormsText(BareAll(jss))
  {
    hide StatementText, CardText, ProjectStatement, Parsed, Json.Decimal, LinesText, BelowText;
    if jss != [] {
      StatementWritten(jss[0], "card" + "-" + Json.Decimal(1), 0);
      LinesWritten(jss[1..], "card", 1, 0);
      assert BareAll(jss)[1..] == BareAll(jss[1..]);
      assert ProjectStatements(jss, "card", 0)[1..] == ProjectStatements(jss[1..], "card", 1);
      assert ProjectStatements(jss, "card", 0)[0] == ProjectStatement(jss[0], "card" + "-" + Json.Decimal(1));
    }
  }
}
