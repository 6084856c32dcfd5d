// The editor's loop between text and cards: app/src/projection.js makes cards of a parsed
// program, app/src/generator.js writes cards as text again. The manifest is the default one,
// app/cardcode-default.manifest.json.

module Editor {
  import opened Ast
  import opened Lexer
  import opened BrowserParser
  import Json

  /** A value inside a card: a number, a string, a boolean, or a variable or call object. */
  datatype Val =
    | NumberVal(number: int)
    | TextVal(text: string)
    | FlagVal(flag: bool)
    | VarVal(name: string)
    | CallVal(form: string, args: seq<Val>)

  datatype Card = Card(id: string, span: Span, body: Body)

  datatype Body =
    | Sequence(form: string, params: seq<Val>, children: seq<Card>)
    | IfCard(condition: Val, thenCards: seq<Card>, elseCards: seq<Card>)
    | DefineFunction(name: string, names: seq<string>, children: seq<Card>)
    | DefineVar(name: string, value: Val)
    | SetVar(target: Val, value: Val)
    | Simple(form: string, params: seq<Val>)
    | Generic(form: string, params: seq<Val>)

  // ---- projection --------------------------------------------------------------------------------

  const MAX_SAFE := 0x1f_ffff_ffff_ffff

  /** Number(raw) is exact up to 2^53 - 1 and not a safe integer beyond. */
  predicate IsSafe(raw: string)
  {
    IsIntegerWord(raw) && -MAX_SAFE <= SignedValue(raw) <= MAX_SAFE
  }

  predicate IsReserved(s: string) {
    s == "true" || s == "false" || s == "off" || s == "red" || s == "green" || s == "blue" || s == "yellow" || s == "white"
  }

  function ProjectValue(js: Js): Val
    decreases js, 1
  {
    match js
    case JsAtom(_, IntegerAtom, raw) => if IsSafe(raw) then NumberVal(SignedValue(raw)) else TextVal(raw)
    case JsAtom(_, SymbolAtom, raw) =>
      if raw == "true" then FlagVal(true)
      else if raw == "false" then FlagVal(false)
      else if IsReserved(raw) then TextVal(raw)
      else VarVal(raw)
    case JsList(_, kids) =>
      if kids == [] then CallVal("", [])
      else CallVal(if kids[0].JsAtom? then kids[0].raw else "", ProjectValues(kids[1..]))
  }

  function ProjectValues(jss: seq<Js>): (vals: seq<Val>)
    ensures |vals| == |jss|
    decreases jss, 0
  {
    if jss == [] then [] else [ProjectValue(jss[0])] + ProjectValues(jss[1..])
  }

  predicate IsJsSymbol(js: Js) { js.JsAtom? && js.kind == SymbolAtom }

  /** The number of parameters of the commands and bindings that a statement can be a card of. */
  function Arity(form: string): (n: int)
    ensures n >= -1
  {
    if form == "stop" || form == "beep" then 0
    else if form == "turn-left" || form == "turn-right" || form == "wait" || form == "light" then 1
    else if form == "drive" || form == "backward" || form == "set!" then 2
    else -1
  }

  function GenericBody(js: Js): Body {
    match js
    case JsAtom(_, _, _) => Generic("expr", [ProjectValue(js)])
    case JsList(_, kids) =>
      Generic(if kids != [] && IsJsSymbol(kids[0]) then kids[0].raw else "expr", if kids == [] then [] else ProjectValues(kids[1..]))
  }

  function ProjectStatement(js: Js, id: string): (card: Card)
    ensures card.id == id && card.span == js.span
    decreases js, 2
  {
    Card(id, js.span, ProjectBody(js, id))
  }

  function ProjectBody(js: Js, id: string): Body
    decreases js, 1
  {
    if js.JsAtom? || js.children == [] || !IsJsSymbol(js.children[0]) then GenericBody(js)
    else
      var kids := js.children;
      var form := kids[0].raw;
      if form == "define" then ProjectDefine(js, id)
      else if form == "do" then Sequence(form, [], ProjectStatements(kids[1..], id, 0))
      else if form == "repeat" || form == "when" || form == "while" then
        if |kids| < 2 then GenericBody(js)
        else Sequence(form, [ProjectValue(kids[1])], ProjectStatements(kids[2..], id, 0))
      else if form == "if" then
        if |kids| != 4 then GenericBody(js)
        else IfCard(ProjectValue(kids[1]), [ProjectStatement(kids[2], id + "-then-1")], [ProjectStatement(kids[3], id + "-else-1")])
      else if |kids| != Arity(form) + 1 then GenericBody(js)
      else if form == "set!" then Body.SetVar(ProjectValue(kids[1]), ProjectValue(kids[2]))
      else Simple(form, ProjectValues(kids[1..]))
  }

  function Raws(jss: seq<Js>): (names: seq<string>)
    ensures |names| == |jss|
  {
    if jss == [] then [] else [if jss[0].JsAtom? then jss[0].raw else ""] + Raws(jss[1..])
  }

  function ProjectDefine(js: Js, id: string): Body
    requires js.JsList?
    decreases js, 0
  {
    var kids := js.children;
    if |kids| >= 2 && kids[1].JsList? then
      var head := kids[1].children;
      if |kids| < 3 || head == [] || !(forall i :: 0 <= i < |head| ==> IsJsSymbol(head[i])) then GenericBody(js)
      else DefineFunction(head[0].raw, Raws(head[1..]), ProjectStatements(kids[2..], id, 0))
    else if |kids| != 3 || !IsJsSymbol(kids[1]) then GenericBody(js)
    else Body.DefineVar(kids[1].raw, ProjectValue(kids[2]))
  }

  /** The cards of the statements numbered from `k` on under `id`. */
  function ProjectStatements(jss: seq<Js>, id: string, k: nat): (cards: seq<Card>)
    ensures |cards| == |jss|
    decreases jss, 0
  {
    if jss == [] then []
    else [ProjectStatement(jss[0], id + "-" + Json.Decimal(k + 1))] + ProjectStatements(jss[1..], id, k + 1)
  }

  function ProjectProgram(jss: seq<Js>): seq<Card> {
    ProjectStatements(jss, "card", 0)
  }

  // ---- generation: what is written -----------------------------------------------------------------

  function Emit(v: Val): string
    decreases v, 1
  {
    match v
    case NumberVal(n) => Json.Number(n)
    case TextVal(s) => s
    case FlagVal(b) => if b then "true" else "false"
    case VarVal(name) => name
    case CallVal(form, args) => "(" + form + EmitAll(args) + ")"
  }

  /** Each value after a blank. */
  function EmitAll(vals: seq<Val>): string
    decreases vals, 0
  {
    if vals == [] then "" else " " + Emit(vals[0]) + EmitAll(vals[1..])
  }

  /** How a template literal shows a value: an object has no text of its own. */
  function Show(v: Val): string {
    if v.VarVal? || v.CallVal? then "[object Object]" else Emit(v)
  }

  function Pad(indent: nat): string {
    if indent == 0 then "" else "  " + Pad(indent - 1)
  }

  function Names(names: seq<string>): string {
    if names == [] then "" else " " + names[0] + Names(names[1..])
  }

  function CardText(card: Card, indent: nat): string
    decreases card, 2
  {
    BodyText(card.body, indent)
  }

  function BodyText(body: Body, indent: nat): string
    decreases body, 1
  {
    Pad(indent) + "(" +
    (match body
     case Sequence(form, params, children) => form + EmitAll(params) + LinesText(children, indent + 1)
     case IfCard(condition, thenCards, elseCards) =>
       "if" + " " + Emit(condition) + "\n" + BranchText(thenCards, indent + 1) + "\n" + BranchText(elseCards, indent + 1)
     case DefineFunction(name, names, children) => "define" + " " + ("(" + name + Names(names) + ")") + LinesText(children, indent + 1)
     case DefineVar(name, value) => "define" + " " + name + " " + Emit(value)
     case SetVar(target, value) => "set!" + " " + Show(target) + " " + Emit(value)
     case Simple(form, params) => form + EmitAll(params)
     case Generic(form, params) => form + EmitAll(params)) + ")"
  }

  /** A branch that is not a single card becomes a do. */
  function BranchText(cards: seq<Card>, indent: nat): string
    decreases cards, 1
  {
    if |cards| == 1 then CardText(cards[0], indent)
    else Pad(indent) + "(do" + LinesText(cards, indent + 1) + ")"
  }

  /** Each card on a line of its own. */
  function LinesText(cards: seq<Card>, indent: nat): string
    decreases cards, 0
  {
    if cards == [] then "" else "\n" + CardText(cards[0], indent) + LinesText(cards[1..], indent)
  }

  /** The cards of a program, a line break between them. */
  function ProgramText(cards: seq<Card>): string {
    if cards == [] then "" else CardText(cards[0], 0) + LinesText(cards[1..], 0)
  }

  /** One round of the editor: read, show as cards, write. */
  function Round(jss: seq<Js>): string { ProgramText(ProjectProgram(jss)) }
}
