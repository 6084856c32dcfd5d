// Source positions, runtime values and the typed AST
// (include/cardcode/source_span.hpp, value.hpp and ast.hpp).

module Ast {

  /** A byte/line/column range of the source text. */
  datatype Span = Span(startOffset: nat, endOffset: nat,
                       startLine: nat, startColumn: nat, endLine: nat, endColumn: nat)

  const NO_SPAN := Span(0, 0, 0, 0, 0, 0)

  /** A runtime value. A colour is its enumerator: 0 (off) to 5 (white). */
  datatype Value = NoneV | IntV(i: int) | BoolV(b: bool) | ColorV(code: int) {
    predicate Truthy() {
      match this
      case BoolV(b) => b
      case IntV(i) => i != 0
      case ColorV(_) => true
      case NoneV => false
    }

    function AsInt(): int {
      if IntV? then i else 0
    }
  }

  datatype Kind =
      // control flow
    | Do | Repeat | When | If | While
      // variables and functions
    | DefineVar | DefineFunc | SetVar | VarRef | Call
      // robot commands
    | Drive | Backward | TurnLeft | TurnRight | Stop | Wait | Light | Beep
      // sensor reads
    | DistanceCm | Button | LineLeft | LineRight
      // operators
    | Compare | BooleanOp | Arithmetic
      // literals
    | IntegerLiteral | BooleanLiteral | ColorLiteral

  datatype Node = Node(id: nat, kind: Kind, span: Span, op: string,
                       args: seq<Node>, children: seq<Node>, nums: seq<int>, params: seq<string>)

  /** Nodes that emit NodeStart/NodeDone and count as a step. */
  predicate Highlightable(kind: Kind) {
    match kind
    case DefineFunc | VarRef => false
    case Compare | BooleanOp | Arithmetic => false
    case IntegerLiteral | BooleanLiteral | ColorLiteral => false
    case _ => true
  }

  predicate IsCommand(kind: Kind) {
    match kind
    case Drive | Backward | TurnLeft | TurnRight | Stop | Wait | Light | Beep => true
    case _ => false
  }

  predicate IsSensor(kind: Kind) {
    match kind
    case DistanceCm | Button | LineLeft | LineRight => true
    case _ => false
  }
}
