// The words of the language (src/compiler.cpp:41-79, include/cardcode/ast.hpp:117-149,
// include/cardcode/robot_host.hpp:14-24).

module Names {
  import opened Ast

  /** The colours, in the order of their enumerators. */
  const COLORS := ["off", "red", "green", "blue", "yellow", "white"]

  function ColorCode(name: string): int {
    if name == "off" then 0
    else if name == "red" then 1
    else if name == "green" then 2
    else if name == "blue" then 3
    else if name == "yellow" then 4
    else if name == "white" then 5
    else -1
  }

  predicate IsColor(name: string) { ColorCode(name) >= 0 }

  predicate IsComparison(op: string) {
    op == "<" || op == ">" || op == "=" || op == "<=" || op == ">="
  }

  predicate IsBooleanOp(op: string) {
    op == "and" || op == "or" || op == "not"
  }

  predicate IsArithmetic(op: string) {
    op == "+" || op == "-" || op == "*" || op == "/"
  }

  predicate IsSensorName(op: string) {
    op == "distance-cm" || op == "button" || op == "line-left" || op == "line-right"
  }

  predicate IsCommandName(op: string) {
    || op == "drive" || op == "backward" || op == "turn-left" || op == "turn-right"
    || op == "stop" || op == "wait" || op == "light" || op == "beep"
  }

  predicate IsControl(op: string) {
    || op == "do" || op == "repeat" || op == "when" || op == "if" || op == "while"
    || op == "define" || op == "set!"
  }

  predicate IsReserved(name: string) {
    name == "true" || name == "false" || IsColor(name)
  }

  /** Names a user function may not take. */
  predicate IsBuiltinName(op: string) {
    || IsCommandName(op) || IsControl(op) || IsSensorName(op)
    || IsComparison(op) || IsBooleanOp(op) || IsArithmetic(op) || IsReserved(op)
  }

  /** The word that stands for a node of this kind, where there is one fixed word. */
  function KindName(kind: Kind): string {
    match kind
    case Do => "do"
    case Repeat => "repeat"
    case When => "when"
    case If => "if"
    case While => "while"
    case DefineVar | DefineFunc => "define"
    case SetVar => "set!"
    case Drive => "drive"
    case Backward => "backward"
    case TurnLeft => "turn-left"
    case TurnRight => "turn-right"
    case Stop => "stop"
    case Wait => "wait"
    case Light => "light"
    case Beep => "beep"
    case DistanceCm => "distance-cm"
    case Button => "button"
    case LineLeft => "line-left"
    case LineRight => "line-right"
    case _ => ""
  }
}
