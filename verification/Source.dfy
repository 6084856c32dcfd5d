// Positions in source text and the problems reported about it
// (include/cardcode/source_span.hpp, include/cardcode/diagnostic.hpp).

module Source {
  import opened Ast

  /** Line and column of offset `o`, both from 1. */
  function LineOf(src: string, o: nat): nat
    requires o <= |src|
  {
    if o == 0 then 1 else LineOf(src, o - 1) + if src[o - 1] == '\n' then 1 else 0
  }

  function ColumnOf(src: string, o: nat): nat
    requires o <= |src|
  {
    if o == 0 then 1 else if src[o - 1] == '\n' then 1 else ColumnOf(src, o - 1) + 1
  }

  function SpanOf(src: string, start: nat, end: nat): Span
    requires start <= |src| && end <= |src|
  {
    Span(start, end, LineOf(src, start), ColumnOf(src, start), LineOf(src, end), ColumnOf(src, end))
  }

  datatype Problem =
      // lexer
    | IntegerOutOfRange | InvalidWord | UnexpectedCharacter
      // parser
    | UnexpectedParen | MissingParen | UnexpectedEnd
      // compiler
    | EmptyProgram | EmptyList | ExpectedOperation | WrongArgumentCount
    | UnknownFunction | NestedFunction | FunctionName | BuiltinName | DuplicateFunction
    | ParameterName | ReservedName | ExpectedName
    | SpeedLiteral | DurationLiteral | DegreesLiteral | RepeatLiteral

  /** An error message: where, and which. All are errors; nothing reports warnings. */
  datatype Diagnostic = Diagnostic(span: Span, problem: Problem)
}
