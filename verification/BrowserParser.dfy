// The editor's own parser, app/src/parser.js: character-level, independent of the lexer
// and parser of the engine.

module BrowserParser {
  import opened Ast
  import opened Source
  import opened Lexer

  datatype AtomKind = IntegerAtom | SymbolAtom

  datatype Js =
    | JsList(span: Span, children: seq<Js>)
    | JsAtom(span: Span, kind: AtomKind, raw: string)

  /** A value, or the span of the SyntaxError thrown. */
  datatype Result<T> = Ok(value: T) | Thrown(span: Span)

  /** The characters that the regular expression \s matches. */
  predicate IsJsSpace(c: char) {
    || c == ' ' || c == '\t' || c == '\n' || c == '\r'
    || c == 11 as char || c == 12 as char || c == 0xa0 as char || c == 0x1680 as char
    || 0x2000 as char <= c <= 0x200a as char || c == 0x2028 as char || c == 0x2029 as char
    || c == 0x202f as char || c == 0x205f as char || c == 0x3000 as char || c == 0xfeff as char
  }

  /** The characters that end an atom. */
  predicate EndsAtom(c: char) {
    IsJsSpace(c) || c == '(' || c == ')' || c == ';'
  }

  // ---- specification ------------------------------------------------------------------------------

  /** The offset after blanks and comments. */
  function Skip(src: string, o: nat): (e: nat)
    requires o <= |src|
    ensures o <= e <= |src|
    ensures e < |src| ==> !IsJsSpace(src[e]) && src[e] != ';'
    decreases |src| - o
  {
    if o == |src| then o
    else if IsJsSpace(src[o]) then Skip(src, o + 1)
    else if src[o] == ';' then Skip(src, LineEnd(src, o + 1))
    else o
  }

  function AtomEnd(src: string, o: nat): (e: nat)
    requires o <= |src|
    ensures o <= e <= |src|
    ensures e < |src| ==> EndsAtom(src[e])
    ensures o < |src| && !EndsAtom(src[o]) ==> o < e
    decreases |src| - o
  {
    if o < |src| && !EndsAtom(src[o]) then AtomEnd(src, o + 1) else o
  }

  function Atom(src: string, o: nat, e: nat): Js
    requires o <= e <= |src|
  {
    JsAtom(SpanOf(src, o, e), if IsIntegerWord(src[o..e]) then IntegerAtom else SymbolAtom, src[o..e])
  }

  function ErrorAt(src: string, o: nat): Span
    requires o <= |src|
  {
    SpanOf(src, o, if o + 1 <= |src| then o + 1 else |src|)
  }

  /** An expression read from `o` on, and the offset after it. */
  function JsExpr(src: string, o: nat): (r: Result<(Js, nat)>)
    requires o <= |src|
    ensures r.Ok? ==> o <= r.value.1 <= |src| && (Skip(src, o) < |src| ==> o < r.value.1)
    decreases |src| - o, 2
  {
    var s := Skip(src, o);
    if s < |src| && src[s] == '(' then JsRest(src, s + 1, s, [])
    else if s < |src| && src[s] == ')' then Thrown(ErrorAt(src, s))
    else Ok((Atom(src, s, AtomEnd(src, s)), AtomEnd(src, s)))
  }

  /** The rest of a list opened at `start`. */
  function JsRest(src: string, o: nat, start: nat, kids: seq<Js>): (r: Result<(Js, nat)>)
    requires start < o <= |src|
    ensures r.Ok? ==> o < r.value.1 <= |src|
    decreases |src| - o, 3
  {
    var s := Skip(src, o);
    if s == |src| then Thrown(ErrorAt(src, s))
    else if src[s] == ')' then Ok((JsList(SpanOf(src, start, s + 1), kids), s + 1))
    else
      match JsExpr(src, s)
      case Thrown(span) => Thrown(span)
      case Ok((child, e)) => JsRest(src, e, start, kids + [child])
  }

  function JsProgram(src: string, o: nat): (r: Result<seq<Js>>)
    requires o <= |src|
    decreases |src| - o
  {
    var s := Skip(src, o);
    if s == |src| then Ok([])
    else
      match JsExpr(src, s)
      case Thrown(span) => Thrown(span)
      case Ok((child, e)) =>
        (match JsProgram(src, e)
         case Thrown(span) => Thrown(span)
         case Ok(rest) => Ok([child] + rest))
  }

  // ---- the parser object ----------------------------------------------------------------------------

  method LineColumnAt(source: string, offset: nat) returns (line: nat, column: nat)
    requires offset <= |source|
    ensures line == LineOf(source, offset) && column == ColumnOf(source, offset)
  {
    line, column := 1, 1;
    for i := 0 to offset
      invariant line == LineOf(source, i) && column == ColumnOf(source, i)
    {
      if source[i] == '\n' {
        line := line + 1;
        column := 1;
      } else {
        column := column + 1;
      }
    }
  }

  method SpanFromOffsets(source: string, start: nat, end: nat) returns (span: Span)
    requires start <= |source| && end <= |source|
    ensures span == SpanOf(source, start, end)
  {
    var startLine, startColumn := LineColumnAt(source, start);
    var endLine, endColumn := LineColumnAt(source, end);
    span := Span(start, end, startLine, startColumn, endLine, endColumn);
  }

  class Parser {
    const source: string
    var offset: nat

    constructor (source: string)
      ensures this.source == source && offset == 0
    {
      this.source, offset := source, 0;
    }

    predicate AtEnd()
      reads this
    {
      offset >= |source|
    }

    method SkipIgnored()
      requires offset <= |source|
      modifies this`offset
      ensures offset == Skip(source, old(offset))
    {
      while true
        invariant offset <= |source| && Skip(source, offset) == Skip(source, old(offset))
        decreases |source| - offset
      {
        while !AtEnd() && IsJsSpace(source[offset])
          invariant offset <= |source| && Skip(source, offset) == Skip(source, old(offset))
          decreases |source| - offset
        {
          offset := offset + 1;
        }
        if AtEnd() || source[offset] != ';' { return; }
        ghost var o := offset;
        while !AtEnd() && source[offset] != '\n'
          invariant o <= offset <= |source| && LineEnd(source, offset) == LineEnd(source, o + 1)
          decreases |source| - offset
        {
          offset := offset + 1;
        }
      }
    }

    method Error() returns (span: Span)
      requires offset <= |source|
      ensures span == ErrorAt(source, offset)
    {
      span := SpanFromOffsets(source, offset, if offset + 1 <= |source| then offset + 1 else |source|);
    }

    /** What a method returns and where it leaves the offset. */
    ghost predicate Did(r: Result<(Js, nat)>, out: Result<Js>)
      reads this
    {
      match r
      case Thrown(span) => out == Thrown(span)
      case Ok((e, o)) => out == Ok(e) && offset == o
    }

    method ParseExpr() returns (out: Result<Js>)
      requires offset <= |source|
      modifies this`offset
      ensures offset <= |source| && Did(JsExpr(source, old(offset)), out)
      decreases |source| - offset, 2
    {
      SkipIgnored();
      if offset < |source| && source[offset] == '(' {
        out := ParseList();
        return;
      }
      if offset < |source| && source[offset] == ')' {
        var span := Error();
        return Thrown(span);
      }
      var atom := ParseAtom();
      return Ok(atom);
    }

    method ParseList() returns (out: Result<Js>)
      requires offset < |source|
      modifies this`offset
      ensures offset <= |source| && Did(JsRest(source, old(offset) + 1, old(offset), []), out)
      decreases |source| - offset, 1
    {
      var start := offset;
      offset := offset + 1;
      var children: seq<Js> := [];
      while true
        invariant start < offset <= |source|
        invariant JsRest(source, offset, start, children) == JsRest(source, start + 1, start, [])
        decreases |source| - offset
      {
        SkipAgain(source, offset);
        ghost var o := offset;
        SkipIgnored();
        if AtEnd() {
          var span := Error();
          return Thrown(span);
        }
        if source[offset] == ')' {
          offset := offset + 1;
          var span := SpanFromOffsets(source, start, offset);
          return Ok(JsList(span, children));
        }
        var child := ParseExpr();
        if child.Thrown? { return child; }
        children := children + [child.value];
      }
    }

    method ParseAtom() returns (atom: Js)
      requires offset <= |source|
      modifies this`offset
      ensures offset == AtomEnd(source, old(offset)) && atom == Atom(source, old(offset), offset)
    {
      var start := offset;
      while !AtEnd() && !EndsAtom(source[offset])
        invariant start <= offset <= |source| && AtomEnd(source, offset) == AtomEnd(source, start)
        decreases |source| - offset
      {
        offset := offset + 1;
      }
      var raw := source[start..offset];
      var span := SpanFromOffsets(source, start, offset);
      var isInteger := IsInteger(raw);
      return JsAtom(span, if isInteger then IntegerAtom else SymbolAtom, raw);
    }
  }

  lemma {:induction false} AtomEndIs(src: string, o: nat, e: nat)
    requires o <= e <= |src| && (forall i :: o <= i < e ==> !EndsAtom(src[i])) && (e < |src| ==> EndsAtom(src[e]))
    ensures AtomEnd(src, o) == e
    decreases e - o
  {
    hide EndsAtom;
    if o < e { AtomEndIs(src, o + 1, e); }
  }

  /** Skipping twice is skipping once. */
  lemma {:induction false} SkipAgain(src: string, o: nat)
    requires o <= |src|
    ensures Skip(src, Skip(src, o)) == Skip(src, o)
  {
  }

  method ParseCardCode(source: string) returns (out: Result<seq<Js>>)
    ensures out == JsProgram(source, 0)
  {
    var parser := new Parser(source);
    var children: seq<Js> := [];
    ghost var all := JsProgram(source, 0);
    if all.Ok? { assert children + all.value == all.value; }
    while !parser.AtEnd()
      invariant fresh(parser) && parser.source == source && parser.offset <= |source|
      invariant match JsProgram(source, parser.offset)
                case Thrown(span) => all == Thrown(span)
                case Ok(rest) => all == Ok(children + rest)
      decreases |source| - parser.offset
    {
      SkipAgain(source, parser.offset);
      ghost var ahead := JsProgram(source, parser.offset);
      parser.SkipIgnored();
      if parser.AtEnd() { break; }
      var child := parser.ParseExpr();
      if child.Thrown? { return Thrown(child.span); }
      ghost var rest := JsProgram(source, parser.offset);
      if rest.Ok? { assert children + ([child.value] + rest.value) == children + [child.value] + rest.value; }
      children := children + [child.value];
    }
    assert children + [] == children;
    return Ok(children);
  }
}
