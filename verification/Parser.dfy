// The parser of src/parser.cpp: a specification by recursion on the token positions, and
// the recursive-descent methods proved to compute it, error recovery included.

module Parser {
  import opened Ast
  import opened Source
  import opened Lexer
  import opened Options

  datatype Raw =
    | Sym(span: Span, symbol: string)
    | Int(span: Span, value: int)
    | List(span: Span, list: seq<Raw>)

  function Join(a: Span, b: Span): Span {
    Span(a.startOffset, b.endOffset, a.startLine, a.startColumn, b.endLine, b.endColumn)
  }

  /** What the lexer hands over: one End, at the end. */
  ghost predicate Terminated(toks: seq<Token>) {
    && toks != [] && toks[|toks| - 1].kind == End
    && forall i :: 0 <= i < |toks| - 1 ==> toks[i].kind != End
  }

  /** The expression read, if any, the position after it, and the problems met. */
  datatype Parsed = Parsed(expr: Option<Raw>, pos: nat, diags: seq<Diagnostic>)

  function ParseExpr(toks: seq<Token>, pos: nat): (r: Parsed)
    requires Terminated(toks) && pos < |toks|
    ensures pos <= r.pos < |toks|
    ensures toks[pos].kind != End ==> pos < r.pos
    ensures toks[pos].kind != End ==> r.expr.None? ==> r.diags != []
    decreases |toks| - pos, 0
  {
    var t := toks[pos];
    match t.kind
    case LParen => ParseList(toks, pos + 1, t.span, t.span, [])
    case Symbol => Parsed(Some(Sym(t.span, t.text)), pos + 1, [])
    case Integer => Parsed(Some(Int(t.span, t.value)), pos + 1, [])
    case RParen => Parsed(None, pos + 1, [Diagnostic(t.span, UnexpectedParen)])
    case End => Parsed(None, pos, [Diagnostic(t.span, UnexpectedEnd)])
  }

  /** The rest of a list opened at `open`, `kids` being read and `span` covered so far. */
  function ParseList(toks: seq<Token>, pos: nat, open: Span, span: Span, kids: seq<Raw>): (r: Parsed)
    requires Terminated(toks) && pos < |toks|
    ensures pos <= r.pos < |toks|
    ensures r.expr.None? ==> r.diags != []
    decreases |toks| - pos, 1
  {
    var t := toks[pos];
    if t.kind == RParen then Parsed(Some(List(Join(span, t.span), kids)), pos + 1, [])
    else if t.kind == End then Parsed(None, pos, [Diagnostic(open, MissingParen)])
    else
      var r := ParseExpr(toks, pos);
      if r.expr.None? then r
      else
        var rest := ParseList(toks, r.pos, open, Join(span, r.expr.value.span), kids + [r.expr.value]);
        Parsed(rest.expr, rest.pos, r.diags + rest.diags)
  }

  datatype Program = Program(exprs: seq<Raw>, diags: seq<Diagnostic>)

  function ParseFrom(toks: seq<Token>, pos: nat): Program
    requires Terminated(toks) && pos < |toks|
    decreases |toks| - pos
  {
    if toks[pos].kind == End then Program([], [])
    else
      var r := ParseExpr(toks, pos);
      var rest := ParseFrom(toks, r.pos);
      Program((if r.expr.Some? then [r.expr.value] else []) + rest.exprs, r.diags + rest.diags)
  }

  function Parse(src: string): Program {
    LexIsTerminated(src, 0);
    var lexed := Lex(src);
    var parsed := ParseFrom(lexed.tokens, 0);
    Program(parsed.exprs, lexed.diags + parsed.diags)
  }

  lemma {:induction false} LexIsTerminated(src: string, o: nat)
    requires o <= |src|
    ensures Terminated(LexFrom(src, o).tokens)
    decreases |src| - o
  {
    if o < |src| {
      var l := NextLexeme(src, o);
      LexIsTerminated(src, l.end);
      assert forall t :: t in l.tokens ==> t.kind != End;
    }
  }

  // ---- recursive descent ------------------------------------------------------------------------

  class ParserState {
    const tokens: seq<Token>
    var pos: nat
    var diags: seq<Diagnostic>

    constructor (tokens: seq<Token>, diags: seq<Diagnostic>)
      requires Terminated(tokens)
      ensures Valid() && pos == 0 && this.tokens == tokens && this.diags == diags
    {
      this.tokens, this.pos, this.diags := tokens, 0, diags;
    }

    ghost predicate Valid()
      reads this
    {
      Terminated(tokens) && pos < |tokens|
    }

    function Peek(): Token
      reads this
      requires Valid()
    {
      tokens[pos]
    }

    /** The current token; the position moves on unless it is End. */
    method Next() returns (t: Token)
      requires Valid()
      modifies this`pos
      ensures Valid() && t == old(Peek())
      ensures pos == if t.kind == End then old(pos) else old(pos) + 1
    {
      t := tokens[pos];
      if t.kind != End { pos := pos + 1; }
    }

    /** `r` says what was read, and where this state is now. */
    ghost predicate Did(r: Parsed, before: seq<Diagnostic>, out: Option<Raw>)
      reads this
    {
      out == r.expr && pos == r.pos && diags == before + r.diags
    }

    method ReadList(lparen: Token) returns (out: Option<Raw>)
      requires Valid()
      modifies this
      ensures Valid() && Did(ParseList(tokens, old(pos), lparen.span, lparen.span, []), old(diags), out)
      decreases |tokens| - pos, 1
    {
      var span, kids := lparen.span, [];
      while true
        invariant Valid() && old(pos) <= pos
        invariant var r, s := ParseList(tokens, old(pos), lparen.span, lparen.span, []), ParseList(tokens, pos, lparen.span, span, kids);
                  r.expr == s.expr && r.pos == s.pos && old(diags) + r.diags == diags + s.diags
        decreases |tokens| - pos
      {
        var t := Peek();
        if t.kind == RParen {
          span := Join(span, t.span);
          var _ := Next();
          return Some(List(span, kids));
        }
        if t.kind == End {
          diags := diags + [Diagnostic(lparen.span, MissingParen)];
          return None;
        }
        ghost var before, at := diags, pos;
        ghost var r := ParseExpr(tokens, pos);
        var child := ReadExpr();
        if child.None? { return None; }
        ghost var s := ParseList(tokens, pos, lparen.span, Join(span, child.value.span), kids + [child.value]);
        assert before + (r.diags + s.diags) == diags + s.diags;
        span := Join(span, child.value.span);
        kids := kids + [child.value];
      }
    }

    method ReadExpr() returns (out: Option<Raw>)
      requires Valid()
      modifies this
      ensures Valid() && Did(ParseExpr(tokens, old(pos)), old(diags), out)
      ensures old(Peek()).kind != End ==> old(pos) < pos
      decreases |tokens| - pos, 0
    {
      var t := Next();
      match t.kind
      case LParen => out := ReadList(t);
      case Symbol => out := Some(Sym(t.span, t.text));
      case Integer => out := Some(Int(t.span, t.value));
      case RParen =>
        diags := diags + [Diagnostic(t.span, UnexpectedParen)];
        out := None;
      case End =>
        diags := diags + [Diagnostic(t.span, UnexpectedEnd)];
        out := None;
    }
  }

  method ParseSource(src: string) returns (result: Program)
    ensures result == Parse(src)
  {
    hide ParseFrom, ParseExpr, LexFrom;
    var lexed := LexSource(src);
    LexIsTerminated(src, 0);
    var exprs: seq<Raw> := [];
    var s := new ParserState(lexed.tokens, lexed.diags);
    ghost var all := ParseFrom(lexed.tokens, 0);
    while s.Peek().kind != End
      invariant s.Valid() && fresh(s) && s.tokens == lexed.tokens
      invariant exprs + ParseFrom(s.tokens, s.pos).exprs == all.exprs
      invariant s.diags + ParseFrom(s.tokens, s.pos).diags == lexed.diags + all.diags
      decreases |s.tokens| - s.pos
    {
      ParseFromStep(s.tokens, s.pos, exprs, s.diags);
      var e := s.ReadExpr();
      if e.Some? { exprs := exprs + [e.value]; }
    }
    ParseFromEnds(s.tokens, s.pos);
    return Program(exprs, s.diags);
  }

  /** One expression read from the rest of a program, after `exprs` and `diags`. */
  lemma ParseFromStep(toks: seq<Token>, pos: nat, exprs: seq<Raw>, diags: seq<Diagnostic>)
    requires Terminated(toks) && pos < |toks| && toks[pos].kind != End
    ensures var r := ParseExpr(toks, pos); var rest := ParseFrom(toks, r.pos);
            && exprs + ParseFrom(toks, pos).exprs == (if r.expr.Some? then exprs + [r.expr.value] else exprs) + rest.exprs
            && diags + ParseFrom(toks, pos).diags == diags + r.diags + rest.diags
  {
    hide ParseExpr, Terminated;
  }

  lemma ParseFromEnds(toks: seq<Token>, pos: nat)
    requires Terminated(toks) && pos < |toks| && toks[pos].kind == End
    ensures ParseFrom(toks, pos) == Program([], [])
  {
  }
}
