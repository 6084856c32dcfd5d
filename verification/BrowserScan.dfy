// What the browser's parser reads, and when and where it throws, by scans of the text character by
// character (app/src/parser.js:1-84; app/tests/parser.test.js:6-60).

module BrowserScan {
  import opened Source
  import opened Lexer
  import opened BrowserParser

  datatype Verdict = Fine | Wrong(offset: nat)

  /** From `o` on, `depth` lists being open, inside a comment or not. */
  function Scan(src: string, o: nat, depth: nat, comment: bool): Verdict
    requires o <= |src|
    decreases |src| - o
  {
    if o == |src| then (if depth == 0 then Fine else Wrong(o))
    else if comment then Scan(src, o + 1, depth, src[o] != '\n')
    else if src[o] == '(' then Scan(src, o + 1, depth + 1, false)
    else if src[o] == ')' then (if depth == 0 then Wrong(o) else Scan(src, o + 1, depth - 1, false))
    else Scan(src, o + 1, depth, src[o] == ';')
  }

  lemma {:induction false} CommentScans(src: string, o: nat, depth: nat)
    requires o <= |src|
    ensures Scan(src, o, depth, true) == Scan(src, LineEnd(src, o), depth, false)
    decreases |src| - o
  {
    if o < |src| && src[o] != '\n' { CommentScans(src, o + 1, depth); }
  }

  lemma {:induction false} SkipScans(src: string, o: nat, depth: nat)
    requires o <= |src|
    ensures Scan(src, o, depth, false) == Scan(src, Skip(src, o), depth, false)
    decreases |src| - o
  {
    if o < |src| && IsJsSpace(src[o]) {
      SkipScans(src, o + 1, depth);
      SpaceIsNoMark(src[o]);
    } else if o < |src| && src[o] == ';' {
      CommentScans(src, o + 1, depth);
      SkipScans(src, LineEnd(src, o + 1), depth);
    }
    hide IsJsSpace;
  }

  lemma SpaceIsNoMark(c: char)
    requires IsJsSpace(c)
    ensures c != '(' && c != ')' && c != ';'
  {
  }

  lemma {:induction false} AtomScans(src: string, o: nat, depth: nat)
    requires o <= |src|
    ensures Scan(src, o, depth, false) == Scan(src, AtomEnd(src, o), depth, false)
    decreases |src| - o
  {
    hide IsJsSpace;
    if o < |src| && !EndsAtom(src[o]) { AtomScans(src, o + 1, depth); }
  }

  lemma {:induction false} ExprScans(src: string, o: nat, depth: nat)
    requires o <= |src| && Skip(src, o) < |src| && src[Skip(src, o)] != ')'
    ensures var r := JsExpr(src, o);
            if r.Ok? then Scan(src, o, depth, false) == Scan(src, r.value.1, depth, false)
            else Scan(src, o, depth, false) == Wrong(|src|) && r.span == ErrorAt(src, |src|)
    decreases |src| - o, 2
  {
    hide JsRest, Skip, AtomEnd, ErrorAt, SpanOf;
    SkipScans(src, o, depth);
    var s := Skip(src, o);
    if src[s] == '(' { RestScans(src, s + 1, s, [], depth); } else { AtomScans(src, s, depth); }
  }

  lemma {:induction false} RestScans(src: string, o: nat, start: nat, kids: seq<Js>, depth: nat)
    requires start < o <= |src|
    ensures var r := JsRest(src, o, start, kids);
            if r.Ok? then Scan(src, o, depth + 1, false) == Scan(src, r.value.1, depth, false)
            else Scan(src, o, depth + 1, false) == Wrong(|src|) && r.span == ErrorAt(src, |src|)
    decreases |src| - o, 3
  {
    hide JsExpr, Skip, ErrorAt, SpanOf;
    SkipScans(src, o, depth + 1);
    var s := Skip(src, o);
    if s < |src| && src[s] != ')' {
      SkipAgain(src, o);
      ExprScans(src, s, depth + 1);
      var r := JsExpr(src, s);
      if r.Ok? { RestScans(src, r.value.1, start, kids + [r.value.0], depth); }
    }
  }

  lemma SkipAgain(src: string, o: nat)
    requires o <= |src|
    ensures Skip(src, Skip(src, o)) == Skip(src, o)
  {
  }

  lemma {:induction false} ProgramScans(src: string, o: nat)
    requires o <= |src|
    ensures var r := JsProgram(src, o);
            match Scan(src, o, 0, false)
            case Fine => r.Ok?
            case Wrong(p) => p <= |src| && r == Thrown(ErrorAt(src, p))
    decreases |src| - o
  {
    hide JsExpr, Skip, ErrorAt, SpanOf;
    SkipScans(src, o, 0);
    var s := Skip(src, o);
    if s < |src| {
      SkipAgain(src, o);
      var r := JsExpr(src, s);
      if src[s] != ')' {
        ExprScans(src, s, 0);
        if r.Ok? { ProgramScans(src, r.value.1); }
      } else {
        StrayThrows(src, s);
      }
    }
  }

  lemma StrayThrows(src: string, s: nat)
    requires s < |src| && src[s] == ')' && Skip(src, s) == s
    ensures JsExpr(src, s) == Thrown(ErrorAt(src, s))
  {
  }

  /** The browser's parser returns a tree exactly if, outside comments, no closing parenthesis comes too early and
      none is missing. Otherwise it throws: at the first that comes too early, with the span of that
      character, or at the end of the text, with an empty one. */
  lemma {:induction false} ThrowsExactly(src: string)
    ensures JsProgram(src, 0).Ok? <==> Scan(src, 0, 0, false) == Fine
    ensures var v := Scan(src, 0, 0, false);
            v.Wrong? ==> v.offset <= |src| && JsProgram(src, 0) == Thrown(SpanOf(src, v.offset, if v.offset < |src| then v.offset + 1 else |src|))
  {
    ProgramScans(src, 0);
    hide JsProgram, Scan, SpanOf;
  }

  // ---- what is read ----------------------------------------------------------------------------------------

  /** White space and line ends of ECMAScript (sections 12.2 and 12.3 of ECMA-262), by their code points. */
  const SPACES := {9, 10, 11, 12, 13, 32, 0xa0, 0x1680,
                   0x2000, 0x2001, 0x2002, 0x2003, 0x2004, 0x2005, 0x2006, 0x2007, 0x2008, 0x2009, 0x200a,
                   0x2028, 0x2029, 0x202f, 0x205f, 0x3000, 0xfeff}

  lemma SpacesAre(c: char)
    ensures IsJsSpace(c) <==> c as int in SPACES
  {
  }

  datatype Mark = Open | Close | Word(text: string)

  function Flush(src: string, from: nat, o: nat): seq<Mark>
    requires from <= o <= |src|
  {
    if from < o then [Word(src[from..o])] else []
  }

  /** The parentheses and words from `o` on, a word having begun at `from` if that is before `o`. */
  function Marks(src: string, from: nat, o: nat, comment: bool): seq<Mark>
    requires from <= o <= |src|
    decreases |src| - o
  {
    if o == |src| then Flush(src, from, o)
    else if comment then Marks(src, o + 1, o + 1, src[o] != '\n')
    else if src[o] as int in SPACES || src[o] == '(' || src[o] == ')' || src[o] == ';' then
      Flush(src, from, o) + (if src[o] == '(' then [Open] else if src[o] == ')' then [Close] else []) + Marks(src, o + 1, o + 1, src[o] == ';')
    else Marks(src, from, o + 1, false)
  }

  function Flat(js: Js): seq<Mark>
    decreases js, 1
  {
    match js
    case JsAtom(_, _, raw) => [Word(raw)]
    case JsList(_, kids) => [Open] + FlatAll(kids) + [Close]
  }

  function FlatAll(jss: seq<Js>): seq<Mark>
    decreases jss, 0
  {
    if jss == [] then [] else Flat(jss[0]) + FlatAll(jss[1..])
  }

  lemma {:induction false} FlatPush(jss: seq<Js>, js: Js)
    ensures FlatAll(jss + [js]) == FlatAll(jss) + Flat(js)
  {
    hide Flat;
    if jss == [] {
      assert [js][1..] == [] && [] + [js] == [js];
    } else {
      FlatPush(jss[1..], js);
      assert (jss + [js])[1..] == jss[1..] + [js];
    }
  }

  lemma {:induction false} CommentMarks(src: string, o: nat)
    requires o <= |src|
    ensures Marks(src, o, o, true) == Marks(src, LineEnd(src, o), LineEnd(src, o), false)
    decreases |src| - o
  {
    hide SPACES;
    if o < |src| {
      if src[o] == '\n' { NewlineIsSpace(); } else { CommentMarks(src, o + 1); }
    }
  }

  lemma NewlineIsSpace()
    ensures '\n' as int in SPACES
  {
  }

  lemma {:induction false} SkipMarks(src: string, o: nat)
    requires o <= |src|
    ensures Marks(src, o, o, false) == Marks(src, Skip(src, o), Skip(src, o), false)
    decreases |src| - o
  {
    hide IsJsSpace, SPACES;
    if o < |src| {
      SpacesAre(src[o]);
      if IsJsSpace(src[o]) {
        SpaceIsNoMark(src[o]);
        SkipMarks(src, o + 1);
      } else if src[o] == ';' {
        CommentMarks(src, o + 1);
        SkipMarks(src, LineEnd(src, o + 1));
      }
    }
  }

  lemma {:induction false} AtomMarks(src: string, from: nat, o: nat)
    requires from < o <= |src|
    ensures Marks(src, from, o, false) == [Word(src[from..AtomEnd(src, o)])] + Marks(src, AtomEnd(src, o), AtomEnd(src, o), false)
    decreases |src| - o
  {
    hide IsJsSpace, SPACES;
    if o < |src| {
      SpacesAre(src[o]);
      if !EndsAtom(src[o]) { AtomMarks(src, from, o + 1); }
    }
  }

  lemma MarkAt(src: string, o: nat)
    requires o < |src|
    ensures src[o] == '(' ==> Marks(src, o, o, false) == [Open] + Marks(src, o + 1, o + 1, false)
    ensures src[o] == ')' ==> Marks(src, o, o, false) == [Close] + Marks(src, o + 1, o + 1, false)
    ensures !EndsAtom(src[o]) ==> Marks(src, o, o, false) == Marks(src, o, o + 1, false) && AtomEnd(src, o) == AtomEnd(src, o + 1)
  {
    SpacesAre(src[o]);
    hide SPACES, IsJsSpace;
  }

  lemma {:induction false} ExprMarks(src: string, o: nat)
    requires o <= |src| && Skip(src, o) < |src| && JsExpr(src, o).Ok?
    ensures var (js, e) := JsExpr(src, o).value;
            Marks(src, o, o, false) == Flat(js) + Marks(src, e, e, false)
    decreases |src| - o, 2
  {
    hide JsRest, Skip, AtomEnd, SpanOf, Marks, IsJsSpace, IsIntegerWord;
    SkipMarks(src, o);
    var s := Skip(src, o);
    MarkAt(src, s);
    if src[s] == '(' {
      RestMarks(src, s + 1, s, []);
      var (js, e) := JsExpr(src, o).value;
      assert js.children[0..] == js.children;
      assert [Open] + (FlatAll(js.children) + [Close] + Marks(src, e, e, false)) == Flat(js) + Marks(src, e, e, false);
    } else {
      SkipStops(src, o);
      AtomMarks(src, s, s + 1);
    }
  }

  lemma SkipStops(src: string, o: nat)
    requires o <= |src| && Skip(src, o) < |src|
    ensures var c := src[Skip(src, o)]; !EndsAtom(c) || c == '(' || c == ')'
  {
  }

  lemma {:induction false} RestMarks(src: string, o: nat, start: nat, kids: seq<Js>)
    requires start < o <= |src| && JsRest(src, o, start, kids).Ok?
    ensures var (js, e) := JsRest(src, o, start, kids).value;
            && js.JsList? && kids <= js.children
            && Marks(src, o, o, false) == FlatAll(js.children[|kids|..]) + [Close] + Marks(src, e, e, false)
    decreases |src| - o, 3
  {
    hide JsExpr, Skip, SpanOf, Marks, Flat;
    SkipMarks(src, o);
    var s := Skip(src, o);
    MarkAt(src, s);
    if src[s] == ')' {
      assert kids[|kids|..] == [];
      assert FlatAll([]) + [Close] == [Close];
    } else {
      SkipAgain(src, o);
      ExprMarks(src, s);
      var (child, e) := JsExpr(src, s).value;
      RestMarks(src, e, start, kids + [child]);
      var (js, end) := JsRest(src, o, start, kids).value;
      assert js.children[|kids|] == (kids + [child])[|kids|] && js.children[|kids|..][1..] == js.children[|kids| + 1..];
      assert Flat(child) + (FlatAll(js.children[|kids| + 1..]) + [Close] + Marks(src, end, end, false))
          == Flat(child) + FlatAll(js.children[|kids| + 1..]) + [Close] + Marks(src, end, end, false);
    }
  }

  lemma {:induction false} ProgramMarks(src: string, o: nat)
    requires o <= |src| && JsProgram(src, o).Ok?
    ensures Marks(src, o, o, false) == FlatAll(JsProgram(src, o).value)
    decreases |src| - o
  {
    hide JsExpr, Skip, Marks, Flat;
    SkipMarks(src, o);
    var s := Skip(src, o);
    if s == |src| {
      NothingLeft(src);
    } else {
      SkipAgain(src, o);
      ExprMarks(src, s);
      ProgramMarks(src, JsExpr(src, s).value.1);
    }
  }

  lemma NothingLeft(src: string)
    ensures Marks(src, |src|, |src|, false) == []
  {
  }

  /** A tree that is returned has just the parentheses and words of the text, in their order. */
  lemma {:induction false} TreeIsText(src: string)
    requires JsProgram(src, 0).Ok?
    ensures FlatAll(JsProgram(src, 0).value) == Marks(src, 0, 0, false)
  {
    ProgramMarks(src, 0);
    hide JsProgram, Marks;
  }
}
