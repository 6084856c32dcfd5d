// The text that the editor writes reads back, and as which tree.

module EditorReads {
  import opened Ast
  import opened Source
  import opened Lexer
  import opened BrowserParser
  import opened Editor
  import opened EditorText
  import Json
  import JsonRoundTrip

  // ---- what the parser makes ---------------------------------------------------------------------------

  lemma {:induction false} AtomIsParsed(src: string, o: nat)
    requires o < |src| && !EndsAtom(src[o])
    ensures Parsed(BrowserParser.Atom(src, o, AtomEnd(src, o)))
  {
    hide EndsAtom;
    AtomHasNoEnd(src, o);
  }

  lemma {:induction false} AtomHasNoEnd(src: string, o: nat)
    requires o <= |src|
    ensures forall i :: o <= i < AtomEnd(src, o) ==> !EndsAtom(src[i])
    decreases |src| - o
  {
    hide EndsAtom;
    if o < |src| && !EndsAtom(src[o]) { AtomHasNoEnd(src, o + 1); }
  }

  lemma {:induction false} ExprIsParsed(src: string, o: nat)
    requires o <= |src| && Skip(src, o) < |src| && JsExpr(src, o).Ok?
    ensures Parsed(JsExpr(src, o).value.0)
    decreases |src| - o, 2
  {
    hide Parsed, IsJsSpace, BrowserParser.Atom;
    var s := Skip(src, o);
    if src[s] == '(' {
      RestIsParsed(src, s + 1, s, []);
    } else {
      AtomIsParsed(src, s);
    }
  }

  lemma {:induction false} RestIsParsed(src: string, o: nat, start: nat, kids: seq<Js>)
    requires start < o <= |src| && AllParsed(kids) && JsRest(src, o, start, kids).Ok?
    ensures Parsed(JsRest(src, o, start, kids).value.0)
    decreases |src| - o, 3
  {
    hide Parsed, IsJsSpace, Skip, JsExpr;
    var s := Skip(src, o);
    if src[s] == ')' {
      ListIsParsed(SpanOf(src, start, s + 1), kids);
    } else {
      SkipAgain(src, o);
      ExprIsParsed(src, s);
      var r := JsExpr(src, s).value;
      RestIsParsed(src, r.1, start, kids + [r.0]);
    }
  }

  lemma ListIsParsed(span: Span, kids: seq<Js>)
    requires AllParsed(kids)
    ensures Parsed(JsList(span, kids))
  {
  }

  /** Every atom that the editor's parser makes is a word of the kind that it says. */
  lemma {:induction false} ProgramIsParsed(src: string, o: nat)
    requires o <= |src| && JsProgram(src, o).Ok?
    ensures AllParsed(JsProgram(src, o).value)
    decreases |src| - o
  {
    hide Parsed, IsJsSpace, Skip, JsExpr;
    var s := Skip(src, o);
    if s < |src| {
      SkipAgain(src, o);
      ExprIsParsed(src, s);
      ProgramIsParsed(src, JsExpr(src, s).value.1);
    }
  }

  lemma {:induction false} BareIsLexical(js: Js)
    requires Parsed(js)
    ensures Lexical(Bare(js))
    decreases js
  {
    hide IsWord, IsIntegerWord;
    if js.JsList? {
      forall i | 0 <= i < |js.children|
        ensures Lexical(Bare(js.children[i]))
      {
        ParsedKid(js, i);
        BareIsLexical(js.children[i]);
      }
    }
  }

  // ---- the tree that the text reads back as ----------------------------------------------------------------

  function ValueTree(f: Form): Form
    decreases f, 1
  {
    match f
    case Atom(raw) => Form.Atom(Settle(raw))
    case Group(fs) => if fs == [] then f else Group((if fs[0].Atom? then [fs[0]] else []) + ValueTrees(fs[1..]))
  }

  function ValueTrees(fs: seq<Form>): (ts: seq<Form>)
    ensures |ts| == |fs|
    ensures forall i :: 0 <= i < |fs| ==> ts[i] == ValueTree(fs[i])
    decreases fs, 0
  {
    if fs == [] then [] else [ValueTree(fs[0])] + ValueTrees(fs[1..])
  }

  function StatementTree(f: Form): (t: Form)
    ensures t.Group? && t.forms != []
    decreases f, 1
  {
    var fs := Stated(f);
    Group([fs[0]] + ValueTrees(fs[1..Inline(fs)]) + if f.Group? && fs == f.forms then StatementTrees(f.forms[Inline(fs)..]) else [])
  }

  function StatementTrees(fs: seq<Form>): (ts: seq<Form>)
    ensures |ts| == |fs|
    ensures forall i :: 0 <= i < |fs| ==> ts[i] == StatementTree(fs[i])
    decreases fs, 0
  {
    if fs == [] then [] else [StatementTree(fs[0])] + StatementTrees(fs[1..])
  }

  // ---- reading it back ----------------------------------------------------------------------------------------

  /** The text stands in the source at offset `o`. */
  predicate At(src: string, o: nat, text: string) {
    o + |text| <= |src| && src[o..o + |text|] == text
  }

  lemma AtSplit(src: string, o: nat, a: string, b: string)
    requires At(src, o, a + b)
    ensures At(src, o, a) && At(src, o + |a|, b)
  {
    var t := src[o..o + |a + b|];
    assert t[..|a|] == a && t[|a|..] == b;
    assert src[o..o + |a|] == t[..|a|] && src[o + |a|..o + |a| + |b|] == t[|a|..];
  }

  /** An atom that nothing continues reads as itself. */
  lemma {:induction false} AtomReads(src: string, o: nat, w: string)
    requires IsWord(w) && At(src, o, w)
    requires o + |w| < |src| ==> EndsAtom(src[o + |w|])
    ensures Skip(src, o) == o && src[o] != '(' && src[o] != ')'
    ensures AtomEnd(src, o) == o + |w| && src[o..AtomEnd(src, o)] == w
    ensures JsExpr(src, o) == Ok((BrowserParser.Atom(src, o, o + |w|), o + |w|))
    ensures Bare(BrowserParser.Atom(src, o, o + |w|)) == Form.Atom(w)
  {
    var e := o + |w|;
    assert forall i :: o <= i < e ==> !EndsAtom(src[i]) by {
      forall i | o <= i < e ensures !EndsAtom(src[i]) { assert w[i - o] == src[i]; }
    }
    AtomEndIs(src, o, e);
    assert !EndsAtom(src[o]);
  }

  /** Blanks are skipped. */
  lemma {:induction false} BlanksSkipped(src: string, o: nat, e: nat)
    requires o <= e <= |src| && forall i :: o <= i < e ==> src[i] == ' ' || src[i] == '\n'
    ensures Skip(src, o) == Skip(src, e)
    decreases e - o
  {
    if o < e { BlanksSkipped(src, o + 1, e); }
  }

  /** A number's text is an integer word of that value. */
  lemma {:induction false} NumberIsWord(n: int)
    ensures IsWord(Json.Number(n)) && IsIntegerWord(Json.Number(n)) && SignedValue(Json.Number(n)) == n
  {
    hide Json.Decimal;
    var digits := Json.Decimal(if n < 0 then -n else n);
    JsonRoundTrip.DecimalReads(if n < 0 then -n else n);
    assert digits[0] != '-';
    assert Digits(Json.Number(n)) == digits;
  }

  /** Settled text stays settled, and an integer keeps its value. */
  lemma {:induction false} Settles(raw: string)
    requires IsWord(raw)
    ensures IsWord(Settle(raw)) && Settle(Settle(raw)) == Settle(raw)
    ensures IsIntegerWord(Settle(raw)) <==> IsIntegerWord(raw)
    ensures IsIntegerWord(raw) ==> SignedValue(Settle(raw)) == SignedValue(raw)
    ensures !IsIntegerWord(raw) ==> Settle(raw) == raw
  {
    hide IsWord, IsIntegerWord, Json.Number;
    if IsSafe(raw) { NumberIsWord(SignedValue(raw)); }
  }

  // ---- lists being read: from `o` on, inside a list opened at `start` with `kids` so far

  /** From `o` to `e` the list gains the trees `ts`. */
  predicate Gains(src: string, o: nat, e: nat, start: nat, kids: seq<Js>, more: seq<Js>, ts: seq<Form>) {
    && start < o <= e <= |src|
    && JsRest(src, o, start, kids) == JsRest(src, e, start, more)
    && BareAll(more) == BareAll(kids) + ts
  }

  lemma {:induction false} BarePush(kids: seq<Js>, js: Js)
    ensures BareAll(kids + [js]) == BareAll(kids) + [Bare(js)]
  {
  }

  lemma {:induction false} Gain(src: string, o: nat, s: nat, start: nat, kids: seq<Js>, js: Js, e: nat)
    requires start < o <= s < |src| && Skip(src, o) == s && src[s] != ')' && JsExpr(src, s) == Ok((js, e))
    ensures Gains(src, o, e, start, kids, kids + [js], [Bare(js)])
  {
    hide Skip, JsExpr;
    BarePush(kids, js);
  }

  lemma {:induction false} GainOn(src: string, o: nat, m: nat, e: nat, start: nat, kids: seq<Js>, some: seq<Js>, more: seq<Js>, ts: seq<Form>, us: seq<Form>)
    requires Gains(src, o, m, start, kids, some, ts) && Gains(src, m, e, start, some, more, us)
    ensures Gains(src, o, e, start, kids, more, ts + us)
  {
    hide JsRest;
    assert BareAll(kids) + (ts + us) == (BareAll(kids) + ts) + us;
  }

  lemma {:induction false} Closes(src: string, o: nat, start: nat, kids: seq<Js>)
    requires start < o < |src| && src[o] == ')'
    ensures JsRest(src, o, start, kids) == Ok((JsList(SpanOf(src, start, o + 1), kids), o + 1))
  {
  }

  lemma {:induction false} Opens(src: string, o: nat)
    requires o < |src| && src[o] == '('
    ensures Skip(src, o) == o && JsExpr(src, o) == JsRest(src, o + 1, o, [])
  {
  }

  /** What a text must be followed by to be read as written. */
  predicate Ended(src: string, o: nat) { o <= |src| && (o < |src| ==> EndsAtom(src[o])) }

  lemma {:induction false} ValueReads(src: string, o: nat, f: Form) returns (js: Js)
    requires Lexical(f) && At(src, o, ValueText(f)) && Ended(src, o + |ValueText(f)|)
    ensures o < |src| && Skip(src, o) == o && src[o] != ')'
    ensures JsExpr(src, o) == Ok((js, o + |ValueText(f)|)) && Bare(js) == ValueTree(f)
    decreases f, 1
  {
    hide IsWord, JsExpr, JsRest, Skip, EndsAtom, Settle, At, IsIntegerWord, IsSafe, BrowserParser.Atom, AtomEnd;
    if f.Atom? {
      Settles(f.raw);
      AtomReads(src, o, Settle(f.raw));
      WordStands(src, o, Settle(f.raw));
      js := BrowserParser.Atom(src, o, o + |Settle(f.raw)|);
    } else {
      js := GroupReads(src, o, f);
    }
  }

  lemma WordStands(src: string, o: nat, w: string)
    requires IsWord(w) && At(src, o, w)
    ensures o < |src|
  {
  }

  lemma AtFirst(src: string, o: nat, text: string)
    requires At(src, o, text) && text != ""
    ensures o + |text| <= |src| && src[o] == text[0]
  {
    assert src[o..o + |text|][0] == src[o];
  }

  lemma {:induction false} GroupReads(src: string, o: nat, f: Form) returns (js: Js)
    requires f.Group? && Lexical(f) && At(src, o, ValueText(f))
    ensures o < |src| && Skip(src, o) == o && src[o] != ')'
    ensures JsExpr(src, o) == Ok((js, o + |ValueText(f)|)) && Bare(js) == ValueTree(f)
    decreases f, 0
  {
    hide Gains, ValueText, ValuesText, ValueTree, ValueTrees, JsExpr, Skip, Lexical, IsWord, EndsAtom, At, Ended, GroupHead;
    var head, args := GroupHead(f), GroupArgs(f);
    GroupStands(src, o, f);
    GroupTree(f);
    LexicalGroup(f);
    var m, e := o + 1 + |head|, o + |ValueText(f)| - 1;
    var kids := HeadReads(src, o, head);
    var more := ValuesRead(src, m, o, kids, args);
    GainOn(src, o + 1, m, e, o, [], kids, more, if head == "" then [] else [Form.Atom(head)], ValueTrees(args));
    GainsClose(src, o, e, more, (if head == "" then [] else [Form.Atom(head)]) + ValueTrees(args));
    js := JsList(SpanOf(src, o, e + 1), more);
  }

  lemma LexicalGroup(f: Form)
    requires f.Group? && Lexical(f)
    ensures AllLexical(GroupArgs(f)) && (GroupHead(f) != "" ==> IsWord(GroupHead(f)))
    ensures forall i :: 0 <= i < |GroupArgs(f)| ==> GroupArgs(f)[i] < f
  {
    if f.forms != [] { assert Lexical(f.forms[0]); }
  }

  lemma EndedBefore(src: string, o: nat, text: string)
    requires At(src, o, text) && Ended(src, o + |text|)
    requires text != "" ==> text[0] == ' ' || text[0] == '\n'
    ensures Ended(src, o)
  {
    if text != "" {
      assert src[o] == src[o..o + |text|][0];
      BlankEnds(text[0]);
    }
  }

  lemma GainsClose(src: string, o: nat, e: nat, more: seq<Js>, ts: seq<Form>)
    requires Gains(src, o + 1, e, o, [], more, ts) && e < |src| && src[o] == '(' && src[e] == ')'
    ensures Skip(src, o) == o && JsExpr(src, o) == Ok((JsList(SpanOf(src, o, e + 1), more), e + 1))
    ensures Bare(JsList(SpanOf(src, o, e + 1), more)) == Group(ts)
  {
    Opens(src, o);
    Closes(src, e, o, more);
    hide JsExpr, JsRest;
    assert [] + ts == ts;
  }

  function GroupHead(f: Form): string
    requires f.Group?
  {
    if f.forms != [] && f.forms[0].Atom? then f.forms[0].raw else ""
  }

  function GroupArgs(f: Form): seq<Form>
    requires f.Group?
  {
    if f.forms == [] then [] else f.forms[1..]
  }

  lemma GroupTree(f: Form)
    requires f.Group? && Lexical(f)
    ensures ValueTree(f) == Group((if GroupHead(f) == "" then [] else [Form.Atom(GroupHead(f))]) + ValueTrees(GroupArgs(f)))
  {
    if f.forms != [] { assert Lexical(f.forms[0]); }
  }

  /** The parts of a list that stands in the source. */
  lemma GroupStands(src: string, o: nat, f: Form)
    requires f.Group? && At(src, o, ValueText(f))
    ensures |ValueText(f)| == 2 + |GroupHead(f)| + |ValuesText(GroupArgs(f))|
    ensures src[o] == '(' && At(src, o + 1, GroupHead(f))
    ensures At(src, o + 1 + |GroupHead(f)|, ValuesText(GroupArgs(f)))
    ensures src[o + |ValueText(f)| - 1] == ')' && o + |ValueText(f)| <= |src|
    ensures Ended(src, o + 1 + |GroupHead(f)|) && Ended(src, o + |ValueText(f)| - 1)
  {
    hide *;
    var head, args := GroupHead(f), ValuesText(GroupArgs(f));
    GroupParts(f);
    ValuesStart(GroupArgs(f));
    assert args + ("" + ")") == args + ")";
    PartsStand(src, o, head, args, "");
    Lengths(head, args, "");
  }

  lemma GroupParts(f: Form)
    requires f.Group?
    ensures ValueText(f) == "(" + (GroupHead(f) + (ValuesText(GroupArgs(f)) + ")"))
  {
    assert ValuesText([]) == "";
    assert ValueText(f) == "(" + GroupHead(f) + ValuesText(GroupArgs(f)) + ")" by { hide ValuesText; }
    hide *;
  }

  lemma ValuesStart(fs: seq<Form>)
    ensures ValuesText(fs) != "" ==> ValuesText(fs)[0] == ' '
  {
  }

  lemma {:induction false} HeadReads(src: string, start: nat, head: string) returns (kids: seq<Js>)
    requires start + 1 + |head| <= |src|
    requires head != "" ==> IsWord(head)
    requires At(src, start + 1, head) && Ended(src, start + 1 + |head|)
    ensures Gains(src, start + 1, start + 1 + |head|, start, [], kids, if head == "" then [] else [Form.Atom(head)])
  {
    hide IsWord, JsExpr, JsRest, Skip, EndsAtom;
    kids := [];
    if head != "" {
      AtomReads(src, start + 1, head);
      var js := BrowserParser.Atom(src, start + 1, start + 1 + |head|);
      Gain(src, start + 1, start + 1, start, [], js, start + 1 + |head|);
      kids := [] + [js];
    }
  }

  lemma {:induction false} ValuesRead(src: string, o: nat, start: nat, kids: seq<Js>, fs: seq<Form>) returns (more: seq<Js>)
    requires start < o && AllLexical(fs) && At(src, o, ValuesText(fs)) && Ended(src, o + |ValuesText(fs)|)
    ensures Gains(src, o, o + |ValuesText(fs)|, start, kids, more, ValueTrees(fs))
    decreases fs, 0
  {
    hide Lexical, JsExpr, JsRest, Skip, EndsAtom, ValueText, ValueTree, Gains, At, BareAll;
    more := kids;
    if fs == [] {
      GainNothing(src, o, start, kids);
    } else {
      var t, rest := ValueText(fs[0]), ValuesText(fs[1..]);
      var e := o + 1 + |t|;
      ValuesSplit(src, o, fs);
      hide Ended, ValuesText;
      var js := ValueReads(src, o + 1, fs[0]);
      BlanksSkipped(src, o, o + 1);
      Gain(src, o, o + 1, start, kids, js, e);
      more := ValuesRead(src, e, start, kids + [js], fs[1..]);
      GainOn(src, o, e, e + |rest|, start, kids, kids + [js], more, [Bare(js)], ValueTrees(fs[1..]));
    }
  }

  lemma GainNothing(src: string, o: nat, start: nat, kids: seq<Js>)
    requires start < o <= |src|
    ensures Gains(src, o, o, start, kids, kids, [])
  {
    hide JsRest;
    assert BareAll(kids) + [] == BareAll(kids);
  }

  lemma ValuesSplit(src: string, o: nat, fs: seq<Form>)
    requires fs != [] && At(src, o, ValuesText(fs)) && Ended(src, o + |ValuesText(fs)|)
    ensures var t, rest := ValueText(fs[0]), ValuesText(fs[1..]); var e := o + 1 + |t|;
            && |ValuesText(fs)| == 1 + |t| + |rest| && e + |rest| <= |src|
            && src[o] == ' ' && At(src, o + 1, t) && Ended(src, e) && At(src, e, rest)
  {
    hide *;
    var t, rest := ValueText(fs[0]), ValuesText(fs[1..]);
    ValuesParts(fs);
    ValuesStart(fs[1..]);
    Three(src, o, " ", t, rest);
  }

  /** Blanks, then a text, then a rest that does not continue it. */
  lemma Three(src: string, o: nat, pad: string, t: string, rest: string)
    requires At(src, o, pad + (t + rest)) && Ended(src, o + |pad + (t + rest)|)
    requires rest != "" ==> rest[0] == ' ' || rest[0] == '\n'
    ensures var s := o + |pad|; var e := s + |t|;
            && |pad + (t + rest)| == |pad| + |t| + |rest| && e + |rest| <= |src|
            && (forall i :: o <= i < s ==> src[i] == pad[i - o])
            && At(src, s, t) && Ended(src, e) && At(src, e, rest)
  {
    hide *;
    AtSplit(src, o, pad, t + rest);
    AtSplit(src, o + |pad|, t, rest);
    AtIs(src, o, pad);
    AtIs(src, o + |pad| + |t|, rest);
    EndedBefore(src, o + |pad| + |t|, rest);
  }

  lemma ValuesParts(fs: seq<Form>)
    requires fs != []
    ensures ValuesText(fs) == " " + (ValueText(fs[0]) + ValuesText(fs[1..]))
  {
    hide ValueText;
  }

  lemma BlankEnds(c: char)
    requires c == ' ' || c == '\n' || c == ')'
    ensures EndsAtom(c)
  {
  }

  // ---- statements being read

  function InlineArgs(f: Form): seq<Form> { Stated(f)[1..Inline(Stated(f))] }

  /** The statements on the lines below a statement's own. */
  function Lower(f: Form): (fs: seq<Form>)
    ensures forall i :: 0 <= i < |fs| ==> fs[i] < f
  {
    if f.Group? && Stated(f) == f.forms then f.forms[Inline(f.forms)..] else []
  }

  lemma {:induction false} StatedIsLexical(f: Form)
    requires Lexical(f)
    ensures IsWord(Stated(f)[0].raw) && AllLexical(InlineArgs(f)) && AllLexical(Lower(f))
  {
    hide IsIntegerWord, Vanishes;
    if f.Group? { assert AllLexical(f.forms) by { hide IsWord; } }
    hide Lexical;
    FixedWords();
    assert AllLexical(Stated(f));
  }

  lemma FixedWords()
    ensures Lexical(Form.Atom("expr")) && Lexical(Form.Atom("[object")) && Lexical(Form.Atom("Object]"))
  {
    assert forall c: char :: 'A' <= c <= 'z' ==> !EndsAtom(c);
    hide EndsAtom;
  }

  lemma {:induction false} StatementStands(src: string, o: nat, f: Form, indent: nat)
    requires At(src, o, StatementText(f, indent))
    ensures var h, a, b := Stated(f)[0].raw, ValuesText(InlineArgs(f)), BelowText(Lower(f), indent + 1);
            var m := o + 1 + |h|; var n := m + |a|; var e := n + |b|;
            && |StatementText(f, indent)| == 2 + |h| + |a| + |b| && e < |src|
            && src[o] == '(' && At(src, o + 1, h) && Ended(src, m)
            && At(src, m, a) && Ended(src, n) && At(src, n, b) && Ended(src, e) && src[e] == ')'
  {
    hide *;
    var h, a, b := Stated(f)[0].raw, ValuesText(InlineArgs(f)), BelowText(Lower(f), indent + 1);
    StatementParts(f, indent);
    ValuesStart(InlineArgs(f));
    BelowStarts(Lower(f), indent + 1);
    PartsStand(src, o, h, a, b);
    Lengths(h, a, b);
  }

  lemma Lengths(h: string, a: string, b: string)
    ensures |"(" + (h + (a + (b + ")")))| == 2 + |h| + |a| + |b|
    ensures "(" + h + a + b + ")" == "(" + (h + (a + (b + ")")))
  {
  }

  lemma StatementParts(f: Form, indent: nat)
    ensures StatementText(f, indent)
         == "(" + (Stated(f)[0].raw + (ValuesText(InlineArgs(f)) + (BelowText(Lower(f), indent + 1) + ")")))
  {
    NothingBelow(indent + 1);
    hide Stated, Inline, ValuesText, BelowText;
    Lengths(Stated(f)[0].raw, ValuesText(InlineArgs(f)), BelowText(Lower(f), indent + 1));
  }

  lemma NothingBelow(indent: nat)
    ensures BelowText([], indent) == ""
  {
  }

  lemma BelowStarts(fs: seq<Form>, indent: nat)
    ensures BelowText(fs, indent) != "" ==> BelowText(fs, indent)[0] == '\n'
  {
  }

  lemma PartsStand(src: string, o: nat, h: string, a: string, b: string)
    requires At(src, o, "(" + (h + (a + (b + ")"))))
    requires (a != "" ==> a[0] == ' ') && (b != "" ==> b[0] == '\n')
    ensures var m := o + 1 + |h|; var n := m + |a|; var e := n + |b|;
            && e < |src| && src[o] == '(' && At(src, o + 1, h) && Ended(src, m)
            && At(src, m, a) && Ended(src, n) && At(src, n, b) && Ended(src, e) && src[e] == ')'
  {
    var m := o + 1 + |h|; var n := m + |a|; var e := n + |b|;
    AtSplit(src, o, "(", h + (a + (b + ")")));
    AtSplit(src, o + 1, h, a + (b + ")"));
    AtSplit(src, m, a, b + ")");
    AtSplit(src, n, b, ")");
    hide At;
    AtFirst(src, o, "(");
    AtFirst(src, e, ")");
    BlankEnds(')');
    EndedBefore(src, n, b);
    EndedBefore(src, m, a);
  }

  lemma {:induction false} StatementReads(src: string, o: nat, f: Form, indent: nat) returns (js: Js)
    requires Lexical(f) && At(src, o, StatementText(f, indent))
    ensures o < |src| && Skip(src, o) == o && src[o] != ')'
    ensures JsExpr(src, o) == Ok((js, o + |StatementText(f, indent)|)) && Bare(js) == StatementTree(f)
    decreases f, 1
  {
    hide *;
    var head, args, low := Stated(f)[0].raw, InlineArgs(f), Lower(f);
    StatementStands(src, o, f, indent);
    StatedIsLexical(f);
    StatementTreeParts(f);
    StatedHead(f);
    var m := o + 1 + |head|; var n := m + |ValuesText(args)|; var e := n + |BelowText(low, indent + 1)|;
    var kids := HeadReads(src, o, head);
    var some := ValuesRead(src, m, o, kids, args);
    var more := BelowReads(src, n, o, some, f, low, indent + 1);
    var ts, us := ValueTrees(args), StatementTrees(low);
    GainOn(src, o + 1, m, n, o, [], kids, some, [Form.Atom(head)], ts);
    GainOn(src, o + 1, n, e, o, [], some, more, [Form.Atom(head)] + ts, us);
    GainsClose(src, o, e, more, [Form.Atom(head)] + ts + us);
    js := JsList(SpanOf(src, o, e + 1), more);
  }

  lemma StatedHead(f: Form)
    requires Lexical(f)
    ensures Stated(f)[0].raw != ""
  {
    StatedIsLexical(f);
  }

  lemma StatementTreeParts(f: Form)
    ensures StatementTree(f) == Group([Form.Atom(Stated(f)[0].raw)] + ValueTrees(InlineArgs(f)) + StatementTrees(Lower(f)))
  {
    hide Stated, Inline;
  }

  lemma {:induction false} BelowReads(src: string, o: nat, start: nat, kids: seq<Js>, f: Form, fs: seq<Form>, indent: nat) returns (more: seq<Js>)
    requires start < o && AllLexical(fs) && At(src, o, BelowText(fs, indent)) && Ended(src, o + |BelowText(fs, indent)|)
    requires forall i :: 0 <= i < |fs| ==> fs[i] < f
    ensures Gains(src, o, o + |BelowText(fs, indent)|, start, kids, more, StatementTrees(fs))
    decreases f, 0, |fs|
  {
    hide Lexical, JsExpr, JsRest, Skip, EndsAtom, StatementText, StatementTree, Gains, At, BareAll;
    more := kids;
    if fs == [] {
      GainNothing(src, o, start, kids);
    } else {
      var t, rest := StatementText(fs[0], indent), BelowText(fs[1..], indent);
      var s := o + 1 + 2 * indent; var e := s + |t|;
      BelowSplit(src, o, fs, indent);
      hide Ended, BelowText;
      var js := StatementReads(src, s, fs[0], indent);
      BlanksSkipped(src, o, s);
      Gain(src, o, s, start, kids, js, e);
      more := BelowReads(src, e, start, kids + [js], f, fs[1..], indent);
      GainOn(src, o, e, e + |rest|, start, kids, kids + [js], more, [Bare(js)], StatementTrees(fs[1..]));
    }
  }

  lemma {:induction false} PadIsBlank(indent: nat)
    ensures |Pad(indent)| == 2 * indent && forall i :: 0 <= i < |Pad(indent)| ==> Pad(indent)[i] == ' '
  {
    if indent > 0 { PadIsBlank(indent - 1); }
  }

  lemma {:induction false} BelowSplit(src: string, o: nat, fs: seq<Form>, indent: nat)
    requires fs != [] && At(src, o, BelowText(fs, indent)) && Ended(src, o + |BelowText(fs, indent)|)
    ensures var t, rest := StatementText(fs[0], indent), BelowText(fs[1..], indent);
            var s := o + 1 + 2 * indent; var e := s + |t|;
            && |BelowText(fs, indent)| == 1 + 2 * indent + |t| + |rest| && e + |rest| <= |src|
            && (forall i :: o <= i < s ==> src[i] == ' ' || src[i] == '\n')
            && At(src, s, t) && Ended(src, e) && At(src, e, rest)
  {
    hide *;
    var t, rest := StatementText(fs[0], indent), BelowText(fs[1..], indent);
    PadIsBlank(indent);
    BelowParts(fs, indent);
    BelowStarts(fs[1..], indent);
    Three(src, o, "\n" + Pad(indent), t, rest);
  }

  lemma AtIs(src: string, o: nat, text: string)
    requires At(src, o, text)
    ensures o + |text| <= |src| && forall i :: o <= i < o + |text| ==> src[i] == text[i - o]
  {
    forall i | o <= i < o + |text| ensures src[i] == text[i - o] {
      assert src[o..o + |text|][i - o] == src[i];
    }
  }

  lemma BelowParts(fs: seq<Form>, indent: nat)
    requires fs != []
    ensures BelowText(fs, indent) == "\n" + Pad(indent) + (StatementText(fs[0], indent) + BelowText(fs[1..], indent))
  {
    hide Pad, StatementText;
  }

  // ---- programs being read

  /** What follows the first statement of a program, or a whole program on lines of its own. */
  lemma {:induction false} LinesRead(src: string, o: nat, fs: seq<Form>) returns (jss: seq<Js>)
    requires AllLexical(fs) && At(src, o, BelowText(fs, 0)) && o + |BelowText(fs, 0)| == |src|
    ensures JsProgram(src, o) == Ok(jss) && BareAll(jss) == StatementTrees(fs)
    decreases |fs|
  {
    hide *;
    if fs == [] {
      jss := [];
      NoProgram(src, o);
    } else {
      var t, rest := StatementText(fs[0], 0), BelowText(fs[1..], 0);
      EndOfSource(src);
      BelowSplit(src, o, fs, 0);
      var js := StatementReads(src, o + 1, fs[0], 0) by { FormsLexical(fs); }
      BlanksSkipped(src, o, o + 1);
      FormsLexical(fs);
      var more := LinesRead(src, o + 1 + |t|, fs[1..]);
      jss := [js] + more;
      NextStatement(src, o, o + 1, js, o + 1 + |t|, more);
      TreesCons(js, more, fs);
    }
  }

  lemma EndOfSource(src: string)
    ensures Ended(src, |src|)
  {
  }

  lemma FormsLexical(fs: seq<Form>)
    requires fs != [] && AllLexical(fs)
    ensures Lexical(fs[0]) && AllLexical(fs[1..])
  {
    hide Lexical;
  }

  lemma NoProgram(src: string, o: nat)
    requires At(src, o, BelowText([], 0)) && o + |BelowText([], 0)| == |src|
    ensures JsProgram(src, o) == Ok([]) && BareAll([]) == StatementTrees([])
  {
  }

  lemma NextStatement(src: string, o: nat, s: nat, js: Js, e: nat, more: seq<Js>)
    requires o <= s < |src| && Skip(src, o) == s && JsExpr(src, s) == Ok((js, e)) && e <= |src| && JsProgram(src, e) == Ok(more)
    ensures JsProgram(src, o) == Ok([js] + more)
  {
    hide Skip, JsExpr;
  }

  lemma TreesCons(js: Js, more: seq<Js>, fs: seq<Form>)
    requires fs != [] && Bare(js) == StatementTree(fs[0]) && BareAll(more) == StatementTrees(fs[1..])
    ensures BareAll([js] + more) == StatementTrees(fs)
  {
    hide Bare, StatementTree;
    assert ([js] + more)[1..] == more;
  }

  /** The text of a program reads back, as the trees of its statements. */
  lemma {:induction false} FormsRead(fs: seq<Form>) returns (jss: seq<Js>)
    requires AllLexical(fs)
    ensures JsProgram(FormsText(fs), 0) == Ok(jss) && BareAll(jss) == StatementTrees(fs)
  {
    hide *;
    if fs == [] {
      jss := [];
      NoForms();
    } else {
      var src, t, rest := FormsText(fs), StatementText(fs[0], 0), BelowText(fs[1..], 0);
      FormsParts(fs);
      FormsLexical(fs);
      Whole(src);
      AtSplit(src, 0, t, rest);
      var js := StatementReads(src, 0, fs[0], 0);
      var more := LinesRead(src, |t|, fs[1..]);
      jss := [js] + more;
      NextStatement(src, 0, 0, js, |t|, more);
      TreesCons(js, more, fs);
    }
  }

  lemma NoForms()
    ensures JsProgram(FormsText([]), 0) == Ok([]) && BareAll([]) == StatementTrees([])
  {
  }

  lemma FormsParts(fs: seq<Form>)
    requires fs != []
    ensures FormsText(fs) == StatementText(fs[0], 0) + BelowText(fs[1..], 0)
  {
    hide StatementText, BelowText;
  }

  lemma Whole(src: string)
    ensures At(src, 0, src)
  {
    assert src[0..|src|] == src;
  }
}
