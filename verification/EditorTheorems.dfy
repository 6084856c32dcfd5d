// What the editor's loop keeps: when a second round changes nothing, and when the syntax
// tree is kept, each exactly.

module EditorTheorems {
  import opened Source
  import opened Lexer
  import opened BrowserParser
  import opened Editor
  import opened EditorText
  import opened EditorReads
  import opened Decimals

  // ---- a second round ---------------------------------------------------------------------------------

  /** No list of two or more elements in a value position has a list as its head. */
  predicate Straight(f: Form)
    decreases f, 1
  {
    f.Group? ==> (|f.forms| >= 2 ==> f.forms[0].Atom?) && AllStraight(GroupArgs(f))
  }

  predicate AllStraight(fs: seq<Form>)
    decreases fs, 0
  {
    forall i :: 0 <= i < |fs| ==> Straight(fs[i])
  }

  predicate StraightStatement(f: Form)
    decreases f, 1
  {
    AllStraight(InlineArgs(f)) && forall i :: 0 <= i < |Lower(f)| ==> StraightStatement(Lower(f)[i])
  }

  predicate StraightProgram(fs: seq<Form>) {
    forall i :: 0 <= i < |fs| ==> StraightStatement(fs[i])
  }

  lemma {:induction false} ValueAgain(f: Form)
    requires Lexical(f) && Straight(f)
    ensures ValueText(ValueTree(f)) == ValueText(f)
    decreases f, 1
  {
    hide IsWord, Settle;
    if f.Atom? {
      Settles(f.raw);
    } else {
      LexicalGroup(f);
      GroupTree(f);
      ValuesAgain(GroupArgs(f));
      GroupParts(f);
      GroupParts(ValueTree(f));
      assert GroupHead(ValueTree(f)) == GroupHead(f);
      assert GroupArgs(ValueTree(f)) == ValueTrees(GroupArgs(f));
    }
  }

  lemma {:induction false} ValuesAgain(fs: seq<Form>)
    requires AllLexical(fs) && AllStraight(fs)
    ensures ValuesText(ValueTrees(fs)) == ValuesText(fs)
    decreases fs, 0
  {
    hide Lexical, Straight, ValueText, ValueTree;
    if fs != [] {
      ValueAgain(fs[0]);
      ValuesAgain(fs[1..]);
      assert ValueTrees(fs)[1..] == ValueTrees(fs[1..]);
    }
  }

  lemma SymbolsStay(f: Form)
    requires Lexical(f)
    ensures IsSymbolForm(f) <==> IsSymbolForm(ValueTree(f))
    ensures IsSymbolForm(f) ==> ValueTree(f) == f
  {
    if f.Atom? { Settles(f.raw); }
  }

  lemma {:induction false} SignatureStays(f: Form)
    requires Lexical(f) && Straight(f)
    ensures IsSignature(ValueTree(f)) <==> IsSignature(f)
  {
    hide IsSymbolForm, IsWord;
    if f.Group? && f.forms != [] {
      LexicalGroup(f);
      GroupTree(f);
      var t, args := ValueTree(f).forms, GroupArgs(f);
      if f.forms[0].Atom? {
        assert t == [f.forms[0]] + ValueTrees(args);
        forall i | 0 <= i < |t|
          ensures IsSymbolForm(t[i]) <==> IsSymbolForm(f.forms[i])
        {
          if i > 0 { assert f.forms[i] == args[i - 1]; SymbolsStay(args[i - 1]); }
        }
      } else {
        assert !IsSymbolForm(f.forms[0]) by { NotSymbol(f.forms[0]); }
        assert t == [];
      }
    }
  }

  lemma NotSymbol(f: Form)
    requires f.Group?
    ensures !IsSymbolForm(f)
  {
  }

  lemma {:induction false} TargetsStay(f: Form)
    requires Lexical(f) && !Vanishes(f)
    ensures !Vanishes(ValueTree(f))
  {
    hide IsWord, IsIntegerWord, IsReserved;
    Settles(f.raw);
  }

  /** The elements of the tree that a statement is read back as. */
  lemma {:induction false} TreeElements(f: Form)
    requires Lexical(f)
    ensures var fs, ts := Stated(f), StatementTree(f).forms;
            && |ts| == |fs| && ts[0] == fs[0]
            && (forall i :: 1 <= i < Inline(fs) ==> ts[i] == ValueTree(fs[i]))
            && ts[1..Inline(fs)] == ValueTrees(InlineArgs(f)) && ts[Inline(fs)..] == StatementTrees(Lower(f))
    ensures Inline(Stated(f)) < |Stated(f)| ==> f.Group? && Stated(f) == f.forms
  {
    hide ValueTree, Lexical;
    StatementTreeParts(f);
    NoneLower(f);
    var fs, ts := Stated(f), StatementTree(f).forms;
    hide Inline, Stated;
    assert ts == [fs[0]] + ValueTrees(InlineArgs(f)) + StatementTrees(Lower(f));
    forall i | 1 <= i < Inline(fs)
      ensures ts[i] == ValueTree(fs[i])
    {
      assert InlineArgs(f)[i - 1] == fs[i];
    }
  }

  lemma NoneLower(f: Form)
    ensures Inline(Stated(f)) < |Stated(f)| ==> f.Group? && Stated(f) == f.forms
    ensures |Lower(f)| == |Stated(f)| - Inline(Stated(f))
  {
    hide IsIntegerWord;
    assert Form.Atom("expr").raw != "do";
  }

  lemma {:induction false} StatedAgain(f: Form)
    requires Lexical(f) && AllStraight(InlineArgs(f))
    ensures var t := StatementTree(f);
            && Stated(t) == t.forms && t.forms[0] == Stated(f)[0]
            && InlineArgs(t) == ValueTrees(InlineArgs(f)) && Lower(t) == StatementTrees(Lower(f))
  {
    var fs, t := Stated(f), StatementTree(f);
    TreeElements(f);
    assert Inline(t.forms) == Inline(fs) by { InlineStays(f); }
    assert !LosesTarget(t.forms) by { NothingLost(f); }
    hide Inline, LosesTarget, StatementTree, InlineArgs;
    assert Stated(t) == t.forms;
    assert InlineArgs(t) == t.forms[1..Inline(t.forms)] && InlineArgs(f) == fs[1..Inline(fs)] by { Args(t); Args(f); }
  }

  lemma Args(f: Form)
    ensures InlineArgs(f) == Stated(f)[1..Inline(Stated(f))]
  {
  }

  lemma {:induction false} NothingLost(f: Form)
    requires Lexical(f)
    ensures !LosesTarget(StatementTree(f).forms)
  {
    TreeElements(f);
    var fs, ts := Stated(f), StatementTree(f).forms;
    if LosesTarget(ts) {
      assert Inline(fs) == 3;
      assert f.Group? && f.forms == fs && !LosesTarget(fs) by { hide IsIntegerWord, Vanishes; }
      assert Lexical(fs[1]);
      TargetsStay(fs[1]);
    }
  }

  lemma {:induction false} InlineStays(f: Form)
    requires Lexical(f) && AllStraight(InlineArgs(f))
    ensures Inline(StatementTree(f).forms) == Inline(Stated(f))
  {
    TreeElements(f);
    var fs, ts := Stated(f), StatementTree(f).forms;
    if |fs| >= 3 && fs[0].raw == "define" {
      assert fs[1] == InlineArgs(f)[0];
      StatedIsLexical(f);
      SignatureStays(fs[1]);
    }
    hide Stated, StatementTree, IsSignature;
  }

  /** The text of a tree that was read back is the text that it was read from. */
  lemma {:induction false} StatementAgain(f: Form, indent: nat)
    requires Lexical(f) && StraightStatement(f)
    ensures StatementText(StatementTree(f), indent) == StatementText(f, indent)
    decreases f, 1
  {
    StraightFacts(f);
    StatedIsLexical(f);
    hide *;
    var t := StatementTree(f);
    StatedAgain(f);
    ValuesAgain(InlineArgs(f));
    BelowAgain(f, Lower(f), indent + 1);
    StatementParts(f, indent);
    StatementParts(t, indent);
  }

  lemma StraightFacts(f: Form)
    requires StraightStatement(f)
    ensures AllStraight(InlineArgs(f)) && StraightProgram(Lower(f)) && forall i :: 0 <= i < |Lower(f)| ==> Lower(f)[i] < f
  {
  }

  lemma {:induction false} BelowAgain(f: Form, fs: seq<Form>, indent: nat)
    requires AllLexical(fs) && StraightProgram(fs) && forall i :: 0 <= i < |fs| ==> fs[i] < f
    ensures BelowText(StatementTrees(fs), indent) == BelowText(fs, indent)
    decreases f, 0, |fs|
  {
    hide Lexical, StraightStatement, StatementText, StatementTree, Pad;
    if fs != [] {
      StatementAgain(fs[0], indent);
      BelowAgain(f, fs[1..], indent);
      assert StatementTrees(fs)[1..] == StatementTrees(fs[1..]);
    }
  }

  // ---- and only then: a dropped head leaves a blank behind

  /** A blank right after an opening parenthesis. */
  predicate Gap(s: string) {
    exists i :: 0 <= i < |s| - 1 && s[i] == '(' && s[i + 1] == ' '
  }

  lemma {:induction false} GapJoin(a: string, b: string)
    requires !(a != "" && a[|a| - 1] == '(' && b != "" && b[0] == ' ')
    ensures Gap(a + b) <==> Gap(a) || Gap(b)
  {
    var s := a + b;
    if Gap(s) {
      var i :| 0 <= i < |s| - 1 && s[i] == '(' && s[i + 1] == ' ';
      if i + 1 < |a| {
        assert a[i] == '(' && a[i + 1] == ' ';
      } else {
        assert i >= |a| ==> b[i - |a|] == '(' && b[i - |a| + 1] == ' ';
      }
    }
    if Gap(a) {
      var i :| 0 <= i < |a| - 1 && a[i] == '(' && a[i + 1] == ' ';
      assert s[i] == '(' && s[i + 1] == ' ';
    }
    if Gap(b) {
      var i :| 0 <= i < |b| - 1 && b[i] == '(' && b[i + 1] == ' ';
      assert s[|a| + i] == '(' && s[|a| + i + 1] == ' ';
    }
  }

  /** Text that cannot make a gap with what is around it. */
  predicate Snug(s: string) {
    s != "" && s[0] != ' ' && s[|s| - 1] != '('
  }

  lemma WordIsSnug(w: string)
    requires IsWord(w)
    ensures Snug(w) && !Gap(w)
  {
    assert forall i :: 0 <= i < |w| ==> w[i] != '(' && w[i] != ' ';
  }

  /** A list made of a head and arguments. */
  lemma {:induction false} GapOfList(head: string, args: string, lines: string)
    requires (head != "" ==> Snug(head)) && (args != "" ==> args[0] == ' ' && args[|args| - 1] != '(')
    requires lines != "" ==> lines[0] == '\n' && lines[|lines| - 1] != '('
    ensures var s := "(" + (head + (args + (lines + ")")));
            Snug(s) && (Gap(s) <==> Gap(head) || Gap(args) || Gap(lines) || (head == "" && args != ""))
  {
    var end := lines + ")";
    var tail := args + end;
    GapJoin(lines, ")");
    GapJoin(args, end);
    GapJoin(head, tail);
    assert !Gap(")") && !Gap("(");
    var s := "(" + (head + tail);
    if head == "" && args != "" {
      assert s[0] == '(' && s[1] == ' ';
    } else {
      GapJoin("(", head + tail);
    }
  }

  lemma {:induction false} ValueGap(f: Form)
    requires Lexical(f)
    ensures Snug(ValueText(f)) && (Gap(ValueText(f)) <==> !Straight(f))
    decreases f, 1
  {
    hide Gap, Snug, IsWord, Settle;
    if f.Atom? {
      Settles(f.raw);
      WordIsSnug(Settle(f.raw));
    } else {
      var head, args := GroupHead(f), GroupArgs(f);
      LexicalGroup(f);
      ValuesGap(args);
      GroupParts(f);
      if head != "" { WordIsSnug(head); }
      NoGap();
      assert ValuesText(args) + ("" + ")") == ValuesText(args) + ")";
      GapOfList(head, ValuesText(args), "");
      assert args != [] <==> |f.forms| >= 2;
      if f.forms != [] { assert Lexical(f.forms[0]); EmptyIsNoWord(); }
    }
  }

  lemma EmptyIsNoWord()
    ensures !IsWord("")
  {
  }

  lemma NoGap()
    ensures !Gap("")
  {
  }

  lemma {:induction false} ValuesGap(fs: seq<Form>)
    requires AllLexical(fs)
    ensures var s := ValuesText(fs);
            (s == "" <==> fs == []) && (s != "" ==> s[0] == ' ' && s[|s| - 1] != '(') && (Gap(s) <==> !AllStraight(fs))
    decreases fs, 0
  {
    hide Gap, Lexical, Straight, ValueText;
    if fs == [] {
      NoGap();
    } else {
      var t, rest := ValueText(fs[0]), ValuesText(fs[1..]);
      ValueGap(fs[0]);
      ValuesGap(fs[1..]);
      GapOfItem(" ", t, rest);
      ValuesParts(fs);
      assert AllStraight(fs) <==> Straight(fs[0]) && AllStraight(fs[1..]) by { FirstAndRest(fs); }
    }
  }

  lemma FirstAndRest(fs: seq<Form>)
    requires fs != []
    ensures AllStraight(fs) <==> Straight(fs[0]) && AllStraight(fs[1..])
    ensures StraightProgram(fs) <==> StraightStatement(fs[0]) && StraightProgram(fs[1..])
  {
    hide Straight, StraightStatement;
    assert fs == [fs[0]] + fs[1..];
  }

  lemma {:induction false} GapOfItem(pad: string, t: string, rest: string)
    requires pad != "" && (forall i :: 0 <= i < |pad| ==> pad[i] != '(') && Snug(t)
    requires rest != "" ==> rest[|rest| - 1] != '('
    ensures var s := pad + (t + rest); s != "" && s[0] == pad[0] && s[|s| - 1] != '(' && (Gap(s) <==> Gap(t) || Gap(rest))
  {
    GapJoin(t, rest);
    GapJoin(pad, t + rest);
    assert !Gap(pad);
  }

  lemma {:induction false} StatementGap(f: Form, indent: nat)
    requires Lexical(f)
    ensures Snug(StatementText(f, indent)) && (Gap(StatementText(f, indent)) <==> !StraightStatement(f))
    decreases f, 1
  {
    hide *;
    var head, args, low := Stated(f)[0].raw, InlineArgs(f), Lower(f);
    StatedIsLexical(f);
    WordIsSnug(head);
    ValuesGap(args);
    LowerIsLower(f);
    BelowGap(f, low, indent + 1);
    StatementParts(f, indent);
    GapOfList(head, ValuesText(args), BelowText(low, indent + 1));
    EmptyIsNoWord();
  }

  lemma LowerIsLower(f: Form)
    ensures forall i :: 0 <= i < |Lower(f)| ==> Lower(f)[i] < f
    ensures StraightStatement(f) <==> AllStraight(InlineArgs(f)) && StraightProgram(Lower(f))
  {
    hide InlineArgs, Lower;
  }

  lemma {:induction false} BelowGap(f: Form, fs: seq<Form>, indent: nat)
    requires AllLexical(fs) && forall i :: 0 <= i < |fs| ==> fs[i] < f
    ensures var s := BelowText(fs, indent);
            (s != "" ==> s[0] == '\n' && s[|s| - 1] != '(') && (Gap(s) <==> !StraightProgram(fs))
    decreases f, 0, |fs|
  {
    hide Gap, Lexical, StraightStatement, StatementText, Pad;
    if fs == [] {
      NoGap();
    } else {
      PadIsBlank(indent);
      StatementGap(fs[0], indent);
      BelowGap(f, fs[1..], indent);
      GapOfItem("\n" + Pad(indent), StatementText(fs[0], indent), BelowText(fs[1..], indent));
      BelowParts(fs, indent);
      FirstAndRest(fs);
    }
  }

  lemma {:induction false} FixedValue(f: Form)
    requires Lexical(f) && ValueTree(f) == f
    ensures Straight(f)
    decreases f
  {
    hide IsWord, Settle;
    if f.Group? {
      LexicalGroup(f);
      GroupTree(f);
      var args := GroupArgs(f);
      assert f.forms != [] ==> f.forms[0].Atom?;
      forall i | 0 <= i < |args|
        ensures Straight(args[i])
      {
        assert args[i] == f.forms[i + 1];
        FixedValue(args[i]);
      }
    }
  }

  lemma {:induction false} FixedStatement(f: Form)
    requires Lexical(f) && StatementTree(f) == f
    ensures StraightStatement(f)
    decreases f
  {
    hide *;
    TreeElements(f);
    FixedIsStated(f);
    StatedIsLexical(f);
    LowerIsLower(f);
    LowerIs(f);
    Args(f);
    var fs, args, low := f.forms, InlineArgs(f), Lower(f);
    forall i | 0 <= i < |args|
      ensures Straight(args[i])
    {
      assert args[i] == fs[i + 1];
      LexicalElement(f, i + 1);
      FixedValue(args[i]);
    }
    forall i | 0 <= i < |low|
      ensures StraightStatement(low[i])
    {
      var k := Inline(fs) + i;
      assert low[i] == fs[k] && StatementTrees(low)[i] == fs[k];
      LexicalElement(f, k);
      FixedStatement(low[i]);
    }
    AllAreStraight(args, low);
  }

  lemma AllAreStraight(args: seq<Form>, low: seq<Form>)
    ensures AllStraight(args) <==> forall i :: 0 <= i < |args| ==> Straight(args[i])
    ensures StraightProgram(low) <==> forall i :: 0 <= i < |low| ==> StraightStatement(low[i])
  {
    hide Straight, StraightStatement;
  }

  lemma LowerIs(f: Form)
    requires f.Group? && Stated(f) == f.forms
    ensures Lower(f) == f.forms[Inline(Stated(f))..]
  {
  }

  lemma FixedIsStated(f: Form)
    requires Lexical(f) && StatementTree(f) == f
    ensures f.Group? && Stated(f) == f.forms
  {
    TreeElements(f);
    hide StatementTree, Lexical, Inline, IsIntegerWord, Vanishes;
  }

  lemma {:induction false} ProgramGap(fs: seq<Form>)
    requires AllLexical(fs)
    ensures Gap(FormsText(fs)) <==> !StraightProgram(fs)
  {
    hide Gap, Lexical, StraightStatement, StatementText, BelowText, Snug;
    if fs == [] {
      NoGap();
    } else {
      var rest := Group(fs[1..]);
      StatementGap(fs[0], 0);
      BelowGap(rest, fs[1..], 0);
      assert BelowText(fs[1..], 0) != "" ==> BelowText(fs[1..], 0)[0] == '\n';
      GapJoin(StatementText(fs[0], 0), BelowText(fs[1..], 0));
      FirstAndRest(fs);
    }
  }

  lemma {:induction false} ProgramAgain(fs: seq<Form>)
    requires AllLexical(fs) && StraightProgram(fs)
    ensures FormsText(StatementTrees(fs)) == FormsText(fs)
  {
    hide Lexical, StraightStatement, StatementText, BelowText, StatementTree;
    if fs != [] {
      StatementAgain(fs[0], 0);
      BelowAgain(Group(fs[1..]), fs[1..], 0);
      assert StatementTrees(fs)[1..] == StatementTrees(fs[1..]);
    }
  }

  /** Trees that were read back are made of words again. */
  lemma TreesLexical(fs: seq<Form>) returns (jss: seq<Js>)
    requires AllLexical(fs)
    ensures JsProgram(FormsText(fs), 0) == Ok(jss) && BareAll(jss) == StatementTrees(fs) && AllParsed(jss)
    ensures AllLexical(StatementTrees(fs))
  {
    jss := FormsRead(fs);
    ProgramIsParsed(FormsText(fs), 0);
    hide FormsText, JsProgram, StatementTree, Parsed, Lexical;
    BaresLexical(jss);
  }

  lemma BaresLexical(jss: seq<Js>)
    requires AllParsed(jss)
    ensures AllLexical(BareAll(jss))
  {
    hide Parsed, Lexical;
    forall i | 0 <= i < |jss| ensures Lexical(BareAll(jss)[i]) { BareIsLexical(jss[i]); }
  }

  /** Canonical text: what one round writes can be read, and a second round writes it again,
      exactly when no list of two or more elements in a value position has a list as its head. */
  lemma {:induction false} RoundIsIdempotent(src: string) returns (jss: seq<Js>, again: seq<Js>)
    requires JsProgram(src, 0).Ok?
    ensures JsProgram(src, 0) == Ok(jss) && JsProgram(Round(jss), 0) == Ok(again)
    ensures Round(again) == Round(jss) <==> StraightProgram(BareAll(jss))
  {
    hide *;
    jss := JsProgram(src, 0).value;
    ProgramIsParsed(src, 0);
    BaresLexical(jss);
    var fs := BareAll(jss);
    var ts := StatementTrees(fs);
    again := TreesLexical(fs);
    ProgramWritten(jss);
    ProgramWritten(again);
    if StraightProgram(fs) {
      ProgramAgain(fs);
    } else if FormsText(ts) == FormsText(fs) {
      var third := TreesLexical(ts);
      assert StatementTrees(ts) == ts;
      FixedProgram(ts);
      ProgramGap(ts);
      ProgramGap(fs);
    }
  }

  lemma FixedProgram(ts: seq<Form>)
    requires AllLexical(ts) && StatementTrees(ts) == ts
    ensures StraightProgram(ts)
  {
    hide Lexical, StatementTree, StraightStatement;
    forall i | 0 <= i < |ts| ensures StraightStatement(ts[i]) {
      assert StatementTrees(ts)[i] == StatementTree(ts[i]);
      FixedStatement(ts[i]);
    }
  }

  // ---- the syntax tree ----------------------------------------------------------------------------------

  /** The same tree, integers by value. */
  predicate Same(f: Form, g: Form)
    decreases f
  {
    match f
    case Atom(raw) =>
      g.Atom? && (raw == g.raw || (IsIntegerWord(raw) && IsIntegerWord(g.raw) && SignedValue(raw) == SignedValue(g.raw)))
    case Group(fs) => g.Group? && |fs| == |g.forms| && forall i :: 0 <= i < |fs| ==> Same(fs[i], g.forms[i])
  }

  predicate SameAll(fs: seq<Form>, gs: seq<Form>) {
    |fs| == |gs| && forall i :: 0 <= i < |fs| ==> Same(fs[i], gs[i])
  }

  /** No list in a value position has a list as its head. */
  predicate KeptValue(f: Form)
    decreases f
  {
    f.Group? && f.forms != [] ==> f.forms[0].Atom? && forall i :: 1 <= i < |f.forms| ==> KeptValue(f.forms[i])
  }

  /** A list with a symbol as its head, which is not a set! whose target is printed as an object. */
  predicate KeptStatement(f: Form)
    decreases f
  {
    && f.Group? && f.forms != [] && IsSymbolForm(f.forms[0]) && !LosesTarget(f.forms)
    && (forall i :: 1 <= i < Inline(f.forms) ==> KeptValue(f.forms[i]))
    && (forall i :: Inline(f.forms) <= i < |f.forms| ==> KeptStatement(f.forms[i]))
  }

  predicate KeptProgram(fs: seq<Form>) {
    forall i :: 0 <= i < |fs| ==> KeptStatement(fs[i])
  }

  lemma {:induction false} ValueKept(f: Form)
    requires Lexical(f)
    ensures Same(ValueTree(f), f) <==> KeptValue(f)
    decreases f
  {
    hide IsWord, Settle, IsIntegerWord;
    if f.Atom? {
      Settles(f.raw);
    } else if f.forms != [] && f.forms[0].Atom? {
      var fs, t := f.forms, ValueTree(f);
      assert t.forms == [fs[0]] + ValueTrees(fs[1..]);
      forall i | 1 <= i < |fs|
        ensures Same(t.forms[i], fs[i]) <==> KeptValue(fs[i])
      {
        assert t.forms[i] == ValueTree(fs[1..][i - 1]);
        ValueKept(fs[i]);
      }
      assert Same(t.forms[0], fs[0]);
      assert KeptValue(f) ==> forall i :: 1 <= i < |fs| ==> Same(t.forms[i], fs[i]);
    }
  }

  lemma {:induction false} StatementKept(f: Form)
    requires Lexical(f)
    ensures Same(StatementTree(f), f) <==> KeptStatement(f)
    decreases f
  {
    var fs, t := Stated(f), StatementTree(f);
    TreeElements(f);
    if f.Group? && f.forms == fs {
      StatementKeptOf(f);
    } else {
      NotKept(f);
    }
  }

  /** A statement that is printed as another list does not keep its tree. */
  lemma {:induction false} NotKept(f: Form)
    requires Lexical(f) && !(f.Group? && f.forms == Stated(f))
    ensures !Same(StatementTree(f), f) && !KeptStatement(f)
  {
    TreeElements(f);
    var fs, ts := Stated(f), StatementTree(f).forms;
    hide StatementTree, Lexical, Inline, Vanishes, IsIntegerWord;
    SameFirst(StatementTree(f), f);
  }

  lemma SameFirst(t: Form, f: Form)
    ensures Same(t, f) && t.Group? && t.forms != [] ==> f.Group? && |f.forms| == |t.forms| && Same(t.forms[0], f.forms[0])
  {
  }

  lemma {:induction false} StatementKeptOf(f: Form)
    requires Lexical(f) && f.Group? && f.forms == Stated(f)
    ensures Same(StatementTree(f), f) <==> KeptStatement(f)
    decreases f, 0
  {
    hide *;
    var fs, ts, n := f.forms, StatementTree(f).forms, Inline(Stated(f));
    TreeElements(f);
    SymbolHead(f);
    NotLost(f);
    LowerIs(f);
    forall i | 1 <= i < n
      ensures Same(ts[i], fs[i]) <==> KeptValue(fs[i])
    {
      LexicalElement(f, i);
      ValueKept(fs[i]);
    }
    forall i | n <= i < |fs|
      ensures Same(ts[i], fs[i]) <==> KeptStatement(fs[i])
    {
      assert ts[n..][i - n] == ts[i] && fs[n..][i - n] == fs[i];
      LexicalElement(f, i);
      StatementKept(fs[i]);
    }
    SameElements(StatementTree(f), f);
    KeptElements(f);
    assert (forall i :: 0 <= i < |fs| ==> Same(ts[i], fs[i]))
      <==> (forall i :: 1 <= i < n ==> Same(ts[i], fs[i])) && (forall i :: n <= i < |fs| ==> Same(ts[i], fs[i]));
  }

  lemma LexicalElement(f: Form, i: nat)
    requires f.Group? && Lexical(f) && i < |f.forms|
    ensures Lexical(f.forms[i]) && f.forms[i] < f
  {
  }

  lemma SymbolHead(f: Form)
    requires f.Group? && f.forms == Stated(f)
    ensures f.forms != [] && f.forms[0].Atom? && IsSymbolForm(f.forms[0]) && Same(f.forms[0], f.forms[0])
  {
  }

  lemma SameElements(t: Form, f: Form)
    requires t.Group? && f.Group? && |t.forms| == |f.forms|
    ensures Same(t, f) <==> forall i :: 0 <= i < |f.forms| ==> Same(t.forms[i], f.forms[i])
  {
  }

  lemma KeptElements(f: Form)
    requires f.Group? && f.forms != [] && f.forms[0].Atom? && IsSymbolForm(f.forms[0]) && !LosesTarget(f.forms)
    ensures KeptStatement(f) <==> (forall i :: 1 <= i < Inline(f.forms) ==> KeptValue(f.forms[i]))
                                  && (forall i :: Inline(f.forms) <= i < |f.forms| ==> KeptStatement(f.forms[i]))
  {
    hide KeptValue, LosesTarget, IsSymbolForm, Inline;
  }

  lemma NotLost(f: Form)
    requires f.Group? && f.forms == Stated(f)
    ensures !LosesTarget(f.forms)
  {
    hide Vanishes;
  }

  /** The round keeps the syntax tree, places aside and integers by value, exactly when every
      statement is a list with a symbol as its head, none is a set! whose target is printed as an
      object, and no list in a value position has a list as its head. */
  lemma {:induction false} RoundKeepsTheTree(src: string) returns (jss: seq<Js>, again: seq<Js>)
    requires JsProgram(src, 0).Ok?
    ensures JsProgram(src, 0) == Ok(jss) && JsProgram(Round(jss), 0) == Ok(again)
    ensures SameAll(BareAll(again), BareAll(jss)) <==> KeptProgram(BareAll(jss))
  {
    hide *;
    jss := JsProgram(src, 0).value;
    ProgramIsParsed(src, 0);
    BaresLexical(jss);
    again := TreesLexical(BareAll(jss));
    ProgramWritten(jss);
    ProgramKept(BareAll(jss));
  }

  lemma ProgramKept(fs: seq<Form>)
    requires AllLexical(fs)
    ensures SameAll(StatementTrees(fs), fs) <==> KeptProgram(fs)
  {
    hide Lexical, Same, KeptStatement, StatementTree;
    forall i | 0 <= i < |fs| ensures Same(StatementTree(fs[i]), fs[i]) <==> KeptStatement(fs[i]) { StatementKept(fs[i]); }
    assert SameAll(StatementTrees(fs), fs) ==> forall i :: 0 <= i < |fs| ==> Same(StatementTrees(fs)[i], fs[i]);
  }

  // ---- what goes wrong -----------------------------------------------------------------------------------

  /** The assignment (set! x 5). */
  const ASSIGNMENT := Group([Form.Atom("set!"), Form.Atom("x"), Form.Atom("5")])

  lemma FiveIsFive()
    ensures Settle("5") == "5" && Settle("x") == "x" && IsWord("5") && IsWord("x") && IsWord("set!")
    ensures !IsIntegerWord("x") && !IsIntegerWord("set!") && !IsReserved("x")
  {
    assert Digits("5") == "5" && Magnitude("5") == 5 by { assert "5"[..0] == ""; }
    assert Digits("x")[0] == 'x' && Digits("set!")[0] == 's';
  }

  lemma {:induction false} AssignmentText()
    ensures ValueText(ASSIGNMENT) == "(set! x 5)" && ValueTree(ASSIGNMENT) == ASSIGNMENT
    ensures StatementText(ASSIGNMENT, 0) == "(set! [object Object] 5)"
    ensures Lexical(ASSIGNMENT) && LosesTarget(ASSIGNMENT.forms)
  {
    hide *;
    AssignmentValue();
    AssignmentStated();
    AssignmentLiterals();
  }

  lemma AssignmentLiterals()
    ensures "(" + ("set!" + (" " + "x" + (" " + "5") + ")")) == "(set! x 5)"
    ensures "(" + ("set!" + ((" " + "[object" + (" " + "Object]" + (" " + "5" + ""))) + ("" + ")"))) == "(set! [object Object] 5)"
  {
  }

  lemma {:induction false} AssignmentValue()
    ensures ValueText(ASSIGNMENT) == "(" + ("set!" + (" " + "x" + (" " + "5") + ")")) && ValueTree(ASSIGNMENT) == ASSIGNMENT
    ensures Lexical(ASSIGNMENT) && LosesTarget(ASSIGNMENT.forms)
  {
    FiveIsFive();
    hide IsWord, Settle, IsIntegerWord, IsReserved, ValuesText, ValueText;
    var x, five := Form.Atom("x"), Form.Atom("5");
    assert GroupArgs(ASSIGNMENT) == [x, five] && GroupHead(ASSIGNMENT) == "set!";
    GroupParts(ASSIGNMENT);
    GroupTree(ASSIGNMENT);
    TwoForms(x, five);
    OneForm(five);
    AtomText(x);
    AtomText(five);
    assert ValueTrees([x, five]) == [x, five] by { assert ValueTree(x) == x && ValueTree(five) == five; }
  }

  lemma AtomText(f: Form)
    requires f.Atom?
    ensures ValueText(f) == Settle(f.raw)
  {
  }

  lemma {:induction false} AssignmentStated()
    ensures StatementText(ASSIGNMENT, 0)
         == "(" + ("set!" + ((" " + "[object" + (" " + "Object]" + (" " + "5" + ""))) + ("" + ")")))
  {
    var o, t, five := Form.Atom("[object"), Form.Atom("Object]"), Form.Atom("5");
    FiveIsFive();
    ObjectWords();
    hide IsWord, Settle, IsIntegerWord, IsReserved, ValuesText, ValueText, StatementText, BelowText;
    assert Stated(ASSIGNMENT) == [Form.Atom("set!"), o, t, five];
    assert InlineArgs(ASSIGNMENT) == [o, t, five] && Lower(ASSIGNMENT) == [];
    StatementParts(ASSIGNMENT, 0);
    NothingBelow(1);
    ObjectText(o, t, five);
    ShortAtom(o);
    ShortAtom(t);
    AtomText(five);
  }

  /** The source "(set! x 5)" is written as "(set! [object Object] 5)": its tree is lost. */
  lemma {:induction false} AssignmentIsGarbled() returns (jss: seq<Js>)
    ensures JsProgram("(set! x 5)", 0) == Ok(jss) && BareAll(jss) == [ASSIGNMENT]
    ensures Round(jss) == "(set! [object Object] 5)"
    ensures !KeptProgram(BareAll(jss)) && StraightProgram(BareAll(jss))
  {
    hide *;
    var src := "(set! x 5)";
    AssignmentText();
    Whole(src);
    EndOfSource(src);
    var js := ValueReads(src, 0, ASSIGNMENT);
    jss := [js];
    OneStatement(src, js);
    ProgramIsParsed(src, 0);
    ProgramWritten(jss);
    OneText(ASSIGNMENT);
    OnlyKept();
  }

  lemma OneStatement(src: string, js: Js)
    requires |src| > 0 && Skip(src, 0) == 0 && JsExpr(src, 0) == Ok((js, |src|))
    ensures JsProgram(src, 0) == Ok([js]) && BareAll([js]) == [Bare(js)]
  {
    hide JsExpr;
    assert JsProgram(src, |src|) == Ok([]);
    NextStatement(src, 0, 0, js, |src|, []);
    assert [js] + [] == [js];
  }

  lemma OneText(f: Form)
    ensures FormsText([f]) == StatementText(f, 0)
  {
    hide StatementText;
    assert [f][1..] == [];
    assert BelowText([], 0) == "";
  }

  lemma {:induction false} OnlyKept()
    requires LosesTarget(ASSIGNMENT.forms)
    ensures !KeptProgram([ASSIGNMENT]) && StraightProgram([ASSIGNMENT])
  {
    hide LosesTarget, StraightStatement, KeptStatement, Stated, Inline;
    assert [ASSIGNMENT][0] == ASSIGNMENT;
    assert !KeptStatement(ASSIGNMENT) by { LostIsNotKept(ASSIGNMENT); }
    AssignmentStraight();
  }

  lemma LostIsNotKept(f: Form)
    requires f.Group? && LosesTarget(f.forms)
    ensures !KeptStatement(f)
  {
    hide LosesTarget;
  }

  lemma {:induction false} AssignmentStraight()
    ensures StraightStatement(ASSIGNMENT)
  {
    AssignmentText();
    FiveIsFive();
    ObjectWords();
    hide IsWord, IsIntegerWord, IsReserved, Vanishes;
    assert Lower(ASSIGNMENT) == [];
    assert Stated(ASSIGNMENT) == [Form.Atom("set!"), Form.Atom("[object"), Form.Atom("Object]"), Form.Atom("5")];
    forall i | 0 <= i < |InlineArgs(ASSIGNMENT)|
      ensures Straight(InlineArgs(ASSIGNMENT)[i])
    {
      assert InlineArgs(ASSIGNMENT)[i] == Stated(ASSIGNMENT)[i + 1];
    }
  }

  /** In (wait ((f) x)) a list heads a list: the first round writes "(wait ( x))", which the
      second writes as "(wait (x))". */
  const NESTED := Group([Form.Atom("wait"), Group([Group([Form.Atom("f")]), Form.Atom("x")])])
  const FLAT := Group([Form.Atom("wait"), Group([Form.Atom("x")])])

  lemma {:induction false} NestedHeadIsLost() returns (jss: seq<Js>, again: seq<Js>)
    ensures JsProgram("(wait ((f) x))", 0) == Ok(jss) && BareAll(jss) == [NESTED] && Round(jss) == "(wait ( x))"
    ensures JsProgram("(wait ( x))", 0) == Ok(again) && BareAll(again) == [FLAT] && Round(again) == "(wait (x))"
  {
    hide *;
    var js := NestedReads();
    jss := [js];
    OneStatement("(wait ((f) x))", js);
    ProgramIsParsed("(wait ((f) x))", 0);
    ProgramWritten(jss);
    NestedForms();
    BaresLexical(jss);
    again := TreesLexical([NESTED]);
    ProgramWritten(again);
  }

  /** The source as the parser reads it, from the inside out. */
  lemma {:induction false} NestedReads() returns (js: Js)
    ensures var src := "(wait ((f) x))"; Skip(src, 0) == 0 && JsExpr(src, 0) == Ok((js, |src|)) && Bare(js) == NESTED
  {
    hide *;
    var src := "(wait ((f) x))";
    NestedSlices();
    NestedWords();
    var head := ValueReads(src, 7, Group([Form.Atom("f")]));
    Gain(src, 7, 7, 6, [], head, 10);
    BlankEnds(' ');
    BlankEnds(')');
    var some := ValuesRead(src, 10, 6, [] + [head], [Form.Atom("x")]);
    GainOn(src, 7, 10, 12, 6, [], [] + [head], some, [Bare(head)], [Form.Atom("x")]);
    GainsClose(src, 6, 12, some, [Bare(head)] + [Form.Atom("x")]);
    var inner := JsList(SpanOf(src, 6, 13), some);
    var kids := HeadReads(src, 0, "wait");
    BlanksSkipped(src, 5, 6);
    Gain(src, 5, 6, 0, kids, inner, 13);
    GainOn(src, 1, 5, 13, 0, [], kids, kids + [inner], [Form.Atom("wait")], [Bare(inner)]);
    GainsClose(src, 0, 13, kids + [inner], [Form.Atom("wait")] + [Bare(inner)]);
    js := JsList(SpanOf(src, 0, 14), kids + [inner]);
    NestedIs();
    assert [Form.Atom("wait")] + [Bare(inner)] == [Form.Atom("wait"), Bare(inner)];
    assert [Bare(head)] + [Form.Atom("x")] == [Bare(head), Form.Atom("x")];
  }

  lemma NestedIs()
    ensures NESTED == Group([Form.Atom("wait"), Group([Group([Form.Atom("f")]), Form.Atom("x")])])
  {
  }

  lemma NestedSlices()
    ensures var src := "(wait ((f) x))";
            && |src| == 14 && src[0] == '(' && src[5] == ' ' && src[6] == '(' && src[7] == '(' && src[10] == ' ' && src[12] == ')' && src[13] == ')'
            && At(src, 1, "wait") && At(src, 7, "(f)") && At(src, 10, " x")
            && Ended(src, 5) && Ended(src, 10) && Ended(src, 12)
  {
    BlankEnds(' ');
    BlankEnds(')');
  }

  lemma {:induction false} NestedWords()
    ensures IsWord("wait") && IsWord("f") && IsWord("x")
    ensures Lexical(Group([Form.Atom("f")])) && AllLexical([Form.Atom("x")])
    ensures ValueText(Group([Form.Atom("f")])) == "(f)" && ValueTree(Group([Form.Atom("f")])) == Group([Form.Atom("f")])
    ensures ValuesText([Form.Atom("x")]) == " x" && ValueTrees([Form.Atom("x")]) == [Form.Atom("x")]
  {
    FiveIsFive();
    assert IsWord("wait") && IsWord("f");
    hide IsWord, Settle, IsIntegerWord;
    var f, x := Group([Form.Atom("f")]), Form.Atom("x");
    assert GroupArgs(f) == [] && GroupHead(f) == "f";
    GroupParts(f);
    assert ValuesText([]) == "" && "(" + ("f" + ("" + ")")) == "(f)";
    OneForm(x);
    AtomText(x);
    assert " " + "x" == " x";
    assert ValueTree(x) == x;
  }

  lemma {:induction false} NestedForms()
    ensures FormsText([NESTED]) == "(wait ( x))" && FormsText([FLAT]) == "(wait (x))"
    ensures StatementTrees([NESTED]) == [FLAT]
  {
    NestedTexts();
    var inner, flat := NESTED.forms[1], FLAT.forms[1];
    hide FormsText, ValueText, ValueTree, Stated, Inline;
    WaitStatement(inner);
    WaitStatement(flat);
    NestedLiterals();
    assert StatementTrees([NESTED]) == [StatementTree(NESTED)];
  }

  lemma NestedLiterals()
    ensures "(" + ("wait" + (" " + ("(" + ("" + (" " + "x" + ")"))) + ("" + ")"))) == "(wait ( x))"
    ensures "(" + ("wait" + (" " + ("(" + ("x" + ("" + ")"))) + ("" + ")"))) == "(wait (x))"
  {
  }

  lemma {:induction false} NestedTexts()
    ensures ValueText(NESTED.forms[1]) == "(" + ("" + (" " + "x" + ")")) && ValueText(FLAT.forms[1]) == "(" + ("x" + ("" + ")"))
    ensures ValueTree(NESTED.forms[1]) == FLAT.forms[1]
  {
    FiveIsFive();
    hide IsWord, Settle, IsIntegerWord, ValueText;
    var x, inner, flat := Form.Atom("x"), NESTED.forms[1], FLAT.forms[1];
    assert GroupArgs(inner) == [x] && GroupArgs(flat) == [];
    GroupParts(inner);
    GroupParts(flat);
    OneForm(x);
    AtomText(x);
    assert ValueTrees([x]) == [x];
  }

  lemma {:induction false} WaitStatement(v: Form)
    ensures var f := Group([Form.Atom("wait"), v]);
            && FormsText([f]) == "(" + ("wait" + (" " + ValueText(v) + ("" + ")")))
            && StatementTree(f) == Group([Form.Atom("wait"), ValueTree(v)])
  {
    var f := Group([Form.Atom("wait"), v]);
    WaitParts(v);
    hide *;
    StatementParts(f, 0);
    StatementTreeParts(f);
    OneForm(v);
    NothingBelow(0);
    NothingBelow(1);
    FormsParts([f]);
    assert [f][1..] == [] && StatementText(f, 0) + "" == StatementText(f, 0);
    assert [Form.Atom("wait")] + [ValueTree(v)] + [] == [Form.Atom("wait"), ValueTree(v)];
  }

  lemma WaitParts(v: Form)
    ensures var f := Group([Form.Atom("wait"), v]);
            && Stated(f)[0].raw == "wait" && InlineArgs(f) == [v] && Lower(f) == []
            && ValueTrees([v]) == [ValueTree(v)] && StatementTrees([]) == []
  {
    hide ValueTree;
    var w := Form.Atom("wait");
    assert Digits("wait")[0] == 'w';
    assert Stated(Group([w, v])) == [w, v] && Inline([w, v]) == 2;
  }
}
