// The alphabet of the language, written out: which bytes make words, which separate them, and
// that every word of the language is one token (src/lexer.cpp:9-21, 52-130; src/compiler.cpp:41-89).

module Alphabet {
  import opened Source
  import opened Decimals
  import opened Lexer
  import opened LexerTheorems

  const UPPER := "ABCDEFGHIJKLMNOPQRSTUVWXYZ"
  const LOWER := "abcdefghijklmnopqrstuvwxyz"
  const DIGITS := "0123456789"
  const MARKS := "_-?!<>=+*/."
  const BLANKS := " \t\r\n"

  /** One of the 73 bytes that words are made of. */
  predicate IsWordByte(c: char) { c in UPPER || c in LOWER || c in DIGITS || c in MARKS }

  lemma UpperIs(c: char)
    ensures c in UPPER <==> 'A' <= c <= 'Z'
  {
  }

  lemma LowerIs(c: char)
    ensures c in LOWER <==> 'a' <= c <= 'z'
  {
  }

  lemma DigitsAre(c: char)
    ensures c in DIGITS <==> '0' <= c <= '9'
  {
  }

  lemma MarksAre(c: char)
    ensures c in MARKS <==> c == '_' || c == '-' || c == '?' || c == '!' || c == '<' || c == '>' || c == '=' || c == '+' || c == '*' || c == '/' || c == '.'
  {
  }

  lemma WordBytes(c: char)
    ensures IsSymbolChar(c) <==> IsWordByte(c)
  {
    UpperIs(c);
    LowerIs(c);
    DigitsAre(c);
    MarksAre(c);
    hide UPPER, LOWER, DIGITS, MARKS;
  }

  lemma BlankBytes(c: char)
    ensures IsBlank(c) <==> c in BLANKS
  {
  }

  /** Outside comments a byte belongs to a token exactly if it is a parenthesis or one of the 73, and
      is reported as unexpected exactly if it is neither that nor one of the four blanks; in a comment
      it is neither. */
  lemma {:induction false} EveryByte(src: string, p: nat) returns (words: seq<Token>)
    requires p < |src|
    ensures Lex(src).tokens == words + [EndToken(src)]
    ensures Covered(words, p) <==> !InComment(src, p) && (src[p] == '(' || src[p] == ')' || IsWordByte(src[p]))
    ensures Reported(src, Lex(src).diags, p)
            <==> !InComment(src, p) && src[p] != '(' && src[p] != ')' && !IsWordByte(src[p]) && src[p] !in BLANKS
  {
    words := LexerTiles(src);
    WordBytes(src[p]);
    BlankBytes(src[p]);
    hide IsWordByte, IsSymbolChar, IsBlank, BLANKS;
  }

  // ---- places --------------------------------------------------------------------------------------------

  /** The line of a place is one more than the line ends before it, and its column one more than the bytes
      since the last of them. */
  lemma {:induction false} PlaceIs(src: string, o: nat)
    requires o <= |src|
    ensures LineOf(src, o) == 1 + |LineEnds(src, o)|
    ensures var start := o - (ColumnOf(src, o) - 1);
            && 0 <= start <= o && (start == 0 || src[start - 1] == '\n') && forall k :: start <= k < o ==> src[k] != '\n'
  {
    if o > 0 {
      PlaceIs(src, o - 1);
      var before, now := LineEnds(src, o - 1), LineEnds(src, o);
      assert now == if src[o - 1] == '\n' then before + {o - 1} else before;
    }
  }

  function LineEnds(src: string, o: nat): set<nat>
    requires o <= |src|
  {
    set k: nat | k < o && src[k] == '\n'
  }

  // ---- the words of the language -----------------------------------------------------------------------

  const CONTROL := ["do", "repeat", "when", "if", "while", "define", "set!"]
  const COMMANDS := ["drive", "backward", "turn-left", "turn-right", "stop", "wait", "light", "beep"]
  const SENSORS := ["distance-cm", "button", "line-left", "line-right"]
  const OPERATORS := ["<", ">", "=", "<=", ">=", "and", "or", "not", "+", "-", "*", "/"]
  const LITERALS := ["true", "false", "off", "red", "green", "blue", "yellow", "white"]

  /** Lower-case letters, hyphens and operator signs. */
  predicate IsSpelled(w: string) {
    && w != "" && (forall i :: 0 <= i < |w| ==> 'a' <= w[i] <= 'z' || w[i] == '-' || w[i] == '!' || IsOperatorByte(w[i]))
  }

  predicate IsOperatorByte(c: char) { c == '<' || c == '>' || c == '=' || c == '+' || c == '*' || c == '/' }

  /** A text that is one such word is one symbol token with that text, and the end; nothing is reported. */
  lemma {:induction false} SpelledWordLexes(w: string)
    requires IsSpelled(w)
    ensures Lex(w) == Lexed([Token(Symbol, SpanOf(w, 0, |w|), w, 0), EndToken(w)], [])
  {
    forall i | 0 <= i < |w| ensures IsSymbolChar(w[i]) && !IsDigit(w[i]) { }
    WordEndIs(w, 1, |w|);
    assert w[0..|w|] == w;
    assert Digits(w) != "" ==> !IsDigit(Digits(w)[0]);
    hide IsIntegerWord, SpanOf;
    assert !IsBlank(w[0]) && w[0] != ';' && w[0] != '(' && w[0] != ')';
    assert NextLexeme(w, 0) == Lexeme(|w|, [Token(Symbol, SpanOf(w, 0, |w|), w, 0)], []);
    assert LexFrom(w, |w|) == Lexed([EndToken(w)], []);
  }

  /** Every word of the language is one symbol token. */
  lemma {:induction false} LanguageLexes(w: string)
    requires w in CONTROL || w in COMMANDS || w in SENSORS || w in OPERATORS || w in LITERALS
    ensures Lex(w) == Lexed([Token(Symbol, SpanOf(w, 0, |w|), w, 0), EndToken(w)], [])
  {
    assert IsSpelled(w) by {
      if w in CONTROL { ControlSpelled(w); }
      else if w in COMMANDS { CommandsSpelled(w); }
      else if w in SENSORS { SensorsSpelled(w); }
      else if w in OPERATORS { OperatorsSpelled(w); }
      else { LiteralsSpelled(w); }
    }
    SpelledWordLexes(w);
  }

  lemma ControlSpelled(w: string)
    requires w in CONTROL
    ensures IsSpelled(w)
  {
  }

  lemma CommandsSpelled(w: string)
    requires w in COMMANDS
    ensures IsSpelled(w)
  {
  }

  lemma SensorsSpelled(w: string)
    requires w in SENSORS
    ensures IsSpelled(w)
  {
  }

  lemma OperatorsSpelled(w: string)
    requires w in OPERATORS
    ensures IsSpelled(w)
  {
  }

  lemma LiteralsSpelled(w: string)
    requires w in LITERALS
    ensures IsSpelled(w)
  {
  }

  // ---- words of any kind -----------------------------------------------------------------------------------

  /** The word without its minus sign. */
  function Unsigned(w: string): string {
    if w != "" && w[0] == '-' then w[1..] else w
  }

  /** A minus sign or none, and digits. */
  predicate IsNumeral(w: string) {
    Unsigned(w) != "" && forall i :: 0 <= i < |Unsigned(w)| ==> Unsigned(w)[i] in DIGITS
  }

  /** The number that digits denote, from the left. */
  ghost function SizeOf(digits: string, sofar: nat): nat {
    if digits == "" then sofar
    else if exists k :: 0 <= k < 10 && DIGITS[k] == digits[0] then
      var k :| 0 <= k < 10 && DIGITS[k] == digits[0];
      SizeOf(digits[1..], 10 * sofar + k)
    else 0
  }

  lemma DigitIs(k: nat)
    requires k < 10
    ensures IsDigit(DIGITS[k]) && DigitValue(DIGITS[k]) == k
  {
  }

  lemma {:induction false} NumeralValue(digits: string, m: nat)
    requires m <= |digits| && AllDigits(digits)
    ensures SizeOf(digits[m..], Magnitude(digits[..m])) == Magnitude(digits)
    decreases |digits| - m
  {
    hide DIGITS, DigitValue, IsDigit;
    if m == |digits| {
      assert digits[..m] == digits && digits[m..] == "";
    } else {
      var c := digits[m];
      assert IsDigit(c);
      assert digits[..m + 1][..m] == digits[..m] && digits[m..][0] == c && digits[m..][1..] == digits[m + 1..];
      PlaceOfDigit(c);
      var k :| 0 <= k < 10 && DIGITS[k] == c;
      NumeralValue(digits, m + 1);
      forall j | 0 <= j < 10 && DIGITS[j] == c ensures j == DigitValue(c) { DigitIs(j); }
    }
  }

  lemma PlaceOfDigit(c: char)
    requires IsDigit(c)
    ensures |DIGITS| == 10 && exists k :: 0 <= k < 10 && DIGITS[k] == c
  {
    assert DIGITS[DigitValue(c)] == c;
  }

  lemma NumeralIs(w: string)
    ensures Unsigned(w) == Digits(w) && (IsNumeral(w) <==> IsIntegerWord(w))
  {
    assert Unsigned(w) == Digits(w);
    forall c: char ensures IsDigit(c) <==> c in DIGITS { DigitsAre(c); }
    hide DIGITS, IsDigit, Unsigned, Digits;
  }

  /** What a text that is one word is read as. */
  ghost function ReadAs(w: string): Lexed
    requires w != ""
  {
    var size := SizeOf(Unsigned(w), 0);
    var place := SpanOf(w, 0, |w|);
    if IsNumeral(w) && size <= 9223372036854775807
    then Lexed([Token(Integer, place, w, if w[0] == '-' then 0 - size else size), EndToken(w)], [])
    else if IsNumeral(w) then Lexed([Token(Integer, place, w, 0), EndToken(w)], [Diagnostic(place, IntegerOutOfRange)])
    else if w[0] in DIGITS then Lexed([Token(Symbol, place, w, 0), EndToken(w)], [Diagnostic(place, InvalidWord)])
    else Lexed([Token(Symbol, place, w, 0), EndToken(w)], [])
  }

  /** A text that is one word: a numeral up to 2^63 - 1 in size is that integer, and a larger one is reported
      as out of range; any other word that begins with a digit is reported as no word; the rest are symbols. */
  lemma {:induction false} WordLexes(w: string)
    requires w != "" && forall i :: 0 <= i < |w| ==> IsWordByte(w[i])
    ensures Lex(w) == ReadAs(w)
  {
    hide IsWordByte, IsSymbolChar, ReadAs, LexFrom, WordEnd;
    forall i | 0 <= i < |w| ensures IsSymbolChar(w[i]) { WordBytes(w[i]); }
    WordEndIs(w, 1, |w|);
    SymbolIsPlain(w[0]);
    OneWord(w);
    TokenIs(w);
  }

  lemma TokenIs(w: string)
    requires w != ""
    ensures Lexed([WordToken(w, 0, |w|), EndToken(w)], WordProblems(w, 0, |w|)) == ReadAs(w)
  {
    hide DIGITS, IsNumeral, IsIntegerWord, SizeOf, Magnitude, SpanOf, Unsigned, Digits;
    NumeralIs(w);
    DigitsAre(w[0]);
    assert w[0..|w|] == w;
    if IsNumeral(w) { NumeralHas(w); }
  }

  lemma NumeralHas(w: string)
    requires w != "" && IsIntegerWord(w)
    ensures SizeOf(Digits(w), 0) == Magnitude(Digits(w)) && SignedValue(w) == if w[0] == '-' then 0 - Magnitude(Digits(w)) else Magnitude(Digits(w))
  {
    var digits := Digits(w);
    NumeralValue(digits, 0);
    assert digits[0..] == digits && digits[..0] == "";
    hide SizeOf, IsDigit;
  }

  lemma SymbolIsPlain(c: char)
    requires IsSymbolChar(c)
    ensures !IsBlank(c) && c != ';' && c != '(' && c != ')'
  {
  }

  lemma OneWord(w: string)
    requires w != "" && IsSymbolChar(w[0]) && !IsBlank(w[0]) && w[0] != ';' && w[0] != '(' && w[0] != ')' && WordEnd(w, 1) == |w|
    ensures Lex(w) == Lexed([WordToken(w, 0, |w|), EndToken(w)], WordProblems(w, 0, |w|))
  {
    hide IsSymbolChar, IsBlank, WordToken, WordProblems, EndToken;
    assert NextLexeme(w, 0) == Lexeme(|w|, [WordToken(w, 0, |w|)], WordProblems(w, 0, |w|));
    assert LexFrom(w, |w|) == Lexed([EndToken(w)], []);
  }
}
