/** Properties of the scanner and of the shunting-yard pass: the scanner is
    the unique maximal-munch split of its input, operands keep their order,
    parentheses never reach the output of a balanced formula, and operators
    bind by precedence and to the left. */
module ShuntingYardProperties {
  import opened Wrappers
  import opened Text
  import opened ShuntingYard

  /** The text a token stands for. */
  function TokenText(t: Token): string {
    match t
    case Operand(w) => w
    case Symbol(c) => [c]
  }

  /** The text a token sequence stands for. */
  function Spell(toks: seq<Token>): string {
    if toks == [] then [] else TokenText(toks[0]) + Spell(toks[1..])
  }

  /** Operands are words and symbols are not letters or digits. */
  predicate TokensOk(toks: seq<Token>) {
    forall i :: 0 <= i < |toks| ==>
      (toks[i].Operand? ==> IsWord(toks[i].word)) && (toks[i].Symbol? ==> !IsDigitLetter(toks[i].c))
  }

  /** A split of a text into tokens in which every operand is maximal: no
      operand is directly followed by another. */
  predicate WellFormed(toks: seq<Token>) {
    TokensOk(toks) && forall i :: 0 < i < |toks| ==> toks[i - 1].Symbol? || toks[i].Symbol?
  }

  lemma WellFormedCons(t: Token, toks: seq<Token>)
    requires WellFormed(toks)
    requires t.Operand? ==> IsWord(t.word)
    requires t.Symbol? ==> !IsDigitLetter(t.c)
    requires t.Operand? && toks != [] ==> toks[0].Symbol?
    ensures WellFormed([t] + toks)
  {
    var r := [t] + toks;
    forall i | 0 < i < |r| ensures r[i - 1].Symbol? || r[i].Symbol? {
      if i > 1 { assert r[i - 1] == toks[i - 2] && r[i] == toks[i - 1]; }
    }
    forall i | 0 < i < |r|
      ensures (r[i].Operand? ==> IsWord(r[i].word)) && (r[i].Symbol? ==> !IsDigitLetter(r[i].c))
    {
      assert r[i] == toks[i - 1];
    }
  }

  lemma WellFormedTail(toks: seq<Token>)
    requires toks != [] && WellFormed(toks)
    ensures WellFormed(toks[1..])
  {
    var r := toks[1..];
    forall i | 0 < i < |r| ensures r[i - 1].Symbol? || r[i].Symbol? {
      assert r[i - 1] == toks[i] && r[i] == toks[i + 1];
    }
  }

  /** The length of the first token of a nonempty text. */
  function HeadLength(s: string): (n: nat)
    requires s != []
    ensures 0 < n <= |s|
  {
    if IsDigitLetter(s[0]) then RunLength(s) else 1
  }

  /** The first token of a nonempty text. */
  function HeadToken(s: string): Token
    requires s != []
  {
    if IsDigitLetter(s[0]) then Operand(s[..RunLength(s)]) else Symbol(s[0])
  }

  lemma LexHead(s: string)
    requires s != []
    ensures Lex(s) == [HeadToken(s)] + Lex(s[HeadLength(s)..])
    ensures TokenText(HeadToken(s)) == s[..HeadLength(s)]
  {
  }

  /** The scanner spells its input back. */
  lemma {:induction false} LexSpells(s: string)
    ensures Spell(Lex(s)) == s
    decreases |s|
  {
    if s != [] {
      var n := HeadLength(s);
      var rest := Lex(s[n..]);
      LexHead(s);
      LexSpells(s[n..]);
      SpellCons(HeadToken(s), rest);
      assert Spell(Lex(s)) == s[..n] + Spell(rest);
      assert s == s[..n] + s[n..];
    }
  }

  /** The scanner's split is well formed. */
  lemma {:induction false} LexWellFormed(s: string)
    ensures WellFormed(Lex(s))
    decreases |s|
  {
    if s != [] {
      var n := HeadLength(s);
      var rest := Lex(s[n..]);
      LexHead(s);
      LexWellFormed(s[n..]);
      if IsDigitLetter(s[0]) && n < |s| {
        LexSymbol(s[n..]);
      }
      WellFormedCons(HeadToken(s), rest);
    }
  }

  /** Every symbol token is a character of the input. */
  lemma {:induction false} LexSymbolsFromInput(s: string)
    ensures forall i :: 0 <= i < |Lex(s)| && Lex(s)[i].Symbol? ==> Lex(s)[i].c in s
    decreases |s|
  {
    if s != [] {
      var n := HeadLength(s);
      var rest := Lex(s[n..]);
      LexHead(s);
      LexSymbolsFromInput(s[n..]);
      forall i | 0 <= i < |Lex(s)| && Lex(s)[i].Symbol? ensures Lex(s)[i].c in s {
        if i > 0 {
          assert Lex(s)[i] == rest[i - 1];
          assert rest[i - 1].c in s[n..];
        }
      }
    }
  }

  /** Scanning the text of a well-formed token sequence gives that sequence
      back: together with `LexSpells`, the scanner's split is the only
      well-formed one, that is, every operand is a maximal run. */
  lemma {:induction false} LexOfSpell(toks: seq<Token>)
    requires WellFormed(toks)
    ensures Lex(Spell(toks)) == toks
    decreases |toks|
  {
    if toks != [] {
      var rest := toks[1..];
      WellFormedTail(toks);
      LexOfSpell(rest);
      assert toks == [toks[0]] + rest;
      if rest != [] {
        assert rest[0].Symbol? ==> Spell(rest) == [rest[0].c] + Spell(rest[1..]);
      }
      match toks[0]
      case Operand(w) =>
        assert rest != [] ==> rest[0].Symbol?;
        LexWord(w, Spell(rest));
      case Symbol(c) =>
        LexChar(c, Spell(rest));
    }
  }

  lemma SpellCons(t: Token, toks: seq<Token>)
    ensures Spell([t] + toks) == TokenText(t) + Spell(toks)
  {
    assert ([t] + toks)[1..] == toks;
  }

  /** The token sequence of four names separated by `-`. */
  function FourNames(a: string, b: string, c: string, d: string): seq<Token> {
    [Operand(a)] + ([Symbol('-')] + ([Operand(b)] + ([Symbol('-')] + ([Operand(c)] + ([Symbol('-')] + [Operand(d)])))))
  }

  lemma FourNamesWellFormed(a: string, b: string, c: string, d: string)
    requires IsWord(a) && IsWord(b) && IsWord(c) && IsWord(d)
    ensures WellFormed(FourNames(a, b, c, d))
  {
    var t6: seq<Token> := [Operand(d)];
    var t5 := [Symbol('-')] + t6;
    var t4 := [Operand(c)] + t5;
    var t3 := [Symbol('-')] + t4;
    var t2 := [Operand(b)] + t3;
    var t1 := [Symbol('-')] + t2;
    WellFormedCons(Operand(d), []);
    assert [Operand(d)] + [] == t6;
    WellFormedCons(Symbol('-'), t6);
    WellFormedCons(Operand(c), t5);
    WellFormedCons(Symbol('-'), t4);
    WellFormedCons(Operand(b), t3);
    WellFormedCons(Symbol('-'), t2);
    WellFormedCons(Operand(a), t1);
  }

  lemma FourNamesSpell(a: string, b: string, c: string, d: string)
    ensures Spell(FourNames(a, b, c, d)) == a + "-" + b + "-" + c + "-" + d
  {
    var t6: seq<Token> := [Operand(d)];
    var t5 := [Symbol('-')] + t6;
    var t4 := [Operand(c)] + t5;
    var t3 := [Symbol('-')] + t4;
    var t2 := [Operand(b)] + t3;
    var t1 := [Symbol('-')] + t2;
    SpellCons(Operand(d), []);
    assert [Operand(d)] + [] == t6;
    SpellCons(Symbol('-'), t6);
    SpellCons(Operand(c), t5);
    SpellCons(Symbol('-'), t4);
    SpellCons(Operand(b), t3);
    SpellCons(Symbol('-'), t2);
    SpellCons(Operand(a), t1);
    assert d + [] == d;
  }

  lemma FourNamesDisplay(a: string, b: string, c: string, d: string)
    ensures FourNames(a, b, c, d) ==
      [Operand(a), Symbol('-'), Operand(b), Symbol('-'), Operand(c), Symbol('-'), Operand(d)]
  {
  }

  lemma LexFourNames(a: string, b: string, c: string, d: string)
    requires IsWord(a) && IsWord(b) && IsWord(c) && IsWord(d)
    ensures Lex(a + "-" + b + "-" + c + "-" + d) == FourNames(a, b, c, d)
  {
    FourNamesWellFormed(a, b, c, d);
    FourNamesSpell(a, b, c, d);
    LexOfSpell(FourNames(a, b, c, d));
  }

  /** A formula of four names separated by `-` scans into exactly those four
      operands, however long the names and whatever mix of letters and digits
      they hold (the names `A32`, `bee11`, `cbde`, `e11e` are one case). */
  lemma LongNames(a: string, b: string, c: string, d: string)
    requires IsWord(a) && IsWord(b) && IsWord(c) && IsWord(d)
    ensures Lex(a + "-" + b + "-" + c + "-" + d) ==
      [Operand(a), Symbol('-'), Operand(b), Symbol('-'), Operand(c), Symbol('-'), Operand(d)]
  {
    LexFourNames(a, b, c, d);
    FourNamesDisplay(a, b, c, d);
  }

  lemma PoppedSnoc(x: seq<char>, c: char)
    ensures PoppedStrings(x + [c]) == [Str(c)] + PoppedStrings(x)
  {
    assert (x + [c])[..|x|] == x;
  }

  /** What `PopWhile` leaves on the stack: a bottom segment, ending (if
      anything is left) with a character of precedence below `p`, and every
      character above it of precedence at least `p`. */
  lemma {:induction false} PopWhileKeeps(stack: seq<char>, out: seq<string>, p: int)
    ensures var r := PopWhile(stack, out, p);
      |r.0| <= |stack| && r.0 == stack[..|r.0|]
      && (r.0 != [] ==> OperatorPrecedence(r.0[|r.0| - 1]) < p)
      && forall k :: |r.0| <= k < |stack| ==> OperatorPrecedence(stack[k]) >= p
    decreases |stack|
  {
    if stack != [] && OperatorPrecedence(stack[|stack| - 1]) >= p {
      var n := |stack|;
      var below := stack[..n - 1];
      PopWhileKeeps(below, out + [Str(stack[n - 1])], p);
      var m := |PopWhile(below, out + [Str(stack[n - 1])], p).0|;
      assert below[..m] == stack[..m];
      forall k | m <= k < n ensures OperatorPrecedence(stack[k]) >= p {
        if k < n - 1 {
          assert stack[k] == below[k];
        }
      }
    }
  }

  /** What `PopWhile` appends to the output: the popped segment, top first. */
  lemma {:induction false} PopWhileOutput(stack: seq<char>, out: seq<string>, p: int)
    ensures var r := PopWhile(stack, out, p);
      |r.0| <= |stack| && r.1 == out + PoppedStrings(stack[|r.0|..])
    decreases |stack|
  {
    if stack != [] && OperatorPrecedence(stack[|stack| - 1]) >= p {
      var n := |stack|;
      var below, top := stack[..n - 1], stack[n - 1];
      PopWhileOutput(below, out + [Str(top)], p);
      var m := |PopWhile(below, out + [Str(top)], p).0|;
      assert stack[m..] == below[m..] + [top];
      PoppedSnoc(below[m..], top);
    } else {
      assert stack[|stack|..] == [];
    }
  }

  /** `PopWhile` moves a top segment of the stack, every character of it of
      precedence at least `p`, to the output in pop order, and stops at a
      character of lower precedence or at the bottom. */
  lemma PopWhileShape(stack: seq<char>, out: seq<string>, p: int)
    ensures var r := PopWhile(stack, out, p);
      |r.0| <= |stack| && r.0 == stack[..|r.0|] && r.1 == out + PoppedStrings(stack[|r.0|..])
      && (r.0 != [] ==> OperatorPrecedence(r.0[|r.0| - 1]) < p)
      && forall k :: |r.0| <= k < |stack| ==> OperatorPrecedence(stack[k]) >= p
  {
    PopWhileKeeps(stack, out, p);
    PopWhileOutput(stack, out, p);
  }

  /** What `PopUntilOpen` leaves on the stack: a bottom segment, ending
      (if anything is left) with a `(`, and no `(` above it. */
  lemma {:induction false} PopUntilOpenKeeps(stack: seq<char>, out: seq<string>)
    ensures var r := PopUntilOpen(stack, out);
      |r.0| <= |stack| && r.0 == stack[..|r.0|]
      && (r.0 != [] ==> r.0[|r.0| - 1] == '(')
      && forall k :: |r.0| <= k < |stack| ==> stack[k] != '('
    decreases |stack|
  {
    if stack != [] && stack[|stack| - 1] != '(' {
      var n := |stack|;
      var below := stack[..n - 1];
      PopUntilOpenKeeps(below, out + [Str(stack[n - 1])]);
      var m := |PopUntilOpen(below, out + [Str(stack[n - 1])]).0|;
      assert below[..m] == stack[..m];
      forall k | m <= k < n ensures stack[k] != '(' {
        if k < n - 1 {
          assert stack[k] == below[k];
        }
      }
    }
  }

  /** What `PopUntilOpen` appends to the output: the popped segment, top
      first. */
  lemma {:induction false} PopUntilOpenOutput(stack: seq<char>, out: seq<string>)
    ensures var r := PopUntilOpen(stack, out);
      |r.0| <= |stack| && r.1 == out + PoppedStrings(stack[|r.0|..])
    decreases |stack|
  {
    if stack != [] && stack[|stack| - 1] != '(' {
      var n := |stack|;
      var below, top := stack[..n - 1], stack[n - 1];
      PopUntilOpenOutput(below, out + [Str(top)]);
      var m := |PopUntilOpen(below, out + [Str(top)]).0|;
      assert stack[m..] == below[m..] + [top];
      PoppedSnoc(below[m..], top);
    } else {
      assert stack[|stack|..] == [];
    }
  }

  /** `PopUntilOpen` moves the stack above the topmost `(` to the output in
      pop order; what stays is empty or ends with that `(`. */
  lemma PopUntilOpenShape(stack: seq<char>, out: seq<string>)
    ensures var r := PopUntilOpen(stack, out);
      |r.0| <= |stack| && r.0 == stack[..|r.0|] && r.1 == out + PoppedStrings(stack[|r.0|..])
      && (r.0 != [] ==> r.0[|r.0| - 1] == '(')
      && forall k :: |r.0| <= k < |stack| ==> stack[k] != '('
  {
    PopUntilOpenKeeps(stack, out);
    PopUntilOpenOutput(stack, out);
  }

  /** The names in an output list, in order: the entries that are words. */
  function Words(out: seq<string>): seq<string> {
    if out == [] then [] else (if IsWord(out[0]) then [out[0]] else []) + Words(out[1..])
  }

  /** The operand names of a token sequence, in order. */
  function OperandWords(toks: seq<Token>): seq<string> {
    if toks == [] then [] else (if toks[0].Operand? then [toks[0].word] else []) + OperandWords(toks[1..])
  }

  lemma {:induction false} WordsAppend(a: seq<string>, b: seq<string>)
    ensures Words(a + b) == Words(a) + Words(b)
    decreases |a|
  {
    if a == [] {
      assert a + b == b;
    } else {
      var h := if IsWord(a[0]) then [a[0]] else [];
      WordsAppend(a[1..], b);
      assert (a + b)[0] == a[0];
      assert (a + b)[1..] == a[1..] + b;
      assert Words(a + b) == h + Words(a[1..] + b);
      assert Words(a) == h + Words(a[1..]);
    }
  }

  /** Popping operator characters adds no names to the output. */
  lemma {:induction false} WordsPopped(x: seq<char>)
    requires forall k :: 0 <= k < |x| ==> !IsDigitLetter(x[k])
    ensures Words(PoppedStrings(x)) == []
    decreases |x|
  {
    if x != [] {
      var rest := PoppedStrings(x[..|x| - 1]);
      WordsPopped(x[..|x| - 1]);
      assert ([Str(x[|x| - 1])] + rest)[1..] == rest;
      assert Str(x[|x| - 1])[0] == x[|x| - 1];
    }
  }

  /** The names a step adds to the output: the operand's own, or none. */
  lemma StepWords(t: Token, stack: seq<char>, out: seq<string>)
    requires t.Operand? ==> IsWord(t.word)
    requires t.Symbol? ==> !IsDigitLetter(t.c)
    requires forall k :: 0 <= k < |stack| ==> !IsDigitLetter(stack[k])
    requires Step(t, stack, out).Ok?
    ensures var r := Step(t, stack, out).value;
      (forall k :: 0 <= k < |r.0| ==> !IsDigitLetter(r.0[k]))
      && Words(r.1) == Words(out) + (if t.Operand? then [t.word] else [])
  {
    match t
    case Operand(w) =>
      WordsAppend(out, [w]);
      assert [w][1..] == [];
    case Symbol(c) =>
      if c == '(' {
      } else if c == ')' {
        PopUntilOpenShape(stack, out);
        var r := PopUntilOpen(stack, out);
        PoppedWords(stack, out, r.0, r.1);
      } else {
        PopWhileShape(stack, out, OperatorPrecedence(c));
        var r := PopWhile(stack, out, OperatorPrecedence(c));
        PoppedWords(stack, out, r.0, r.1);
      }
  }

  /** Popping the top of a stack of operator characters onto the output
      adds no name, and what stays is still operator characters. */
  lemma PoppedWords(stack: seq<char>, out: seq<string>, kept: seq<char>, result: seq<string>)
    requires forall k :: 0 <= k < |stack| ==> !IsDigitLetter(stack[k])
    requires |kept| <= |stack| && kept == stack[..|kept|]
    requires result == out + PoppedStrings(stack[|kept|..])
    ensures Words(result) == Words(out)
    ensures forall k :: 0 <= k < |kept| ==> !IsDigitLetter(kept[k])
  {
    WordsAppend(out, PoppedStrings(stack[|kept|..]));
    WordsPopped(stack[|kept|..]);
    assert Words(out) + [] == Words(out);
  }

  lemma {:induction false} ShuntOperandOrder(toks: seq<Token>, stack: seq<char>, out: seq<string>)
    requires TokensOk(toks)
    requires forall k :: 0 <= k < |stack| ==> !IsDigitLetter(stack[k])
    requires Shunt(toks, stack, out).Ok?
    ensures Words(Shunt(toks, stack, out).value) == Words(out) + OperandWords(toks)
    decreases |toks|
  {
    if toks == [] {
      WordsAppend(out, PoppedStrings(stack));
      WordsPopped(stack);
    } else {
      var t := toks[0];
      assert TokensOk(toks[1..]) by {
        forall i | 0 <= i < |toks| - 1 ensures toks[1..][i] == toks[i + 1] { }
      }
      StepWords(t, stack, out);
      var r := Step(t, stack, out).value;
      assert Shunt(toks, stack, out) == Shunt(toks[1..], r.0, r.1);
      ShuntOperandOrder(toks[1..], r.0, r.1);
      assert OperandWords(toks) == (if t.Operand? then [t.word] else []) + OperandWords(toks[1..]);
    }
  }

  /** The postfix list holds the operand names of the formula in the order
      they are written, whatever the operators and parentheses around them. */
  lemma PostfixKeepsOperandOrder(e: string)
    requires Postfix(e).Ok?
    ensures Words(Postfix(e).value) == OperandWords(Lex(e))
  {
    LexWellFormed(e);
    ShuntOperandOrder(Lex(e), [], []);
  }

  predicate IsOperatorChar(c: char) {
    c == '+' || c == '-' || c == '*' || c == '/'
  }

  /** A character a formula over names, the four operators and parentheses
      may hold. */
  predicate IsFormulaChar(c: char) {
    IsDigitLetter(c) || IsOperatorChar(c) || c == '(' || c == ')'
  }

  /** An operator stack built from such a formula. */
  predicate OperatorStack(stack: seq<char>) {
    forall k :: 0 <= k < |stack| ==> IsOperatorChar(stack[k]) || stack[k] == '('
  }

  predicate ParenFree(out: seq<string>) {
    "(" !in out && ")" !in out
  }

  /** The number of `(` on a stack. */
  function Opens(stack: seq<char>): nat {
    multiset(stack)['(']
  }

  /** How a token moves the parenthesis depth. */
  function Delta(t: Token): int {
    if t == Symbol('(') then 1 else if t == Symbol(')') then -1 else 0
  }

  /** Whether the parenthesis depth, starting from `d`, stays at or above 0
      while the tokens are read: no `)` comes without an open `(`. */
  predicate NeverBelow(toks: seq<Token>, d: int)
    decreases |toks|
  {
    toks == [] || (d + Delta(toks[0]) >= 0 && NeverBelow(toks[1..], d + Delta(toks[0])))
  }

  /** The parenthesis depth after the tokens, starting from `d`. */
  function FinalDepth(toks: seq<Token>, d: int): int
    decreases |toks|
  {
    if toks == [] then d else FinalDepth(toks[1..], d + Delta(toks[0]))
  }

  lemma StrInjective(c: char, d: char)
    ensures Str(c) == Str(d) <==> c == d
  {
    if Str(c) == Str(d) {
      assert Str(c)[0] == c && Str(d)[0] == d;
    }
  }

  /** A one-character string is in the popped list exactly when its
      character is on the stack. */
  lemma PoppedHas(x: seq<char>, c: char)
    ensures Str(c) in PoppedStrings(x) <==> c in x
  {
    var p := PoppedStrings(x);
    if Str(c) in p {
      var k :| 0 <= k < |p| && p[k] == Str(c);
      StrInjective(x[|x| - 1 - k], c);
    }
    if c in x {
      var j :| 0 <= j < |x| && x[j] == c;
      assert p[|x| - 1 - j] == Str(c);
    }
  }

  /** Popping operator characters adds no parenthesis to the output. */
  lemma PopOperators(out: seq<string>, x: seq<char>)
    requires ParenFree(out)
    requires forall k :: 0 <= k < |x| ==> IsOperatorChar(x[k])
    ensures ParenFree(out + PoppedStrings(x))
  {
    assert forall k :: 0 <= k < |x| ==> x[k] != '(' && x[k] != ')';
    assert '(' !in x && ')' !in x;
    PoppedHas(x, '(');
    PoppedHas(x, ')');
    assert Str('(') == "(" && Str(')') == ")";
    var p := PoppedStrings(x);
    assert "(" !in p && ")" !in p;
    assert forall y :: y in out + p <==> y in out || y in p;
  }

  /** Splitting an operator stack at the topmost `(`: the part above holds
      operators only, and the `(` count drops by one when the `(` goes. */
  lemma SplitAtOpen(stack: seq<char>, kept: seq<char>, popped: seq<char>)
    requires OperatorStack(stack) && stack == kept + popped && '(' !in popped
    requires kept != [] ==> kept[|kept| - 1] == '('
    ensures forall k :: 0 <= k < |popped| ==> IsOperatorChar(popped[k])
    ensures kept == [] ==> Opens(stack) == 0
    ensures kept != [] ==> OperatorStack(kept[..|kept| - 1]) && Opens(kept[..|kept| - 1]) == Opens(stack) - 1
  {
    assert forall k :: 0 <= k < |popped| ==> popped[k] == stack[|kept| + k];
    assert multiset(stack) == multiset(kept) + multiset(popped);
    if kept != [] {
      assert kept == kept[..|kept| - 1] + ['('];
      assert multiset(kept) == multiset(kept[..|kept| - 1]) + multiset{'('};
      assert forall k :: 0 <= k < |kept| - 1 ==> kept[k] == stack[k];
    }
  }

  lemma CloseParens(stack: seq<char>, out: seq<string>)
    requires OperatorStack(stack) && ParenFree(out)
    ensures Step(Symbol(')'), stack, out).Ok? <==> Opens(stack) > 0
    ensures Step(Symbol(')'), stack, out).Ok? ==>
      var r := Step(Symbol(')'), stack, out).value;
      OperatorStack(r.0) && ParenFree(r.1) && Opens(r.0) == Opens(stack) - 1
  {
    PopUntilOpenShape(stack, out);
    var r := PopUntilOpen(stack, out);
    var popped := stack[|r.0|..];
    assert stack == r.0 + popped;
    SplitAtOpen(stack, r.0, popped);
    PopOperators(out, popped);
    assert Step(Symbol(')'), stack, out) ==
      if r.0 == [] then Err(EmptyStack) else Ok((r.0[..|r.0| - 1], r.1));
  }

  /** An operator reads as: pop while the precedence is at least its own,
      then push it. */
  lemma StepOperator(c: char, stack: seq<char>, out: seq<string>)
    requires IsOperatorChar(c)
    ensures Step(Symbol(c), stack, out) ==
      Ok((PopWhile(stack, out, OperatorPrecedence(c)).0 + [c], PopWhile(stack, out, OperatorPrecedence(c)).1))
  {
  }

  /** Splitting an operator stack below a segment of precedence at least 1:
      the segment holds operators only and the rest keeps every `(`. */
  lemma SplitAtOperators(stack: seq<char>, kept: seq<char>, popped: seq<char>, p: int)
    requires OperatorStack(stack) && stack == kept + popped && p >= 1
    requires forall k :: 0 <= k < |popped| ==> OperatorPrecedence(popped[k]) >= p
    ensures forall k :: 0 <= k < |popped| ==> IsOperatorChar(popped[k])
    ensures OperatorStack(kept) && Opens(kept) == Opens(stack)
  {
    assert forall k :: 0 <= k < |popped| ==> popped[k] == stack[|kept| + k];
    assert forall k :: 0 <= k < |kept| ==> kept[k] == stack[k];
    assert '(' !in popped;
    assert multiset(stack) == multiset(kept) + multiset(popped);
  }

  lemma PushOperator(stack: seq<char>, c: char)
    requires OperatorStack(stack) && IsOperatorChar(c)
    ensures OperatorStack(stack + [c]) && Opens(stack + [c]) == Opens(stack)
  {
    assert multiset(stack + [c]) == multiset(stack) + multiset{c};
  }

  lemma OperatorParens(c: char, stack: seq<char>, out: seq<string>)
    requires IsOperatorChar(c)
    requires OperatorStack(stack) && ParenFree(out)
    ensures Step(Symbol(c), stack, out).Ok?
    ensures var r := Step(Symbol(c), stack, out).value;
      OperatorStack(r.0) && ParenFree(r.1) && Opens(r.0) == Opens(stack)
  {
    var p := OperatorPrecedence(c);
    StepOperator(c, stack, out);
    PopWhileShape(stack, out, p);
    var r := PopWhile(stack, out, p);
    var popped := stack[|r.0|..];
    assert stack == r.0 + popped;
    SplitAtOperators(stack, r.0, popped, p);
    PopOperators(out, popped);
    PushOperator(r.0, c);
  }

  /** What one token of such a formula does to the parentheses: only a `)`
      can fail, exactly when no `(` is on the stack, and the stack's count of
      `(` follows the depth. */
  lemma StepParens(t: Token, stack: seq<char>, out: seq<string>)
    requires t.Operand? ==> IsWord(t.word)
    requires t.Symbol? ==> IsOperatorChar(t.c) || t.c == '(' || t.c == ')'
    requires OperatorStack(stack) && ParenFree(out)
    ensures Step(t, stack, out).Ok? <==> Opens(stack) + Delta(t) >= 0
    ensures Step(t, stack, out).Ok? ==>
      var r := Step(t, stack, out).value;
      OperatorStack(r.0) && ParenFree(r.1) && Opens(r.0) == Opens(stack) + Delta(t)
  {
    match t
    case Operand(w) =>
      assert w[0] != '(' && w[0] != ')';
      assert "(" != w && ")" != w;
    case Symbol(c) =>
      if c == '(' {
        assert multiset(stack + ['(']) == multiset(stack) + multiset{'('};
      } else if c == ')' {
        CloseParens(stack, out);
      } else {
        OperatorParens(c, stack, out);
      }
  }

  lemma {:induction false} ShuntParens(toks: seq<Token>, stack: seq<char>, out: seq<string>)
    requires TokensOk(toks)
    requires forall i :: 0 <= i < |toks| && toks[i].Symbol? ==>
      IsOperatorChar(toks[i].c) || toks[i].c == '(' || toks[i].c == ')'
    requires OperatorStack(stack) && ParenFree(out)
    ensures Shunt(toks, stack, out).Ok? <==> NeverBelow(toks, Opens(stack))
    ensures Shunt(toks, stack, out).Ok? ==>
      ")" !in Shunt(toks, stack, out).value
      && ("(" in Shunt(toks, stack, out).value <==> FinalDepth(toks, Opens(stack)) > 0)
    decreases |toks|
  {
    if toks == [] {
      PoppedHas(stack, '(');
      PoppedHas(stack, ')');
      assert Str('(') == "(" && Str(')') == ")";
    } else {
      var t := toks[0];
      StepParens(t, stack, out);
      if Step(t, stack, out).Ok? {
        var r := Step(t, stack, out).value;
        assert forall i :: 0 <= i < |toks| - 1 ==> toks[1..][i] == toks[i + 1];
        assert Shunt(toks, stack, out) == Shunt(toks[1..], r.0, r.1);
        ShuntParens(toks[1..], r.0, r.1);
      }
    }
  }

  /** For a formula over names, the four operators and parentheses: the pass
      fails exactly when some `)` has no open `(` before it; when it succeeds
      no `)` is in the output, and a `(` is in it exactly when some `(` is
      left open at the end. */
  lemma PostfixParentheses(e: string)
    requires forall k :: 0 <= k < |e| ==> IsFormulaChar(e[k])
    ensures Postfix(e).Ok? <==> NeverBelow(Lex(e), 0)
    ensures Postfix(e).Ok? ==>
      ")" !in Postfix(e).value && ("(" in Postfix(e).value <==> FinalDepth(Lex(e), 0) > 0)
  {
    var toks := Lex(e);
    LexWellFormed(e);
    LexSymbolsFromInput(e);
    forall i | 0 <= i < |toks| && toks[i].Symbol?
      ensures IsOperatorChar(toks[i].c) || toks[i].c == '(' || toks[i].c == ')'
    {
      var k :| 0 <= k < |e| && e[k] == toks[i].c;
      assert IsFormulaChar(e[k]);
    }
    assert Opens([]) == 0;
    ShuntParens(toks, [], []);
  }

  /** A balanced formula over names, the four operators and parentheses
      always passes, and no parenthesis reaches its postfix list. */
  lemma BalancedPostfixHasNoParentheses(e: string)
    requires forall k :: 0 <= k < |e| ==> IsFormulaChar(e[k])
    requires NeverBelow(Lex(e), 0) && FinalDepth(Lex(e), 0) == 0
    ensures Postfix(e).Ok? && ParenFree(Postfix(e).value)
  {
    PostfixParentheses(e);
  }

  /** Any character other than a letter, a digit, an operator or a
      parenthesis (a space, say) has precedence -1, so it pops the whole
      operator stack, `(` included, before it is pushed. */
  lemma OtherCharEmptiesStack(c: char, stack: seq<char>, out: seq<string>)
    requires !IsFormulaChar(c)
    ensures Step(Symbol(c), stack, out) == Ok(([c], out + PoppedStrings(stack)))
  {
    PopWhileShape(stack, out, -1);
    var r := PopWhile(stack, out, -1);
    assert r.0 == [];
    assert stack[0..] == stack;
    assert r.0 + [c] == [c];
  }

  /** The tokens of `a x b y c`. */
  function Infix3(a: string, x: char, b: string, y: char, c: string): seq<Token> {
    [Operand(a)] + ([Symbol(x)] + ([Operand(b)] + ([Symbol(y)] + [Operand(c)])))
  }

  lemma Infix3WellFormed(a: string, x: char, b: string, y: char, c: string)
    requires IsWord(a) && IsWord(b) && IsWord(c) && IsOperatorChar(x) && IsOperatorChar(y)
    ensures WellFormed(Infix3(a, x, b, y, c))
  {
    var t4: seq<Token> := [Operand(c)];
    var t3 := [Symbol(y)] + t4;
    var t2 := [Operand(b)] + t3;
    var t1 := [Symbol(x)] + t2;
    WellFormedCons(Operand(c), []);
    assert [Operand(c)] + [] == t4;
    WellFormedCons(Symbol(y), t4);
    WellFormedCons(Operand(b), t3);
    WellFormedCons(Symbol(x), t2);
    WellFormedCons(Operand(a), t1);
  }

  lemma Infix3Spell(a: string, x: char, b: string, y: char, c: string)
    ensures Spell(Infix3(a, x, b, y, c)) == a + [x] + b + [y] + c
  {
    var t4: seq<Token> := [Operand(c)];
    var t3 := [Symbol(y)] + t4;
    var t2 := [Operand(b)] + t3;
    var t1 := [Symbol(x)] + t2;
    SpellCons(Operand(c), []);
    assert [Operand(c)] + [] == t4;
    SpellCons(Symbol(y), t4);
    SpellCons(Operand(b), t3);
    SpellCons(Symbol(x), t2);
    SpellCons(Operand(a), t1);
    assert c + [] == c;
  }

  lemma LexInfix3(a: string, x: char, b: string, y: char, c: string)
    requires IsWord(a) && IsWord(b) && IsWord(c) && IsOperatorChar(x) && IsOperatorChar(y)
    ensures Lex(a + [x] + b + [y] + c) == Infix3(a, x, b, y, c)
  {
    Infix3WellFormed(a, x, b, y, c);
    Infix3Spell(a, x, b, y, c);
    LexOfSpell(Infix3(a, x, b, y, c));
  }

  lemma ShuntLastOperand(c: string, stack: seq<char>, out: seq<string>)
    ensures Shunt([Operand(c)], stack, out) == Ok(out + [c] + PoppedStrings(stack))
  {
    ShuntCons(Operand(c), [], stack, out);
    assert [Operand(c)] + [] == [Operand(c)];
  }

  lemma ShuntInfix3Prefix(a: string, x: char, b: string, y: char, c: string)
    requires IsOperatorChar(x)
    ensures Shunt(Infix3(a, x, b, y, c), [], []) == Shunt([Symbol(y)] + [Operand(c)], [x], [a, b])
  {
    var t3 := [Symbol(y)] + [Operand(c)];
    var t2 := [Operand(b)] + t3;
    var t1 := [Symbol(x)] + t2;
    ShuntCons(Operand(a), t1, [], []);
    assert [] + [a] == [a];
    assert PopWhile([], [a], OperatorPrecedence(x)) == ([], [a]);
    var e: seq<char> := [];
    assert e + [x] == [x];
    assert Step(Symbol(x), [], [a]) == Ok(([x], [a]));
    ShuntCons(Symbol(x), t2, [], [a]);
    assert Infix3(a, x, b, y, c) == [Operand(a)] + t1;
    ShuntCons(Operand(b), t3, [x], [a]);
    assert [a] + [b] == [a, b];
  }

  lemma PopWhileOne(x: char, out: seq<string>, p: int)
    ensures PopWhile([x], out, p) ==
      if OperatorPrecedence(x) >= p then ([], out + [Str(x)]) else ([x], out)
  {
    assert [x][..0] == [];
  }

  /** An operator read onto a one-operator stack. */
  lemma StepOntoOne(x: char, y: char, out: seq<string>)
    requires IsOperatorChar(y)
    ensures Step(Symbol(y), [x], out) ==
      if OperatorPrecedence(x) >= OperatorPrecedence(y) then Ok(([y], out + [Str(x)]))
      else Ok(([x, y], out))
  {
    PopWhileOne(x, out, OperatorPrecedence(y));
    assert [] + [y] == [y];
    assert [x] + [y] == [x, y];
  }

  lemma PoppedTwo(x: char, y: char)
    ensures PoppedStrings([y]) == [Str(y)]
    ensures PoppedStrings([x, y]) == [Str(y), Str(x)]
  {
  }

  lemma ShuntLeftFirst(b: string, x: char, y: char, c: string, a: string)
    requires IsOperatorChar(x) && IsOperatorChar(y)
    requires OperatorPrecedence(x) >= OperatorPrecedence(y)
    ensures Shunt([Symbol(y)] + [Operand(c)], [x], [a, b]) == Ok([a, b, Str(x), c, Str(y)])
  {
    ShuntCons(Symbol(y), [Operand(c)], [x], [a, b]);
    StepOntoOne(x, y, [a, b]);
    assert [a, b] + [Str(x)] == [a, b, Str(x)];
    PoppedTwo(x, y);
    ShuntLastOperand(c, [y], [a, b, Str(x)]);
    assert [a, b, Str(x)] + [c] + [Str(y)] == [a, b, Str(x), c, Str(y)];
  }

  lemma ShuntRightFirst(b: string, x: char, y: char, c: string, a: string)
    requires IsOperatorChar(x) && IsOperatorChar(y)
    requires OperatorPrecedence(x) < OperatorPrecedence(y)
    ensures Shunt([Symbol(y)] + [Operand(c)], [x], [a, b]) == Ok([a, b, c, Str(y), Str(x)])
  {
    ShuntCons(Symbol(y), [Operand(c)], [x], [a, b]);
    StepOntoOne(x, y, [a, b]);
    PoppedTwo(x, y);
    ShuntLastOperand(c, [x, y], [a, b]);
    assert [a, b] + [c] + [Str(y), Str(x)] == [a, b, c, Str(y), Str(x)];
  }

  /** `a x b y c` groups as `(a x b) y c` when `x` binds at least as tightly
      as `y` (left associativity when they are equal), and as `a x (b y c)`
      when `y` binds more tightly. */
  lemma Precedence(a: string, x: char, b: string, y: char, c: string)
    requires IsWord(a) && IsWord(b) && IsWord(c) && IsOperatorChar(x) && IsOperatorChar(y)
    ensures Postfix(a + [x] + b + [y] + c) ==
      if OperatorPrecedence(x) >= OperatorPrecedence(y) then Ok([a, b, Str(x), c, Str(y)])
      else Ok([a, b, c, Str(y), Str(x)])
  {
    LexInfix3(a, x, b, y, c);
    ShuntInfix3Prefix(a, x, b, y, c);
    if OperatorPrecedence(x) >= OperatorPrecedence(y) {
      ShuntLeftFirst(b, x, y, c, a);
    } else {
      ShuntRightFirst(b, x, y, c, a);
    }
  }

  /** An entry of a postfix list: an operand name, or a one-character
      string of a character that is not a letter or a digit. */
  predicate IsEntry(x: string) {
    IsWord(x) || (|x| == 1 && !IsDigitLetter(x[0]))
  }

  predicate AllEntries(out: seq<string>) {
    forall k :: 0 <= k < |out| ==> IsEntry(out[k])
  }

  lemma PoppedEntries(out: seq<string>, x: seq<char>)
    requires AllEntries(out)
    requires forall k :: 0 <= k < |x| ==> !IsDigitLetter(x[k])
    ensures AllEntries(out + PoppedStrings(x))
  {
    var p := PoppedStrings(x);
    forall k | 0 <= k < |out + p| ensures IsEntry((out + p)[k]) {
      if k >= |out| {
        assert (out + p)[k] == Str(x[|x| - 1 - (k - |out|)]);
      }
    }
  }

  lemma StepEntries(t: Token, stack: seq<char>, out: seq<string>)
    requires t.Operand? ==> IsWord(t.word)
    requires t.Symbol? ==> !IsDigitLetter(t.c)
    requires forall k :: 0 <= k < |stack| ==> !IsDigitLetter(stack[k])
    requires AllEntries(out)
    requires Step(t, stack, out).Ok?
    ensures var r := Step(t, stack, out).value;
      (forall k :: 0 <= k < |r.0| ==> !IsDigitLetter(r.0[k])) && AllEntries(r.1)
  {
    match t
    case Operand(w) =>
    case Symbol(c) =>
      if c == '(' {
      } else if c == ')' {
        PopUntilOpenShape(stack, out);
        var r := PopUntilOpen(stack, out);
        PoppedEntries(out, stack[|r.0|..]);
      } else {
        PopWhileShape(stack, out, OperatorPrecedence(c));
        var r := PopWhile(stack, out, OperatorPrecedence(c));
        PoppedEntries(out, stack[|r.0|..]);
      }
  }

  lemma {:induction false} ShuntEntries(toks: seq<Token>, stack: seq<char>, out: seq<string>)
    requires TokensOk(toks)
    requires forall k :: 0 <= k < |stack| ==> !IsDigitLetter(stack[k])
    requires AllEntries(out)
    requires Shunt(toks, stack, out).Ok?
    ensures AllEntries(Shunt(toks, stack, out).value)
    decreases |toks|
  {
    if toks == [] {
      PoppedEntries(out, stack);
    } else {
      var t := toks[0];
      assert TokensOk(toks[1..]) by {
        forall i | 0 <= i < |toks| - 1 ensures toks[1..][i] == toks[i + 1] { }
      }
      StepEntries(t, stack, out);
      var r := Step(t, stack, out).value;
      assert Shunt(toks, stack, out) == Shunt(toks[1..], r.0, r.1);
      ShuntEntries(toks[1..], r.0, r.1);
    }
  }

  /** Every entry of a postfix list is an operand name or a single
      character that is not a letter or a digit: in particular no entry is
      empty, and an entry that starts with a digit is all letters and
      digits. */
  lemma PostfixEntries(e: string)
    requires Postfix(e).Ok?
    ensures AllEntries(Postfix(e).value)
  {
    LexWellFormed(e);
    ShuntEntries(Lex(e), [], []);
  }

  /** An empty formula gives an empty postfix list. */
  lemma EmptyExpression()
    ensures Postfix("") == Ok([])
  {
    assert Lex("") == [];
    assert PoppedStrings([]) == [];
    var empty: seq<string> := [];
    assert Shunt([], [], []) == Ok(empty + PoppedStrings([]));
    assert empty + PoppedStrings([]) == empty;
    assert Postfix("") == Shunt([], [], []);
  }

  /** The text `(a+b*(c-d))/e`. */
  function NestedText(a: string, b: string, c: string, d: string, e: string): string {
    ['('] + (a + (['+'] + (b + (['*'] + (['('] + (c + (['-'] + (d + ([')'] + ([')'] + (['/'] + e)))))))))))
  }

  /** The tokens of `c-d))/e`, the suffix of `(a+b*(c-d))/e` from `c` on. */
  function NestedInner(c: string, d: string, e: string): seq<Token> {
    [Operand(c)] + ([Symbol('-')] + ([Operand(d)] + ([Symbol(')')] + ([Symbol(')')] + ([Symbol('/')] + [Operand(e)])))))
  }

  /** The tokens of `(a+b*(c-d))/e`. */
  function NestedTokens(a: string, b: string, c: string, d: string, e: string): seq<Token> {
    [Symbol('(')] + ([Operand(a)] + ([Symbol('+')] + ([Operand(b)] + ([Symbol('*')] + ([Symbol('(')] + NestedInner(c, d, e))))))
  }

  /** The scanner on `c-d))/e`. */
  lemma LexNestedInner(c: string, d: string, e: string)
    requires IsWord(c) && IsWord(d) && IsWord(e)
    ensures Lex(c + (['-'] + (d + ([')'] + ([')'] + (['/'] + e)))))) == NestedInner(c, d, e)
  {
    LexWord(e, []);
    assert e + [] == e;
    assert [Operand(e)] + [] == [Operand(e)];
    LexChar('/', e);
    LexChar(')', ['/'] + e);
    LexChar(')', [')'] + (['/'] + e));
    LexWord(d, [')'] + ([')'] + (['/'] + e)));
    LexChar('-', d + ([')'] + ([')'] + (['/'] + e))));
    LexWord(c, ['-'] + (d + ([')'] + ([')'] + (['/'] + e)))));
  }

  /** The scanner splits `(a+b*(c-d))/e` into its names and symbols. */
  lemma LexNested(a: string, b: string, c: string, d: string, e: string)
    requires IsWord(a) && IsWord(b) && IsWord(c) && IsWord(d) && IsWord(e)
    ensures Lex(NestedText(a, b, c, d, e)) == NestedTokens(a, b, c, d, e)
  {
    var s := c + (['-'] + (d + ([')'] + ([')'] + (['/'] + e)))));
    LexNestedInner(c, d, e);
    LexChar('(', s);
    LexChar('*', ['('] + s);
    LexWord(b, ['*'] + (['('] + s));
    LexChar('+', b + (['*'] + (['('] + s)));
    LexWord(a, ['+'] + (b + (['*'] + (['('] + s))));
    LexChar('(', a + (['+'] + (b + (['*'] + (['('] + s)))));
  }

  /** A `)` above `( + *` pops the `*` and then the `+`. */
  lemma PopPlusTimes(out: seq<string>)
    ensures PopUntilOpen(['(', '+', '*'], out) == (['('], out + ["*", "+"])
  {
    assert ['(', '+', '*'][..2] == ['(', '+'] && ['(', '+'][..1] == ['('];
    assert out + [Str('*')] + [Str('+')] == out + ["*", "+"];
    assert PopUntilOpen(['(', '+'], out + [Str('*')]) == (['('], out + ["*", "+"]);
  }

  /** The second `)`, `/` and `e`, once `a b c d -` are out. */
  lemma ShuntNestedOuter(a: string, b: string, c: string, d: string, e: string)
    ensures Shunt([Symbol(')')] + ([Symbol('/')] + [Operand(e)]), ['(', '+', '*'], [a, b, c, d, "-"])
      == Ok([a, b, c, d, "-", "*", "+", e, "/"])
  {
    var t6: seq<Token> := [Operand(e)];
    var t5 := [Symbol('/')] + t6;
    var out1 := [a, b, c, d, "-"];
    var out2 := [a, b, c, d, "-", "*", "+"];
    ShuntCons(Symbol(')'), t5, ['(', '+', '*'], out1);
    PopPlusTimes(out1);
    assert out1 + ["*", "+"] == out2;
    assert ['('][..0] == [];
    ShuntCons(Symbol('/'), t6, [], out2);
    assert [] + ['/'] == ['/'];
    ShuntLastOperand(e, ['/'], out2);
    assert PoppedStrings(['/']) == ["/"];
    assert out2 + [e] + ["/"] == [a, b, c, d, "-", "*", "+", e, "/"];
  }

  /** The two closing parentheses, `/` and `e`, after `a b c d` are out. */
  lemma ShuntNestedClose(a: string, b: string, c: string, d: string, e: string)
    ensures Shunt([Symbol(')')] + ([Symbol(')')] + ([Symbol('/')] + [Operand(e)])), ['(', '+', '*', '(', '-'], [a, b, c, d])
      == Ok([a, b, c, d, "-", "*", "+", e, "/"])
  {
    var t4 := [Symbol(')')] + ([Symbol('/')] + [Operand(e)]);
    var out1 := [a, b, c, d, "-"];
    ShuntCons(Symbol(')'), t4, ['(', '+', '*', '(', '-'], [a, b, c, d]);
    assert ['(', '+', '*', '(', '-'][..4] == ['(', '+', '*', '('];
    assert [a, b, c, d] + [Str('-')] == out1;
    assert PopUntilOpen(['(', '+', '*', '(', '-'], [a, b, c, d]) == (['(', '+', '*', '('], out1);
    assert ['(', '+', '*', '('][..3] == ['(', '+', '*'];
    ShuntNestedOuter(a, b, c, d, e);
  }

  /** The pass from `c` on, with `( + * (` on the stack and `a b` out. */
  lemma ShuntNestedInner(c: string, d: string, e: string, a: string, b: string)
    ensures Shunt(NestedInner(c, d, e), ['(', '+', '*', '('], [a, b]) == Ok([a, b, c, d, "-", "*", "+", e, "/"])
  {
    var t3 := [Symbol(')')] + ([Symbol(')')] + ([Symbol('/')] + [Operand(e)]));
    var t2 := [Operand(d)] + t3;
    var t1 := [Symbol('-')] + t2;
    ShuntCons(Operand(c), t1, ['(', '+', '*', '('], [a, b]);
    assert [a, b] + [c] == [a, b, c];
    ShuntCons(Symbol('-'), t2, ['(', '+', '*', '('], [a, b, c]);
    assert ['(', '+', '*', '('] + ['-'] == ['(', '+', '*', '(', '-'];
    ShuntCons(Operand(d), t3, ['(', '+', '*', '(', '-'], [a, b, c]);
    assert [a, b, c] + [d] == [a, b, c, d];
    ShuntNestedClose(a, b, c, d, e);
  }

  /** The pass from `b` on, with `( +` on the stack and `a` out. */
  lemma ShuntNestedMiddle(a: string, b: string, c: string, d: string, e: string)
    ensures Shunt([Operand(b)] + ([Symbol('*')] + ([Symbol('(')] + NestedInner(c, d, e))), ['(', '+'], [a])
      == Ok([a, b, c, d, "-", "*", "+", e, "/"])
  {
    var t5 := [Symbol('(')] + NestedInner(c, d, e);
    var t4 := [Symbol('*')] + t5;
    ShuntCons(Operand(b), t4, ['(', '+'], [a]);
    assert [a] + [b] == [a, b];
    ShuntCons(Symbol('*'), t5, ['(', '+'], [a, b]);
    assert ['(', '+'] + ['*'] == ['(', '+', '*'];
    ShuntCons(Symbol('('), NestedInner(c, d, e), ['(', '+', '*'], [a, b]);
    assert ['(', '+', '*'] + ['('] == ['(', '+', '*', '('];
    ShuntNestedInner(c, d, e, a, b);
  }

  /** The pass over the whole token list of `(a+b*(c-d))/e`. */
  lemma ShuntNested(a: string, b: string, c: string, d: string, e: string)
    ensures Shunt(NestedTokens(a, b, c, d, e), [], []) == Ok([a, b, c, d, "-", "*", "+", e, "/"])
  {
    var t3 := [Operand(b)] + ([Symbol('*')] + ([Symbol('(')] + NestedInner(c, d, e)));
    var t2 := [Symbol('+')] + t3;
    var t1 := [Operand(a)] + t2;
    ShuntCons(Symbol('('), t1, [], []);
    assert [] + ['('] == ['('];
    ShuntCons(Operand(a), t2, ['('], []);
    assert [] + [a] == [a];
    ShuntCons(Symbol('+'), t3, ['('], [a]);
    assert ['('] + ['+'] == ['(', '+'];
    ShuntNestedMiddle(a, b, c, d, e);
  }

  /** `(a+b*(c-d))/e` becomes `a b c d - * + e /` for any five names: the
      inner parentheses are emptied first, the `*` above the `+` leaves
      before it, and the `/` after the outer parentheses waits for `e`. */
  lemma NestedPostfix(a: string, b: string, c: string, d: string, e: string)
    requires IsWord(a) && IsWord(b) && IsWord(c) && IsWord(d) && IsWord(e)
    ensures Postfix(NestedText(a, b, c, d, e)) == Ok([a, b, c, d, "-", "*", "+", e, "/"])
  {
    LexNested(a, b, c, d, e);
    ShuntNested(a, b, c, d, e);
  }

  /** The normal case of the pass on a concrete formula. */
  lemma ShuntingYardNormalCase()
    ensures Postfix("(A+B*(C-D))/E") == Ok(["A", "B", "C", "D", "-", "*", "+", "E", "/"])
  {
    NestedPostfix("A", "B", "C", "D", "E");
    assert NestedText("A", "B", "C", "D", "E") == "(A+B*(C-D))/E";
  }
}
