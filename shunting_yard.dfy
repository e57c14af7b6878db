/** The infix-to-postfix pass of `ExpressionTree` (its private `ShutingYard`
    method): a scanner that groups maximal runs of letters and digits into one
    operand token, and Dijkstra's shunting-yard algorithm with `+ -` at
    precedence 1 and `* /` at precedence 2, all left-associative. Every other
    character is treated as an operator of precedence -1. */
module ShuntingYard {
  import opened Wrappers
  import opened Text

  /** The precedence of an operator character; -1 for anything else,
      including `(`. */
  function OperatorPrecedence(c: char): int {
    if c == '+' || c == '-' then 1
    else if c == '*' || c == '/' then 2
    else -1
  }

  /** A token of the formula as the scanner groups it. */
  datatype Token = Operand(word: string) | Symbol(c: char)

  /** The length of the maximal run of letters and digits at the start of `s`. */
  function RunLength(s: string): (n: nat)
    ensures n <= |s|
    ensures forall k :: 0 <= k < n ==> IsDigitLetter(s[k])
    ensures n < |s| ==> !IsDigitLetter(s[n])
  {
    if s != [] && IsDigitLetter(s[0]) then 1 + RunLength(s[1..]) else 0
  }

  /** The token sequence of `s`: a maximal run of letters and digits is one
      operand; every other character is a symbol on its own. */
  function Lex(s: string): seq<Token>
    decreases |s|
  {
    if s == [] then []
    else if IsDigitLetter(s[0]) then
      var n := RunLength(s);
      [Operand(s[..n])] + Lex(s[n..])
    else [Symbol(s[0])] + Lex(s[1..])
  }

  /** The exception `Stack.Pop` throws when a `)` finds no `(` below it. */
  datatype SyntaxError = EmptyStack

  /** The one-character string of an operator character. */
  function Str(c: char): string { [c] }

  /** The operator characters of `s`, from the last to the first, each as a
      one-character string: what popping all of `s` appends. */
  function PoppedStrings(s: seq<char>): (r: seq<string>)
    ensures |r| == |s|
    ensures forall k :: 0 <= k < |s| ==> r[k] == Str(s[|s| - 1 - k])
  {
    if s == [] then [] else [Str(s[|s| - 1])] + PoppedStrings(s[..|s| - 1])
  }

  /** Pops to the output every operator on top of the stack whose precedence
      is at least `p`; the top of the stack is the last element. */
  function PopWhile(stack: seq<char>, out: seq<string>, p: int): (seq<char>, seq<string>)
  {
    if stack != [] && OperatorPrecedence(stack[|stack| - 1]) >= p then
      PopWhile(stack[..|stack| - 1], out + [Str(stack[|stack| - 1])], p)
    else
      (stack, out)
  }

  /** Pops to the output every character above the topmost `(`, or the whole
      stack when it holds no `(`; the `(` itself stays. */
  function PopUntilOpen(stack: seq<char>, out: seq<string>): (seq<char>, seq<string>)
  {
    if stack != [] && stack[|stack| - 1] != '(' then
      PopUntilOpen(stack[..|stack| - 1], out + [Str(stack[|stack| - 1])])
    else
      (stack, out)
  }

  /** What one token does to the operator stack and the output. */
  function Step(t: Token, stack: seq<char>, out: seq<string>): Result<(seq<char>, seq<string>), SyntaxError>
  {
    match t
    case Operand(w) => Ok((stack, out + [w]))
    case Symbol(c) =>
      if c == '(' then Ok((stack + [c], out))
      else if c == ')' then
        var (s, o) := PopUntilOpen(stack, out);
        if s == [] then Err(EmptyStack) else Ok((s[..|s| - 1], o))
      else
        var (s, o) := PopWhile(stack, out, OperatorPrecedence(c));
        Ok((s + [c], o))
  }

  /** The shunting-yard pass over the tokens `toks`, from the operator stack
      `stack` and the output so far `out`; at the end the stack is popped
      empty onto the output. */
  function Shunt(toks: seq<Token>, stack: seq<char>, out: seq<string>): Result<seq<string>, SyntaxError>
    decreases |toks|
  {
    if toks == [] then Ok(out + PoppedStrings(stack))
    else match Step(toks[0], stack, out)
      case Err(e) => Err(e)
      case Ok((s, o)) => Shunt(toks[1..], s, o)
  }

  /** The postfix form of `expression`. */
  function Postfix(expression: string): Result<seq<string>, SyntaxError> {
    Shunt(Lex(expression), [], [])
  }

  lemma RunLengthIs(s: string, n: nat)
    requires n <= |s|
    requires forall k :: 0 <= k < n ==> IsDigitLetter(s[k])
    requires n < |s| ==> !IsDigitLetter(s[n])
    ensures RunLength(s) == n
  {
  }

  lemma LexOperand(s: string, n: nat)
    requires 0 < n <= |s| && RunLength(s) == n
    ensures Lex(s) == [Operand(s[..n])] + Lex(s[n..])
  {
  }

  lemma LexSymbol(s: string)
    requires s != [] && !IsDigitLetter(s[0])
    ensures Lex(s) == [Symbol(s[0])] + Lex(s[1..])
  {
  }

  lemma ShuntCons(t: Token, toks: seq<Token>, stack: seq<char>, out: seq<string>)
    ensures Step(t, stack, out).Err? ==> Shunt([t] + toks, stack, out) == Err(Step(t, stack, out).error)
    ensures Step(t, stack, out).Ok? ==>
      Shunt([t] + toks, stack, out) == Shunt(toks, Step(t, stack, out).value.0, Step(t, stack, out).value.1)
  {
    assert ([t] + toks)[1..] == toks;
  }

  lemma ShuntFromOperand(e: string, i: nat, n: nat, stack: seq<char>, out: seq<string>)
    requires i < |e| && 0 < n == RunLength(e[i..]) && i + n <= |e|
    ensures Shunt(Lex(e[i..]), stack, out) == Shunt(Lex(e[i + n..]), stack, out + [e[i..i + n]])
  {
    var rest := e[i..];
    LexOperand(rest, n);
    assert rest[n..] == e[i + n..];
    assert rest[..n] == e[i..i + n];
    ShuntCons(Operand(e[i..i + n]), Lex(e[i + n..]), stack, out);
  }

  lemma ShuntFromSymbol(e: string, i: nat, stack: seq<char>, out: seq<string>, next: Result<(seq<char>, seq<string>), SyntaxError>)
    requires i < |e| && !IsDigitLetter(e[i]) && next == Step(Symbol(e[i]), stack, out)
    ensures next.Err? ==> Shunt(Lex(e[i..]), stack, out) == Err(next.error)
    ensures next.Ok? ==> Shunt(Lex(e[i..]), stack, out) == Shunt(Lex(e[i + 1..]), next.value.0, next.value.1)
  {
    var rest := e[i..];
    LexSymbol(rest);
    assert rest[1..] == e[i + 1..];
    ShuntCons(Symbol(e[i]), Lex(e[i + 1..]), stack, out);
  }

  lemma LexWord(w: string, rest: string)
    requires w != [] && forall k :: 0 <= k < |w| ==> IsDigitLetter(w[k])
    requires rest != [] ==> !IsDigitLetter(rest[0])
    ensures Lex(w + rest) == [Operand(w)] + Lex(rest)
  {
    var s := w + rest;
    RunLengthIs(s, |w|);
    assert s[..|w|] == w && s[|w|..] == rest;
  }

  lemma LexChar(c: char, rest: string)
    requires !IsDigitLetter(c)
    ensures Lex([c] + rest) == [Symbol(c)] + Lex(rest)
  {
    assert ([c] + rest)[1..] == rest;
  }

  /** The inner loop of `ShutingYard` that extends an operand token while
      letters and digits follow. */
  method ScanOperand(expression: string, i: nat) returns (name: string, n: nat)
    requires i < |expression| && IsDigitLetter(expression[i])
    ensures 0 < n == RunLength(expression[i..]) && i + n <= |expression|
    ensures name == expression[i..i + n]
  {
    name := [expression[i]];
    n := 1;
    while i + n < |expression| && IsDigitLetter(expression[i + n])
      invariant 1 <= n <= |expression| - i
      invariant name == expression[i..i + n]
      invariant forall k :: i <= k < i + n ==> IsDigitLetter(expression[k])
    {
      name := name + [expression[i + n]];
      n := n + 1;
    }
    RunLengthIs(expression[i..], n);
  }

  /** The inner loop of `ShutingYard` on `)`: pops to the output until the
      topmost `(` (left on the stack) or until the stack is empty. */
  method PopToOpen(stack: seq<char>, out: seq<string>) returns (opstack: seq<char>, result: seq<string>)
    ensures (opstack, result) == PopUntilOpen(stack, out)
  {
    opstack, result := stack, out;
    while opstack != [] && opstack[|opstack| - 1] != '('
      invariant PopUntilOpen(opstack, result) == PopUntilOpen(stack, out)
    {
      result := result + [Str(opstack[|opstack| - 1])];
      opstack := opstack[..|opstack| - 1];
    }
  }

  /** The inner loop of `ShutingYard` on an operator of precedence `p`: pops
      every operator of precedence at least `p` off the top of the stack. */
  method PopHigher(stack: seq<char>, out: seq<string>, p: int) returns (opstack: seq<char>, result: seq<string>)
    ensures (opstack, result) == PopWhile(stack, out, p)
  {
    opstack, result := stack, out;
    while opstack != [] && OperatorPrecedence(opstack[|opstack| - 1]) >= p
      invariant PopWhile(opstack, result, p) == PopWhile(stack, out, p)
    {
      result := result + [Str(opstack[|opstack| - 1])];
      opstack := opstack[..|opstack| - 1];
    }
  }

  /** `ShutingYard`: the same scan written with an index, an inner loop that
      extends the current operand, an operator stack and a result list. */
  method ShuntingYardPass(expression: string) returns (r: Result<seq<string>, SyntaxError>)
    ensures r == Postfix(expression)
  {
    var result: seq<string> := [];
    var opstack: seq<char> := [];
    var i := 0;
    assert expression[i..] == expression;
    while i < |expression|
      invariant 0 <= i <= |expression|
      invariant Shunt(Lex(expression[i..]), opstack, result) == Postfix(expression)
    {
      var curr := expression[i];
      if IsDigitLetter(curr) {
        var variableName, n := ScanOperand(expression, i);
        ShuntFromOperand(expression, i, n, opstack, result);
        i := i + n;
        result := result + [variableName];
        assert Shunt(Lex(expression[i..]), opstack, result) == Postfix(expression);
      } else if curr == '(' {
        ShuntFromSymbol(expression, i, opstack, result, Ok((opstack + [curr], result)));
        opstack := opstack + [curr];
        i := i + 1;
        assert Shunt(Lex(expression[i..]), opstack, result) == Postfix(expression);
      } else if curr == ')' {
        ghost var stack0, result0 := opstack, result;
        opstack, result := PopToOpen(opstack, result);
        if opstack == [] {
          ShuntFromSymbol(expression, i, stack0, result0, Err(EmptyStack));
          return Err(EmptyStack);
        }
        opstack := opstack[..|opstack| - 1];
        ShuntFromSymbol(expression, i, stack0, result0, Ok((opstack, result)));
        i := i + 1;
        assert Shunt(Lex(expression[i..]), opstack, result) == Postfix(expression);
      } else {
        ghost var stack0, result0 := opstack, result;
        var currOp := OperatorPrecedence(curr);
        opstack, result := PopHigher(opstack, result, currOp);
        opstack := opstack + [curr];
        ShuntFromSymbol(expression, i, stack0, result0, Ok((opstack, result)));
        i := i + 1;
        assert Shunt(Lex(expression[i..]), opstack, result) == Postfix(expression);
      }
    }
    assert Lex(expression[i..]) == [];
    ghost var final := result + PoppedStrings(opstack);
    assert Postfix(expression) == Ok(final);
    while opstack != []
      invariant result + PoppedStrings(opstack) == final
    {
      result := result + [Str(opstack[|opstack| - 1])];
      opstack := opstack[..|opstack| - 1];
    }
    assert result == final;
    r := Ok(result);
  }
}
