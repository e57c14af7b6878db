/** Properties of the tree builder and of the whole formula parser: the
    builder inverts a post-order listing, the parser inverts the fully
    parenthesised rendering of a tree, and the test formulas of the engine
    behave as their tests expect. */
module ExpressionTreeProperties {
  import opened Wrappers
  import opened Text
  import opened ShuntingYard
  import opened ShuntingYardProperties
  import opened Nodes
  import opened ExpressionTrees

  /** A variable name the formula parser reads: a word that starts with a
      letter. */
  predicate IsName(x: string) {
    IsWord(x) && IsLetter(x[0])
  }

  /** A tree built from named variables and binary operators only. */
  predicate VarTerm(t: Term) {
    match t
    case Var(x) => IsName(x)
    case Bin(_, l, r) => VarTerm(l) && VarTerm(r)
    case _ => false
  }

  /** The post-order listing of a tree: what the shunting-yard pass emits
      for it. */
  function PostOrder(t: Term): seq<string>
    requires VarTerm(t)
  {
    match t
    case Var(x) => [x]
    case Bin(k, l, r) => PostOrder(l) + PostOrder(r) + [Str(OperatorOf(k))]
  }

  /** The tokens of the fully parenthesised infix rendering of a tree. */
  function InfixTokens(t: Term): seq<Token>
    requires VarTerm(t)
  {
    match t
    case Var(x) => [Operand(x)]
    case Bin(k, l, r) =>
      [Symbol('(')] + InfixTokens(l) + [Symbol(OperatorOf(k))] + InfixTokens(r) + [Symbol(')')]
  }

  /** The fully parenthesised infix rendering of a tree, such as
      `((A+B)*C)`. */
  function Render(t: Term): string
    requires VarTerm(t)
  {
    Spell(InfixTokens(t))
  }

  lemma {:induction false} AllEntriesPostOrder(t: Term)
    requires VarTerm(t)
    ensures AllEntries(PostOrder(t))
  {
    match t
    case Var(x) =>
    case Bin(k, l, r) =>
      AllEntriesPostOrder(l);
      AllEntriesPostOrder(r);
      var p := PostOrder(t);
      forall i | 0 <= i < |p| ensures IsEntry(p[i]) {
        if i < |PostOrder(l)| {
          assert p[i] == PostOrder(l)[i];
        } else if i < |PostOrder(l)| + |PostOrder(r)| {
          assert p[i] == PostOrder(r)[i - |PostOrder(l)|];
        } else {
          assert p[i] == Str(OperatorOf(k));
        }
      }
  }

  lemma AllEntriesSplit(a: seq<string>, b: seq<string>)
    requires AllEntries(a + b)
    ensures AllEntries(a) && AllEntries(b)
  {
    assert forall i :: 0 <= i < |a| ==> a[i] == (a + b)[i];
    assert forall i :: 0 <= i < |b| ==> b[i] == (a + b)[|a| + i];
  }

  /** Assembling a concatenation is assembling its halves in turn. */
  lemma {:induction false} AssembleAppend(a: seq<string>, b: seq<string>, stack: seq<Term>)
    requires AllEntries(a + b)
    ensures AllEntries(a) && AllEntries(b)
    ensures Assemble(a + b, stack) ==
      if Assemble(a, stack).Ok? then Assemble(b, Assemble(a, stack).value) else Assemble(a, stack)
    decreases |a|
  {
    AllEntriesSplit(a, b);
    if a == [] {
      assert a + b == b;
    } else {
      assert (a + b)[0] == a[0];
      assert (a + b)[1..] == a[1..] + b;
      var s := AssembleStep(a[0], stack);
      if s.Ok? {
        AssembleAppend(a[1..], b, s.value);
      }
    }
  }

  /** The tree builder inverts the post-order listing: assembling the
      listing of a tree pushes exactly that tree. */
  lemma {:induction false} AssemblePostOrder(t: Term, stack: seq<Term>)
    requires VarTerm(t)
    ensures AllEntries(PostOrder(t))
    ensures Assemble(PostOrder(t), stack) == Ok(stack + [t])
  {
    AllEntriesPostOrder(t);
    match t
    case Var(x) =>
      assert [x][1..] == [];
    case Bin(k, l, r) =>
      var pl, pr, op := PostOrder(l), PostOrder(r), [Str(OperatorOf(k))];
      AllEntriesPostOrder(l);
      AllEntriesPostOrder(r);
      assert PostOrder(t) == pl + (pr + op);
      AssembleAppend(pl, pr + op, stack);
      AssemblePostOrder(l, stack);
      AssembleAppend(pr, op, stack + [l]);
      AssemblePostOrder(r, stack + [l]);
      var s := stack + [l] + [r];
      assert s[..|s| - 2] == stack && s[|s| - 2] == l && s[|s| - 1] == r;
      assert Str(OperatorOf(k))[0] == OperatorOf(k);
      assert AssembleStep(Str(OperatorOf(k)), s) == Ok(stack + [t]);
      assert op[1..] == [];
  }

  /** `ConstructTree` gives back the tree whose post-order listing it reads. */
  lemma BuildPostOrder(t: Term)
    requires VarTerm(t)
    ensures AllEntries(PostOrder(t))
    ensures BuildTerm(PostOrder(t)) == Ok(t)
  {
    AssemblePostOrder(t, []);
    assert [] + [t] == [t];
  }

  lemma WellFormedConcat(a: seq<Token>, b: seq<Token>)
    requires WellFormed(a) && WellFormed(b)
    requires a != [] && b != [] ==> a[|a| - 1].Symbol? || b[0].Symbol?
    ensures WellFormed(a + b)
  {
    var s := a + b;
    forall i | 0 <= i < |s|
      ensures (s[i].Operand? ==> IsWord(s[i].word)) && (s[i].Symbol? ==> !IsDigitLetter(s[i].c))
    {
      if i < |a| { assert s[i] == a[i]; } else { assert s[i] == b[i - |a|]; }
    }
    forall i | 0 < i < |s| ensures s[i - 1].Symbol? || s[i].Symbol? {
      if i < |a| {
        assert s[i - 1] == a[i - 1] && s[i] == a[i];
      } else if i > |a| {
        assert s[i - 1] == b[i - 1 - |a|] && s[i] == b[i - |a|];
      } else {
        assert s[i - 1] == a[|a| - 1] && s[i] == b[0];
      }
    }
  }

  lemma {:induction false} InfixWellFormed(t: Term)
    requires VarTerm(t)
    ensures WellFormed(InfixTokens(t))
  {
    match t
    case Var(x) =>
    case Bin(k, l, r) =>
      InfixWellFormed(l);
      InfixWellFormed(r);
      var open, op, close := [Symbol('(')], [Symbol(OperatorOf(k))], [Symbol(')')];
      assert WellFormed(open) && WellFormed(op) && WellFormed(close);
      WellFormedConcat(open, InfixTokens(l));
      WellFormedConcat(open + InfixTokens(l), op);
      WellFormedConcat(open + InfixTokens(l) + op, InfixTokens(r));
      WellFormedConcat(open + InfixTokens(l) + op + InfixTokens(r), close);
  }

  /** A `(` is pushed. */
  lemma ShuntOpen(rest: seq<Token>, stack: seq<char>, out: seq<string>)
    ensures Shunt([Symbol('(')] + rest, stack, out) == Shunt(rest, stack + ['('], out)
  {
    ShuntCons(Symbol('('), rest, stack, out);
  }

  /** An operator is pushed straight onto an open `(`. */
  lemma ShuntOverOpen(c: char, rest: seq<Token>, stack: seq<char>, out: seq<string>)
    requires OperatorPrecedence(c) >= 1
    ensures Shunt([Symbol(c)] + rest, stack + ['('], out) == Shunt(rest, stack + ['('] + [c], out)
  {
    ShuntCons(Symbol(c), rest, stack + ['('], out);
    assert Step(Symbol(c), stack + ['('], out) == Ok((stack + ['('] + [c], out));
  }

  /** A `)` pops the operator above its `(`, then the `(`. */
  lemma CloseOverOperator(c: char, stack: seq<char>, out: seq<string>)
    requires c != '('
    ensures Step(Symbol(')'), stack + ['('] + [c], out) == Ok((stack, out + [Str(c)]))
  {
    var s := stack + ['('] + [c];
    assert s[..|s| - 1] == stack + ['('];
    assert PopUntilOpen(s, out) == PopUntilOpen(stack + ['('], out + [Str(c)]);
    assert (stack + ['('])[..|stack|] == stack;
  }

  lemma ShuntClose(c: char, rest: seq<Token>, stack: seq<char>, out: seq<string>)
    requires c != '('
    ensures Shunt([Symbol(')')] + rest, stack + ['('] + [c], out) == Shunt(rest, stack, out + [Str(c)])
  {
    CloseOverOperator(c, stack, out);
    ShuntCons(Symbol(')'), rest, stack + ['('] + [c], out);
  }

  lemma InfixBin(t: Term, rest: seq<Token>)
    requires VarTerm(t) && t.Bin?
    ensures InfixTokens(t) + rest == [Symbol('(')] + (InfixTokens(t.left) +
      ([Symbol(OperatorOf(t.kind))] + (InfixTokens(t.right) + ([Symbol(')')] + rest))))
  {
  }

  lemma PostOrderBin(t: Term, out: seq<string>)
    requires VarTerm(t) && t.Bin?
    ensures out + PostOrder(t.left) + PostOrder(t.right) + [Str(OperatorOf(t.kind))] == out + PostOrder(t)
  {
  }

  /** The shunting-yard pass emits the post-order listing of a fully
      parenthesised formula and leaves the stack under it as it was. */
  lemma {:induction false} ShuntInfix(t: Term, rest: seq<Token>, stack: seq<char>, out: seq<string>)
    requires VarTerm(t)
    ensures Shunt(InfixTokens(t) + rest, stack, out) == Shunt(rest, stack, out + PostOrder(t))
  {
    match t
    case Var(x) =>
      ShuntCons(Operand(x), rest, stack, out);
    case Bin(k, l, r) =>
      var c := OperatorOf(k);
      var tl, tr := InfixTokens(l), InfixTokens(r);
      var afterR := [Symbol(')')] + rest;
      var afterOp := tr + afterR;
      var afterL := [Symbol(c)] + afterOp;
      InfixBin(t, rest);
      ShuntOpen(tl + afterL, stack, out);
      ShuntInfix(l, afterL, stack + ['('], out);
      ShuntOverOpen(c, afterOp, stack, out + PostOrder(l));
      ShuntInfix(r, afterR, stack + ['('] + [c], out + PostOrder(l));
      ShuntClose(c, rest, stack, out + PostOrder(l) + PostOrder(r));
      PostOrderBin(t, out);
  }

  /** The shunting-yard pass turns the rendering of a tree into its
      post-order listing. */
  lemma PostfixOfRender(t: Term)
    requires VarTerm(t)
    ensures Postfix(Render(t)) == Ok(PostOrder(t))
  {
    InfixWellFormed(t);
    LexOfSpell(InfixTokens(t));
    assert InfixTokens(t) + [] == InfixTokens(t);
    ShuntInfix(t, [], [], []);
    assert [] + PostOrder(t) == PostOrder(t);
    assert PostOrder(t) + PoppedStrings([]) == PostOrder(t);
  }

  /** Parsing the fully parenthesised rendering of a tree of named
      variables and the four operators gives that tree back. */
  lemma ParseRender(t: Term)
    requires VarTerm(t)
    ensures ParseTree(Render(t)) == Ok(t)
  {
    PostfixOfRender(t);
    BuildPostOrder(t);
  }

  /** An empty formula gives the null root. */
  lemma EmptyFormula()
    ensures ParseTree("") == Ok(Hole)
  {
    EmptyExpression();
  }

  lemma LexNameOperator(a: string, x: char)
    requires IsName(a) && IsOperatorChar(x)
    ensures Lex(a + [x]) == [Operand(a), Symbol(x)]
  {
    LexChar(x, []);
    assert [x] + [] == [x];
    LexWord(a, [x]);
    assert Lex([]) == [];
  }

  lemma ShuntNameOperator(a: string, x: char)
    requires IsOperatorChar(x)
    ensures Shunt([Operand(a), Symbol(x)], [], []) == Ok([a, Str(x)])
  {
    assert [Operand(a), Symbol(x)] == [Operand(a)] + [Symbol(x)];
    ShuntCons(Operand(a), [Symbol(x)], [], []);
    assert [] + [a] == [a];
    assert [Symbol(x)] == [Symbol(x)] + [];
    ShuntCons(Symbol(x), [], [], [a]);
    var e: seq<char> := [];
    assert e + [x] == [x];
    assert Step(Symbol(x), [], [a]) == Ok(([x], [a]));
    assert [x][..0] == [];
    assert PoppedStrings([x]) == [Str(x)];
    assert [a] + [Str(x)] == [a, Str(x)];
  }

  /** A name followed by an operator, such as `A+`, fails: the operator
      finds one operand on the stack. */
  lemma OperatorNeedsTwoOperands(a: string, x: char)
    requires IsName(a) && IsOperatorChar(x)
    ensures ParseTree(a + [x]) == Err(TreeFault(MissingOperand))
  {
    LexNameOperator(a, x);
    ShuntNameOperator(a, x);
    assert Postfix(a + [x]) == Ok([a, Str(x)]);
    var post := [a, Str(x)];
    assert OperatorKind(a[0]).None?;
    var none: seq<Term> := [];
    assert none + [Var(a)] == [Var(a)];
    assert AssembleStep(a, []) == Ok([Var(a)]);
    assert post[1..] == [Str(x)];
    assert Str(x)[0] == x;
    assert AssembleStep(Str(x), [Var(a)]) == Err(MissingOperand);
    assert Assemble([Str(x)], [Var(a)]) == Err(MissingOperand);
  }

  /** The tree of `a x b y c` over names: `(a x b) y c` when `x` binds at
      least as tightly as `y`, and `a x (b y c)` otherwise; the first operand
      an operator pops is its right child. */
  lemma ParsePrecedence(a: string, x: char, b: string, y: char, c: string)
    requires IsName(a) && IsName(b) && IsName(c) && IsOperatorChar(x) && IsOperatorChar(y)
    ensures OperatorKind(x).Some? && OperatorKind(y).Some?
    ensures ParseTree(a + [x] + b + [y] + c) ==
      var kx, ky := OperatorKind(x).value, OperatorKind(y).value;
      if OperatorPrecedence(x) >= OperatorPrecedence(y) then Ok(Bin(ky, Bin(kx, Var(a), Var(b)), Var(c)))
      else Ok(Bin(kx, Var(a), Bin(ky, Var(b), Var(c))))
  {
    var kx, ky := OperatorKind(x).value, OperatorKind(y).value;
    assert OperatorOf(kx) == x && OperatorOf(ky) == y;
    Precedence(a, x, b, y, c);
    if OperatorPrecedence(x) >= OperatorPrecedence(y) {
      var l := Bin(kx, Var(a), Var(b));
      assert VarTerm(Var(a)) && VarTerm(Var(b)) && VarTerm(Var(c));
      assert PostOrder(l) == [a] + [b] + [Str(x)];
      var t := Bin(ky, l, Var(c));
      assert PostOrder(t) == [a, b, Str(x), c, Str(y)];
      BuildPostOrder(t);
    } else {
      var r := Bin(ky, Var(b), Var(c));
      assert VarTerm(Var(a)) && VarTerm(Var(b)) && VarTerm(Var(c));
      assert PostOrder(r) == [b] + [c] + [Str(y)];
      var t := Bin(kx, Var(a), r);
      assert PostOrder(t) == [a, b, c, Str(y), Str(x)];
      BuildPostOrder(t);
    }
  }
}
