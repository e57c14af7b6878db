/** `ExpressionTree`: a formula is turned into postfix by the shunting-yard
    pass and the postfix list into a tree with an operand stack; variables
    live in a name-to-node dictionary so that every occurrence of a name
    shares one node. */
module ExpressionTrees {
  import opened Wrappers
  import opened Text
  import opened ShuntingYard
  import opened ShuntingYardProperties
  import opened Nodes

  /** The exceptions the `ExpressionTree` constructor can raise. */
  datatype ExpressionError =
    | StackEmpty            // the `InvalidOperationException` of a `)` without `(`
    | TreeFault(e: TreeError)

  /** What `ConstructTree` does with one postfix entry, over a stack of
      terms: an operator pops its right operand, then its left one, and
      pushes the combined term; a letter-first entry pushes a variable; a
      digit-first entry pushes a constant or fails to parse; anything else
      pushes a hole (the null node). */
  function AssembleStep(x: string, stack: seq<Term>): Result<seq<Term>, TreeError>
    requires IsEntry(x)
  {
    var op := OperatorKind(x[0]);
    if op.Some? then
      if |stack| >= 2 then
        Ok(stack[..|stack| - 2] + [Bin(op.value, stack[|stack| - 2], stack[|stack| - 1])])
      else Err(MissingOperand)
    else if IsLetter(x[0]) then Ok(stack + [Var(x)])
    else if IsDigit(x[0]) then
      var n := ParseNumeral(x);
      if n.Some? then Ok(stack + [Constant(n.value)]) else Err(BadNumber)
    else Ok(stack + [Hole])
  }

  /** `ConstructTree`'s loop over the postfix list, from the stack `stack`. */
  function Assemble(post: seq<string>, stack: seq<Term>): Result<seq<Term>, TreeError>
    requires AllEntries(post)
    decreases |post|
  {
    if post == [] then Ok(stack)
    else match AssembleStep(post[0], stack)
      case Err(e) => Err(e)
      case Ok(s) => Assemble(post[1..], s)
  }

  /** Every step leaves a nonempty stack. */
  lemma {:induction false} AssembleNonEmpty(post: seq<string>, stack: seq<Term>)
    requires AllEntries(post)
    requires post != [] || stack != []
    ensures Assemble(post, stack).Ok? ==> Assemble(post, stack).value != []
    decreases |post|
  {
    if post != [] {
      var s := AssembleStep(post[0], stack);
      if s.Ok? {
        AssembleNonEmpty(post[1..], s.value);
      }
    }
  }

  /** The tree `ConstructTree` returns: a hole (the null root) for an empty
      list, and otherwise the top of the final stack; whatever lies below
      the top is dropped. */
  function BuildTerm(post: seq<string>): Result<Term, TreeError>
    requires AllEntries(post)
  {
    if post == [] then Ok(Hole)
    else
      AssembleNonEmpty(post, []);
      match Assemble(post, [])
      case Err(e) => Err(e)
      case Ok(s) => Ok(s[|s| - 1])
  }

  /** The tree the `ExpressionTree` constructor builds for a formula. */
  function ParseTree(expression: string): Result<Term, ExpressionError> {
    match Postfix(expression)
    case Err(_) => Err(StackEmpty)
    case Ok(post) =>
      PostfixEntries(expression);
      match BuildTerm(post)
      case Err(e) => Err(TreeFault(e))
      case Ok(t) => Ok(t)
  }

  /** The variable names of a postfix list, each once, in the order of their
      first occurrence: the keys the dictionary gets, in insertion order. */
  function VariablesOf(post: seq<string>): (names: seq<string>)
    ensures forall x :: x in names <==> x in post && x != [] && IsLetter(x[0])
    ensures forall i, j :: 0 <= i < j < |names| ==> names[i] != names[j]
  {
    if post == [] then []
    else
      var prev := VariablesOf(post[..|post| - 1]);
      var x := post[|post| - 1];
      assert forall y :: y in post <==> y in post[..|post| - 1] || y == x;
      if x != [] && IsLetter(x[0]) && x !in prev then prev + [x] else prev
  }

  function Erases(stack: seq<Node>): (r: seq<Term>)
    ensures |r| == |stack| && forall i :: 0 <= i < |stack| ==> r[i] == Erase(stack[i])
  {
    if stack == [] then [] else Erases(stack[..|stack| - 1]) + [Erase(stack[|stack| - 1])]
  }

  lemma AssembleAt(post: seq<string>, i: nat, stack: seq<Term>)
    requires i < |post| && AllEntries(post[i..])
    ensures AssembleStep(post[i], stack).Err? ==>
      Assemble(post[i..], stack) == Err(AssembleStep(post[i], stack).error)
    ensures AssembleStep(post[i], stack).Ok? ==>
      Assemble(post[i..], stack) == Assemble(post[i + 1..], AssembleStep(post[i], stack).value)
  {
    assert post[i..][0] == post[i];
    assert post[i..][1..] == post[i + 1..];
  }

  lemma TakeSnoc<T>(s: seq<T>, i: nat)
    requires i < |s|
    ensures s[..i + 1] == s[..i] + [s[i]]
  {
  }

  lemma AllEntriesNext(post: seq<string>, i: nat)
    requires i < |post| && AllEntries(post[i..])
    ensures AllEntries(post[i + 1..])
  {
    forall j | i < j < |post| ensures IsEntry(post[j]) {
      assert post[j] == post[i..][j - i];
    }
  }

  lemma VariablesOfSnoc(prefix: seq<string>, x: string)
    ensures VariablesOf(prefix + [x]) ==
      if x != [] && IsLetter(x[0]) && x !in VariablesOf(prefix) then VariablesOf(prefix) + [x]
      else VariablesOf(prefix)
  {
    assert (prefix + [x])[..|prefix|] == prefix;
  }

  /** An operand entry over a stack of nodes acts as on the stack's terms. */
  lemma LeafStep(x: string, stack: seq<Node>, leaf: Node)
    requires IsEntry(x) && OperatorKind(x[0]).None?
    requires IsLetter(x[0]) ==> Erase(leaf) == Var(x)
    requires IsDigit(x[0]) ==> ParseNumeral(x).Some? && leaf == ValueLeaf(ParseNumeral(x).value)
    requires !IsLetter(x[0]) && !IsDigit(x[0]) ==> leaf == NullNode
    ensures AssembleStep(x, Erases(stack)) == Ok(Erases(stack + [leaf]))
  {
    ErasesPush(stack, leaf);
  }

  lemma ErasesPush(stack: seq<Node>, n: Node)
    ensures Erases(stack + [n]) == Erases(stack) + [Erase(n)]
  {
  }

  /** An operator entry over a stack of nodes acts as on the stack's terms. */
  lemma OperatorStep(x: string, stack: seq<Node>, k: BinaryKind)
    requires IsEntry(x) && OperatorKind(x[0]) == Some(k) && |stack| >= 2
    ensures AssembleStep(x, Erases(stack)) ==
      Ok(Erases(stack[..|stack| - 2] + [BinaryNode(k, stack[|stack| - 2], stack[|stack| - 1])]))
  {
    var n, e := |stack|, Erases(stack);
    AssembleOperator(x, e, k);
    ErasesPrefix(stack, n - 2);
    ErasesPushBinary(stack[..n - 2], k, stack[n - 2], stack[n - 1]);
    assert e[n - 2] == Erase(stack[n - 2]) && e[n - 1] == Erase(stack[n - 1]);
  }

  lemma ErasesPushBinary(rest: seq<Node>, k: BinaryKind, a: Node, b: Node)
    ensures Erases(rest + [BinaryNode(k, a, b)]) == Erases(rest) + [Bin(k, Erase(a), Erase(b))]
  {
    ErasesPush(rest, BinaryNode(k, a, b));
  }

  lemma AssembleOperator(x: string, ts: seq<Term>, k: BinaryKind)
    requires IsEntry(x) && OperatorKind(x[0]) == Some(k) && |ts| >= 2
    ensures AssembleStep(x, ts) == Ok(ts[..|ts| - 2] + [Bin(k, ts[|ts| - 2], ts[|ts| - 1])])
  {
  }

  lemma ErasesPrefix(stack: seq<Node>, n: nat)
    requires n <= |stack|
    ensures Erases(stack[..n]) == Erases(stack)[..n]
  {
    var a, b := Erases(stack[..n]), Erases(stack)[..n];
    forall i | 0 <= i < n ensures a[i] == b[i] {
      assert stack[..n][i] == stack[i];
    }
  }

  class ExpressionTree {
    var root: Node
    var variableDic: map<string, VariableNode>
    /** The dictionary's keys in the order they were added. */
    var names: seq<string>

    /** The keys are `names`, without repeats; each node is named by its
        key, so distinct names have distinct nodes; and every variable node
        of the tree is the dictionary's node for its name. */
    ghost predicate Valid()
      reads this
    {
      (forall i, j :: 0 <= i < j < |names| ==> names[i] != names[j])
      && (forall x :: x in variableDic <==> x in names)
      && (forall x :: x in variableDic ==> variableDic[x].name == x)
      && (forall v :: v in Variables(root) ==> v.name in variableDic && variableDic[v.name] == v)
    }

    /** Every variable node on a stack is the dictionary's node for its name. */
    ghost predicate Shares(stack: seq<Node>)
      reads this
    {
      forall k, v :: 0 <= k < |stack| && v in Variables(stack[k]) ==>
        v.name in variableDic && variableDic[v.name] == v
    }

    lemma SharesOperator(stack: seq<Node>, k: BinaryKind)
      requires Shares(stack) && |stack| >= 2
      ensures Shares(stack[..|stack| - 2] + [BinaryNode(k, stack[|stack| - 2], stack[|stack| - 1])])
    {
      var s := stack[..|stack| - 2] + [BinaryNode(k, stack[|stack| - 2], stack[|stack| - 1])];
      forall j, v | 0 <= j < |s| && v in Variables(s[j]) ensures v.name in variableDic && variableDic[v.name] == v {
        if j < |s| - 1 {
          assert s[j] == stack[j];
        } else if v in Variables(stack[|stack| - 2]) {
        } else {
          assert v in Variables(stack[|stack| - 1]);
        }
      }
    }

    lemma SharesLeaf(stack: seq<Node>, n: Node)
      requires Shares(stack)
      requires forall v :: v in Variables(n) ==> v.name in variableDic && variableDic[v.name] == v
      ensures Shares(stack + [n])
    {
      var s := stack + [n];
      forall j, v | 0 <= j < |s| && v in Variables(s[j]) ensures v.name in variableDic && variableDic[v.name] == v {
        if j < |stack| {
          assert s[j] == stack[j];
        }
      }
    }

    /** The dictionary update of `ConstructTree`: a name seen for the first
        time is added with its new node; a known name keeps its node. */
    method AddVariable(x: string, v: VariableNode, ghost stack: seq<Node>)
      requires Valid() && Shares(stack) && v.name == x
      modifies this
      ensures variableDic == if x in old(variableDic) then old(variableDic) else old(variableDic)[x := v]
      ensures names == if x in old(variableDic) then old(names) else old(names) + [x]
      ensures root == old(root) && Valid() && Shares(stack)
    {
      if x !in variableDic {
        variableDic := variableDic[x := v];
        names := names + [x];
      }
    }

    /** One iteration of `ConstructTree`'s loop: the entry `x` acts on the
        node stack as `AssembleStep` acts on its terms. */
    method PushEntry(x: string, stack: seq<Node>, ghost prefix: seq<string>) returns (r: Result<seq<Node>, TreeError>)
      requires IsEntry(x) && Valid() && Shares(stack) && names == VariablesOf(prefix)
      modifies this
      ensures r.Ok? <==> AssembleStep(x, Erases(stack)).Ok?
      ensures r.Ok? ==> AssembleStep(x, Erases(stack)).value == Erases(r.value) && Shares(r.value)
      ensures r.Ok? ==> names == VariablesOf(prefix + [x])
      ensures r.Err? ==> r.error == AssembleStep(x, Erases(stack)).error
      ensures Valid() && root == old(root)
      ensures forall y :: y in variableDic ==>
        (y in old(variableDic) && variableDic[y] == old(variableDic)[y])
        || (fresh(variableDic[y]) && variableDic[y].value == Finite(0.0))
    {
      var opnf := new OperatorNodeFactory();
      var opNode := opnf.CreateOperatorNode(x[0]);
      if opNode.BinaryNode? {
        assert (prefix + [x])[..|prefix|] == prefix;
        r := PushOperator(x, stack, opNode.kind);
      } else {
        r := PushLeaf(x, stack, prefix);
      }
    }

    /** A binary operator entry: pops the right operand, then the left one,
        and pushes the operator node with those children. */
    method PushOperator(x: string, stack: seq<Node>, k: BinaryKind) returns (r: Result<seq<Node>, TreeError>)
      requires IsEntry(x) && OperatorKind(x[0]) == Some(k) && Shares(stack)
      ensures r.Ok? <==> AssembleStep(x, Erases(stack)).Ok?
      ensures r.Ok? ==> AssembleStep(x, Erases(stack)).value == Erases(r.value) && Shares(r.value)
      ensures r.Err? ==> r.error == AssembleStep(x, Erases(stack)).error
    {
      if |stack| >= 2 {
        var s := stack;
        var right := s[|s| - 1];
        s := s[..|s| - 1];
        var left := s[|s| - 1];
        s := s[..|s| - 1];
        s := s + [BinaryNode(k, NullNode, NullNode).(left := left, right := right)];
        OperatorStep(x, stack, k);
        assert s == stack[..|stack| - 2] + [BinaryNode(k, stack[|stack| - 2], stack[|stack| - 1])];
        SharesOperator(stack, k);
        return Ok(s);
      } else {
        return Err(MissingOperand);
      }
    }

    /** An operand entry: a variable (the dictionary's node for its name,
        added on first sight), a constant, or a null node. */
    method PushLeaf(x: string, stack: seq<Node>, ghost prefix: seq<string>) returns (r: Result<seq<Node>, TreeError>)
      requires IsEntry(x) && OperatorKind(x[0]).None?
      requires Valid() && Shares(stack) && names == VariablesOf(prefix)
      modifies this
      ensures r.Ok? <==> AssembleStep(x, Erases(stack)).Ok?
      ensures r.Ok? ==> AssembleStep(x, Erases(stack)).value == Erases(r.value) && Shares(r.value)
      ensures r.Ok? ==> names == VariablesOf(prefix + [x])
      ensures r.Err? ==> r.error == AssembleStep(x, Erases(stack)).error
      ensures Valid() && root == old(root)
      ensures forall y :: y in variableDic ==>
        (y in old(variableDic) && variableDic[y] == old(variableDic)[y])
        || (fresh(variableDic[y]) && variableDic[y].value == Finite(0.0))
    {
      VariablesOfSnoc(prefix, x);
      var abNode := CreateNode(x);
      if abNode.Err? {
        return Err(abNode.error);
      }
      var leaf := abNode.value;
      if leaf.VarLeaf? {
        var v := leaf.variable;
        assert v.value == Finite(0.0) && fresh(v);
        AddVariable(x, v, stack);
        leaf := VarLeaf(variableDic[x]);
        assert Variables(leaf) == {variableDic[x]} && variableDic[x].name == x;
      } else {
        assert Variables(leaf) == {};
      }
      LeafStep(x, stack, leaf);
      SharesLeaf(stack, leaf);
      return Ok(stack + [leaf]);
    }

    /** The value of each variable, by name. */
    function Env(): map<string, Num>
      reads this, variableDic.Values
    {
      map x | x in variableDic :: variableDic[x].value
    }

    /** An empty dictionary and a null root. */
    constructor ()
      ensures Valid() && root == NullNode && variableDic == map[] && names == []
    {
      root := NullNode;
      variableDic := map[];
      names := [];
    }

    /** `ConstructTree`: builds the tree of a postfix list, adding each new
        variable name to the dictionary with a fresh node valued 0. */
    method ConstructTree(post: seq<string>) returns (r: Result<Node, TreeError>)
      requires AllEntries(post)
      requires Valid() && variableDic == map[] && names == [] && root == NullNode
      modifies this
      ensures r.Ok? <==> BuildTerm(post).Ok?
      ensures r.Ok? ==> Erase(r.value) == BuildTerm(post).value
      ensures r.Err? ==> r.error == BuildTerm(post).error
      ensures root == NullNode && Valid()
      ensures r.Ok? ==> names == VariablesOf(post)
      ensures r.Ok? ==> forall v :: v in Variables(r.value) ==> v.name in variableDic && variableDic[v.name] == v
      ensures forall x :: x in variableDic ==> fresh(variableDic[x]) && variableDic[x].value == Finite(0.0)
    {
      if |post| == 0 {
        return Ok(NullNode);
      }
      var stack: seq<Node> := [];
      var i := 0;
      assert post[i..] == post;
      while i < |post|
        invariant 0 <= i <= |post|
        invariant AllEntries(post[i..])
        invariant Assemble(post[i..], Erases(stack)) == Assemble(post, [])
        invariant root == NullNode && Valid()
        invariant names == VariablesOf(post[..i])
        invariant Shares(stack)
        invariant forall x :: x in variableDic ==> fresh(variableDic[x]) && variableDic[x].value == Finite(0.0)
      {
        var x := post[i];
        AssembleAt(post, i, Erases(stack));
        AllEntriesNext(post, i);
        TakeSnoc(post, i);
        var next := PushEntry(x, stack, post[..i]);
        if next.Err? {
          return Err(next.error);
        }
        stack := next.value;
        i := i + 1;
      }
      assert Assemble(post[i..], Erases(stack)) == Ok(Erases(stack));
      AssembleNonEmpty(post, []);
      assert post[..i] == post;
      return Ok(stack[|stack| - 1]);
    }

    /** `Evaluate`: the value of the tree when each variable has its node's
        value; `None` for a null root or a null node inside (a
        `NullReferenceException`). */
    function Evaluate(): (r: Option<Num>)
      reads this, variableDic.Values
      requires Valid()
      ensures r == EvalTerm(Erase(root), Env())
    {
      EvalIsEvalTerm(root, Env());
      Eval(root)
    }

    /** `SetVariable`: a known name gets the new value, which every
        occurrence of it in the tree sees; an unknown name changes nothing. */
    method SetVariable(variableName: string, variableValue: Num)
      requires Valid()
      modifies variableDic.Values
      ensures Valid()
      ensures Env() ==
        if variableName in variableDic then old(Env())[variableName := variableValue] else old(Env())
    {
      if variableName in variableDic {
        variableDic[variableName].SetValue(variableValue);
      }
    }

    /** `GetVariables`: the dictionary's names, each once. */
    method GetVariables() returns (variables: seq<string>)
      requires Valid()
      ensures forall x :: x in variables <==> x in variableDic
      ensures forall i, j :: 0 <= i < j < |variables| ==> variables[i] != variables[j]
      ensures variables == names
    {
      variables := names;
    }
  }

  /** The `ExpressionTree` constructor: the shunting-yard pass, then
      `ConstructTree` on a fresh tree with an empty dictionary. On success
      the tree is the formula's term, every name of the formula has one
      node valued 0, and the names are in order of first appearance. */
  method NewExpressionTree(expression: string) returns (r: Result<ExpressionTree, ExpressionError>)
    ensures r.Ok? <==> ParseTree(expression).Ok?
    ensures r.Err? ==> r.error == ParseTree(expression).error
    ensures r.Ok? ==>
      var t := r.value;
      fresh(t) && t.Valid() && Erase(t.root) == ParseTree(expression).value
      && Postfix(expression).Ok? && t.names == VariablesOf(Postfix(expression).value)
      && forall x :: x in t.variableDic ==> fresh(t.variableDic[x]) && t.variableDic[x].value == Finite(0.0)
  {
    var tree := new ExpressionTree();
    var postfix := ShuntingYardPass(expression);
    if postfix.Err? {
      return Err(StackEmpty);
    }
    PostfixEntries(expression);
    var root := tree.ConstructTree(postfix.value);
    if root.Err? {
      return Err(TreeFault(root.error));
    }
    tree.root := root.value;
    return Ok(tree);
  }
}
