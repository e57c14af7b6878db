/** The nodes of an expression tree (`AbstractNode` and its subclasses) and
    the two factories that make them from postfix entries. */
module Nodes {
  import opened Wrappers
  import opened Text

  /** The binary operator node classes, one per operator symbol. */
  datatype BinaryKind = Add | Subtract | Multiply | Divide

  /** The `Operator` property each binary node class sets in its constructor. */
  function OperatorOf(k: BinaryKind): char {
    match k
    case Add => '+'
    case Subtract => '-'
    case Multiply => '*'
    case Divide => '/'
  }

  /** The operator a character names, if any: the fixed table that the
      reflection scan of the assembly finds. */
  function OperatorKind(c: char): (r: Option<BinaryKind>)
    ensures r.Some? <==> c == '+' || c == '-' || c == '*' || c == '/'
    ensures forall k :: r == Some(k) <==> OperatorOf(k) == c
  {
    match c
    case '+' => Some(Add)
    case '-' => Some(Subtract)
    case '*' => Some(Multiply)
    case '/' => Some(Divide)
    case _ => None
  }

  /** The `Eval` of a binary node over idealised doubles: a division by zero,
      and any operation on a non-finite operand, is non-finite. */
  function Apply(k: BinaryKind, x: Num, y: Num): Num {
    if x.NonFinite? || y.NonFinite? then NonFinite
    else match k
      case Add => Finite(x.r + y.r)
      case Subtract => Finite(x.r - y.r)
      case Multiply => Finite(x.r * y.r)
      case Divide => if y.r == 0.0 then NonFinite else Finite(x.r / y.r)
  }

  /** A variable leaf: its name is fixed, its value is set from outside and
      read by `Eval`. */
  class VariableNode {
    const name: string
    var value: Num

    /** `new VariableNode(name)` leaves the value at 0. */
    constructor (name: string, value: Num := Finite(0.0))
      ensures this.name == name && Eval() == value
    {
      this.name := name;
      this.value := value;
    }

    function Eval(): Num
      reads this
    {
      value
    }

    /** The `Value` setter. */
    method SetValue(v: Num)
      modifies this
      ensures Eval() == v
    {
      value := v;
    }
  }

  /** A node of the tree as built: a constant, a (shared) variable node, a
      binary node with its two children, or the null reference that
      `NodeFactory.CreateNode` returns for a character it does not know. */
  datatype Node =
    | ValueLeaf(v: Num)
    | VarLeaf(variable: VariableNode)
    | BinaryNode(kind: BinaryKind, left: Node, right: Node)
    | NullNode

  /** The variable nodes a tree refers to. */
  function Variables(n: Node): set<VariableNode> {
    match n
    case ValueLeaf(_) => {}
    case VarLeaf(v) => {v}
    case BinaryNode(_, l, r) => Variables(l) + Variables(r)
    case NullNode => {}
  }

  /** `Eval` on a tree; `None` when it reaches a null node (a
      `NullReferenceException`). */
  function Eval(n: Node): Option<Num>
    reads Variables(n)
  {
    match n
    case ValueLeaf(v) => Some(v)
    case VarLeaf(v) => Some(v.value)
    case BinaryNode(k, l, r) =>
      var x := Eval(l);
      var y := Eval(r);
      if x.Some? && y.Some? then Some(Apply(k, x.value, y.value)) else None
    case NullNode => None
  }

  /** A tree as a value: variables by name, so that its meaning can be
      stated apart from the heap. */
  datatype Term =
    | Constant(v: Num)
    | Var(name: string)
    | Bin(kind: BinaryKind, left: Term, right: Term)
    | Hole

  function Erase(n: Node): Term {
    match n
    case ValueLeaf(v) => Constant(v)
    case VarLeaf(v) => Var(v.name)
    case BinaryNode(k, l, r) => Bin(k, Erase(l), Erase(r))
    case NullNode => Hole
  }

  /** The value of a term when each variable name has the value `env` gives
      it; `None` at a hole or an unknown name. */
  function EvalTerm(t: Term, env: map<string, Num>): Option<Num> {
    match t
    case Constant(v) => Some(v)
    case Var(x) => if x in env then Some(env[x]) else None
    case Bin(k, l, r) =>
      var x := EvalTerm(l, env);
      var y := EvalTerm(r, env);
      if x.Some? && y.Some? then Some(Apply(k, x.value, y.value)) else None
    case Hole => None
  }

  /** Evaluating a tree is evaluating its term in any environment that
      gives each of its variable nodes's names that node's value. */
  lemma {:induction false} EvalIsEvalTerm(n: Node, env: map<string, Num>)
    requires forall v :: v in Variables(n) ==> v.name in env && env[v.name] == v.value
    ensures Eval(n) == EvalTerm(Erase(n), env)
  {
    match n
    case ValueLeaf(_) =>
    case VarLeaf(v) =>
      assert v in Variables(n);
    case BinaryNode(k, l, r) =>
      EvalIsEvalTerm(l, env);
      EvalIsEvalTerm(r, env);
    case NullNode =>
  }

  /** The operators that the reflection scan registers, in some order. */
  const RegisteredOperators: seq<BinaryKind> := [Add, Subtract, Multiply, Divide]

  /** The factory of operator nodes, with its symbol table. */
  class OperatorNodeFactory {
    var operators: map<char, BinaryKind>

    /** The table holds exactly the registered operators, each under its
        own symbol. */
    predicate Valid()
      reads this
    {
      forall c :: (c in operators <==> OperatorKind(c).Some?) && (c in operators ==> Some(operators[c]) == OperatorKind(c))
    }

    /** Fills the table from the registered operators, one `Add` each. */
    constructor ()
      ensures Valid()
    {
      var table: map<char, BinaryKind> := map[];
      var i := 0;
      while i < |RegisteredOperators|
        invariant 0 <= i <= |RegisteredOperators|
        invariant forall c :: c in table <==> exists j :: 0 <= j < i && OperatorOf(RegisteredOperators[j]) == c
        invariant forall c :: c in table ==> OperatorOf(table[c]) == c
      {
        var k := RegisteredOperators[i];
        table := table[OperatorOf(k) := k];
        i := i + 1;
      }
      forall c | OperatorKind(c).Some? ensures c in table {
        var k := OperatorKind(c).value;
        var j := if k == Add then 0 else if k == Subtract then 1 else if k == Multiply then 2 else 3;
        assert OperatorOf(RegisteredOperators[j]) == c;
      }
      operators := table;
    }

    /** A new binary node with null children for an operator symbol; null
        for any other character. */
    function CreateOperatorNode(op: char): (r: Node)
      reads this
      requires Valid()
      ensures r.BinaryNode? <==> op == '+' || op == '-' || op == '*' || op == '/'
      ensures r.BinaryNode? ==> OperatorOf(r.kind) == op && r.left == NullNode && r.right == NullNode
      ensures !r.BinaryNode? ==> r == NullNode
    {
      if op in operators then BinaryNode(operators[op], NullNode, NullNode) else NullNode
    }
  }

  /** The exceptions building a tree can raise. */
  datatype TreeError =
    | MissingOperand  // the `ArgumentException` of a binary operator with fewer than two operands
    | BadNumber       // the `FormatException` of `Convert.ToDouble`

  /** `NodeFactory.CreateNode`: a letter-first entry is a new variable named
      by the whole entry, with value 0; a digit-first entry is a constant
      with the parsed number, or fails to parse; anything else is null. */
  method CreateNode(val: string) returns (r: Result<Node, TreeError>)
    requires val != [] && (IsDigit(val[0]) ==> IsWord(val))
    ensures IsLetter(val[0]) ==>
      r.Ok? && r.value.VarLeaf? && fresh(r.value.variable)
      && r.value.variable.name == val && r.value.variable.Eval() == Finite(0.0)
    ensures IsDigit(val[0]) ==>
      (r.Ok? <==> ParseNumeral(val).Some?)
      && (r.Ok? ==> r.value == ValueLeaf(ParseNumeral(val).value))
      && (r.Err? ==> r.error == BadNumber)
    ensures !IsLetter(val[0]) && !IsDigit(val[0]) ==> r == Ok(NullNode)
  {
    if IsLetter(val[0]) {
      var v := new VariableNode(val);
      return Ok(VarLeaf(v));
    } else if IsDigit(val[0]) {
      var n := ParseNumeral(val);
      if n.None? {
        return Err(BadNumber);
      }
      return Ok(ValueLeaf(n.value));
    }
    return Ok(NullNode);
  }
}
