/** The spreadsheet as a value: the cells in row-major order, what a text
    edit does to them (classification, the single-reference shortcut, the
    general formula path, the cycle check and the recursive recalculation of
    dependents), and the undo and redo commands. The `Spreadsheet` class is
    proved against these functions. */
module SheetSpec {
  import opened Wrappers
  import opened Text
  import opened ShuntingYard
  import opened ShuntingYardProperties
  import opened Nodes
  import opened ExpressionTrees
  import opened Cells

  /** The error values a formula cell can show. */
  const BadReference: string := "!(bad reference)"
  const SelfReference: string := "!(self reference)"
  const ErrorEvaluating: string := "!(error)"
  const CircularReference: string := "!(circular reference)"

  /** `double.TryParse` of a cell value and `double.ToString` of a result. */
  datatype NumberFormat = NumberFormat(parse: string -> Option<Num>, render: Num -> string)

  /** The fixed parameters of a sheet. */
  datatype Config = Config(rows: nat, columns: nat, format: NumberFormat)

  function Size(cfg: Config): nat {
    cfg.rows * cfg.columns
  }

  /** The position of the cell at (row, column) in the row-major order. */
  function Index(cfg: Config, row: int, column: int): int {
    row * cfg.columns + column
  }

  lemma IndexInRange(cfg: Config, row: int, column: int)
    requires 0 <= row < cfg.rows && 0 <= column < cfg.columns
    ensures 0 <= Index(cfg, row, column) < Size(cfg)
  {
    assert row * cfg.columns <= (cfg.rows - 1) * cfg.columns;
  }

  /** Row `i` starts where row `i - 1` ends, inside the sheet. */
  lemma NextRow(cfg: Config, i: nat)
    requires i < cfg.rows
    ensures 0 <= Index(cfg, i, 0) && Index(cfg, i, 0) + cfg.columns == Index(cfg, i + 1, 0) <= Size(cfg)
  {
    assert (cfg.rows - i - 1) * cfg.columns >= 0;
  }

  lemma MulAtLeast(a: int, c: nat)
    requires a >= 1
    ensures a * c >= c
  {
  }

  /** Row and column can be read back from a position. */
  lemma IndexPosition(columns: nat, row: nat, column: nat)
    requires column < columns
    ensures (row * columns + column) / columns == row
    ensures (row * columns + column) % columns == column
  {
    var k := row * columns + column;
    var q, r := k / columns, k % columns;
    assert k == q * columns + r;
    assert (q - row) * columns == column - r;
    if q > row {
      MulAtLeast(q - row, columns);
    } else if q < row {
      MulAtLeast(row - q, columns);
    }
  }

  /** `GetCell` by position: nothing when the row or the column is negative
      or past the grid. */
  function CellIndex(cfg: Config, row: int, column: int): (r: Option<int>)
    ensures r.None? <==> row < 0 || column < 0 || row >= cfg.rows || column >= cfg.columns
    ensures r.Some? ==> r.value == Index(cfg, row, column) && 0 <= r.value < Size(cfg)
  {
    if row < 0 || column < 0 || row >= cfg.rows || column >= cfg.columns then None
    else
      IndexInRange(cfg, row, column);
      Some(Index(cfg, row, column))
  }

  /** The number `int.TryParse` leaves in its out parameter: 0 when the
      text is not a 32-bit integer. */
  function RowNumber(s: string): int {
    match ParseInt32(s)
    case Some(n) => n
    case None => 0
  }

  /** The cell a variable of a formula names: its first character is the
      column counted from `A`, the rest the row counted from 1. */
  function Reference(cfg: Config, name: string): (r: Option<int>)
    requires name != []
    ensures r.Some? ==> 0 <= r.value < Size(cfg)
    ensures ParseInt32(name[1..]).None? ==> r.None?
  {
    CellIndex(cfg, RowNumber(name[1..]) - 1, name[0] as int - 65)
  }

  /** A variable made of a character and the decimal digits of a row number
      names the cell in that row (counted from 1) and in the column of the
      character (counted from `A`), or none when that lies outside the
      sheet. */
  lemma ReferenceOfName(cfg: Config, c: char, n: nat)
    requires 1 <= n <= Int32Max
    ensures Reference(cfg, [c] + NatToString(n)) == CellIndex(cfg, n - 1, c as int - 65)
  {
    assert ([c] + NatToString(n))[1..] == NatToString(n);
    ParseNatToString(n);
  }

  // ---------------------------------------------------------------------
  // The dependency graph

  predicate InSheet(cs: seq<CellState>, s: set<int>) {
    forall x :: x in s ==> 0 <= x < |cs|
  }

  /** One cell per position, and every back-reference names a cell. */
  predicate Wf(cfg: Config, cs: seq<CellState>) {
    |cs| == Size(cfg)
    && forall k :: 0 <= k < |cs| ==> InSheet(cs, cs[k].dependOnMe) && InSheet(cs, cs[k].iDependOn)
  }

  /** The two back-reference sets agree: `a` references `b` exactly when
      `b` lists `a` as a dependent. */
  predicate Consistent(cs: seq<CellState>) {
    forall a, b :: 0 <= a < |cs| && 0 <= b < |cs| ==> (b in cs[a].iDependOn <==> a in cs[b].dependOnMe)
  }

  /** A walk along references: each cell references the next. */
  ghost predicate IsPath(cs: seq<CellState>, p: seq<int>) {
    |p| >= 1
    && (forall k :: 0 <= k < |p| ==> 0 <= p[k] < |cs|)
    && forall k :: 0 < k < |p| ==> p[k] in cs[p[k - 1]].iDependOn
  }

  /** `b` is `a`, or a cell `a`'s formula depends on through references. */
  ghost predicate Reaches(cs: seq<CellState>, a: int, b: int) {
    exists p :: IsPath(cs, p) && p[0] == a && p[|p| - 1] == b
  }

  /** Cell `i` depends on itself through one or more references. */
  ghost predicate InCycle(cs: seq<CellState>, i: int)
    requires 0 <= i < |cs|
  {
    exists d :: d in cs[i].iDependOn && Reaches(cs, d, i)
  }

  function WithValue(cs: seq<CellState>, i: int, v: string): seq<CellState>
    requires 0 <= i < |cs|
  {
    cs[i := cs[i].(value := v)]
  }

  function WithText(cs: seq<CellState>, i: int, v: string): seq<CellState>
    requires 0 <= i < |cs|
  {
    cs[i := cs[i].(text := v)]
  }

  function WithColor(cs: seq<CellState>, i: int, c: Color): seq<CellState>
    requires 0 <= i < |cs|
  {
    cs[i := cs[i].(bgColor := c)]
  }

  /** `j.AddDependent(i)` and `i.AddDepended(j)`: cell `i` now references
      cell `j`, recorded on both sides. */
  function WithEdge(cs: seq<CellState>, j: int, i: int): seq<CellState>
    requires 0 <= i < |cs| && 0 <= j < |cs|
  {
    var cs1 := cs[j := cs[j].(dependOnMe := cs[j].dependOnMe + {i})];
    cs1[i := cs1[i].(iDependOn := cs1[i].iDependOn + {j})]
  }

  lemma WithEdgeWf(cfg: Config, cs: seq<CellState>, j: int, i: int)
    requires Wf(cfg, cs) && 0 <= i < |cs| && 0 <= j < |cs|
    ensures Wf(cfg, WithEdge(cs, j, i))
  {
    var r := WithEdge(cs, j, i);
    forall k | 0 <= k < |r| ensures InSheet(r, r[k].dependOnMe) && InSheet(r, r[k].iDependOn) {
      assert InSheet(cs, cs[k].dependOnMe) && InSheet(cs, cs[k].iDependOn);
    }
  }

  /** `ClearDepended` on cell `i`: every cell `i` referenced forgets `i` as
      a dependent, then `i` references nothing. */
  function Cleared(cs: seq<CellState>, i: int): seq<CellState>
    requires 0 <= i < |cs|
  {
    var cs1 := seq(|cs|, k requires 0 <= k < |cs| =>
      if k in cs[i].iDependOn then cs[k].(dependOnMe := cs[k].dependOnMe - {i}) else cs[k]);
    cs1[i := cs1[i].(iDependOn := {})]
  }

  /** The elements of `s` below `n`, in ascending order: the order in which
      the model visits a snapshot of a `HashSet`. */
  function Ascending(s: set<int>, n: nat): (r: seq<int>)
    ensures forall k :: 0 <= k < |r| ==> 0 <= r[k] < n && r[k] in s
    ensures forall x :: 0 <= x < n && x in s ==> x in r
    ensures forall a, b :: 0 <= a < b < |r| ==> r[a] < r[b]
  {
    if n == 0 then [] else Ascending(s, n - 1) + (if n - 1 in s then [n - 1] else [])
  }

  // ---------------------------------------------------------------------
  // Formula evaluation

  /** The exceptions that escape from a recalculation, and the stack
      overflow of a recursion deeper than the fuel. */
  datatype Failure =
    | Thrown(error: ExpressionError)  // the formula does not parse
    | OutOfFuel                       // the recursion went deeper than the fuel
    | ColorIndexOutOfRange            // a colour command with too few old colours

  /** The cells after an operation, and what was thrown, if anything; on a
      failure, the cells as they were when it was thrown. */
  datatype Run = Run(cells: seq<CellState>, failure: Option<Failure>)

  predicate NonEmptyNames(names: seq<string>) {
    forall k :: 0 <= k < |names| ==> names[k] != []
  }

  /** Where the general path's loop over the variables ends: every variable
      set from its cell's value, or the error value the cell gets. */
  datatype Resolution = Resolved(env: map<string, Num>) | Stopped(value: string)

  /** One variable of a formula in cell `i`, given the cell it names (see
      `Reference`): that cell, recorded
      on both sides as a reference, and the number that cell holds; or the
      error value the loop stops with when the name is out of the grid, is
      the cell itself, or names a cell whose value is not a number. */
  datatype Lookup = Found(cells: seq<CellState>, n: Num) | Failed(cells: seq<CellState>, value: string)

  function LookUp(cfg: Config, cs: seq<CellState>, i: int, ref: Option<int>): (r: Lookup)
    requires Wf(cfg, cs) && 0 <= i < |cs| && (ref.Some? ==> 0 <= ref.value < |cs|)
    ensures Wf(cfg, r.cells)
  {
    match ref
    case None => Failed(cs, BadReference)
    case Some(j) =>
      if j == i then Failed(cs, SelfReference)
      else
        WithEdgeWf(cfg, cs, j, i);
        match cfg.format.parse(cs[j].value)
        case None => Failed(WithEdge(cs, j, i), ErrorEvaluating)
        case Some(n) => Found(WithEdge(cs, j, i), n)
  }

  /** The general path's loop over the variables of a formula in cell `i`:
      each variable is looked up in turn, and the first failed lookup stops
      the loop with its error value. */
  function Resolve(cfg: Config, cs: seq<CellState>, i: int, names: seq<string>, env: map<string, Num>)
    : (r: (seq<CellState>, Resolution))
    requires Wf(cfg, cs) && 0 <= i < |cs| && NonEmptyNames(names)
    ensures Wf(cfg, r.0)
    decreases |names|
  {
    if names == [] then (cs, Resolved(env))
    else
      match LookUp(cfg, cs, i, Reference(cfg, names[0]))
      case Failed(cs1, v) => (cs1, Stopped(v))
      case Found(cs1, n) => Resolve(cfg, cs1, i, names[1..], env[names[0] := n])
  }

  /** Every variable of a new tree is 0. */
  function ZeroEnv(names: seq<string>): map<string, Num> {
    map x | x in names :: Finite(0.0)
  }

  /** What the single-reference shortcut copies into a cell that references
      cell `j` alone. */
  ghost function Copied(cfg: Config, cs: seq<CellState>, i: int, j: int): string
    requires 0 <= i < |cs| && 0 <= j < |cs|
  {
    if InCycle(cs, i) then CircularReference
    else if cfg.format.parse(cs[j].value).Some? || (cs[j].text != [] && cs[j].text[0] != '=') then cs[j].value
    else if cs[j].text == [] then "0"
    else ErrorEvaluating
  }

  /** The single-reference shortcut for the cell at (row, column). */
  ghost function SingleReference(cfg: Config, cs: seq<CellState>, i: int, row: int, column: int): (r: seq<CellState>)
    requires Wf(cfg, cs) && 0 <= i < |cs|
    ensures Wf(cfg, r)
  {
    match CellIndex(cfg, row, column)
    case None => WithValue(cs, i, BadReference)
    case Some(j) =>
      if j == i then WithValue(cs, i, SelfReference)
      else
        var cs1 := WithEdge(cs, j, i);
        WithValue(cs1, i, Copied(cfg, cs1, i, j))
  }

  /** The general path: resolve the variables, then, if none failed, the
      cycle check, then the tree's value. */
  ghost function General(cfg: Config, cs: seq<CellState>, i: int, t: Term, names: seq<string>): (r: seq<CellState>)
    requires Wf(cfg, cs) && 0 <= i < |cs| && NonEmptyNames(names)
    ensures Wf(cfg, r)
  {
    var (cs1, res) := Resolve(cfg, cs, i, names, ZeroEnv(names));
    match res
    case Stopped(v) => WithValue(cs1, i, v)
    case Resolved(env) =>
      if InCycle(cs1, i) then WithValue(cs1, i, CircularReference)
      else
        var value := match EvalTerm(t, env)
          case Some(n) => cfg.format.render(n)
          case None => ErrorEvaluating;
        WithValue(cs1, i, value)
  }

  /** One variable looked up in the general path's loop, for the loop that
      carries the rest of the names. */
  lemma ResolveFound(cfg: Config, cs: seq<CellState>, i: int, names: seq<string>, env: map<string, Num>,
                     cs1: seq<CellState>, n: Num)
    requires Wf(cfg, cs) && 0 <= i < |cs| && NonEmptyNames(names) && names != []
    requires LookUp(cfg, cs, i, Reference(cfg, names[0])) == Found(cs1, n)
    ensures Resolve(cfg, cs, i, names, env) == Resolve(cfg, cs1, i, names[1..], env[names[0] := n])
  {
  }

  /** A failed lookup stops the loop with its error value. */
  lemma ResolveFailed(cfg: Config, cs: seq<CellState>, i: int, names: seq<string>, env: map<string, Num>,
                      cs1: seq<CellState>, v: string)
    requires Wf(cfg, cs) && 0 <= i < |cs| && NonEmptyNames(names) && names != []
    requires LookUp(cfg, cs, i, Reference(cfg, names[0])) == Failed(cs1, v)
    ensures Resolve(cfg, cs, i, names, env) == (cs1, Stopped(v))
  {
  }

  /** A failed lookup decides the general path's result. */
  lemma GeneralStopped(cfg: Config, cs0: seq<CellState>, cs: seq<CellState>, i: int, t: Term,
                       names: seq<string>, rest: seq<string>, env: map<string, Num>)
    requires Wf(cfg, cs0) && Wf(cfg, cs) && 0 <= i < |cs0| && 0 <= i < |cs|
    requires NonEmptyNames(names) && NonEmptyNames(rest) && rest != []
    requires Resolve(cfg, cs0, i, names, ZeroEnv(names)) == Resolve(cfg, cs, i, rest, env)
    requires LookUp(cfg, cs, i, Reference(cfg, rest[0])).Failed?
    ensures General(cfg, cs0, i, t, names) ==
      WithValue(LookUp(cfg, cs, i, Reference(cfg, rest[0])).cells, i, LookUp(cfg, cs, i, Reference(cfg, rest[0])).value)
  {
  }

  /** All variables looked up: the cycle check, then the tree's value. */
  lemma GeneralResolved(cfg: Config, cs0: seq<CellState>, cs: seq<CellState>, i: int, t: Term,
                        names: seq<string>, env: map<string, Num>)
    requires Wf(cfg, cs0) && Wf(cfg, cs) && 0 <= i < |cs0| && 0 <= i < |cs| && NonEmptyNames(names)
    requires Resolve(cfg, cs0, i, names, ZeroEnv(names)) == Resolve(cfg, cs, i, [], env)
    ensures General(cfg, cs0, i, t, names) ==
      if InCycle(cs, i) then WithValue(cs, i, CircularReference)
      else WithValue(cs, i, match EvalTerm(t, env) case Some(n) => cfg.format.render(n) case None => ErrorEvaluating)
  {
  }

  lemma NamesOfFormula(formula: string)
    requires ParseTree(formula).Ok?
    ensures Postfix(formula).Ok?
    ensures NonEmptyNames(VariablesOf(Postfix(formula).value))
    ensures VariablesOf(Postfix(formula).value) != [] ==> formula != []
  {
    if formula == [] {
      EmptyExpression();
    }
    var names := VariablesOf(Postfix(formula).value);
    forall k | 0 <= k < |names| ensures names[k] != [] {
      assert names[k] in names;
    }
  }

  /** `EvaluateFormula` on cell `i`, whose text starts with `=`: a formula
      that does not parse throws; one that parses is evaluated by
      `EvaluateTree`. */
  ghost function EvaluateFormula(cfg: Config, cs: seq<CellState>, i: int): (r: Run)
    requires Wf(cfg, cs) && 0 <= i < |cs| && cs[i].text != [] && cs[i].text[0] == '='
    ensures Wf(cfg, r.cells)
  {
    var formula := cs[i].text[1..];
    match ParseTree(formula)
    case Err(e) => Run(cs, Some(Thrown(e)))
    case Ok(t) =>
      NamesOfFormula(formula);
      Run(EvaluateTree(cfg, cs, i, formula, t, VariablesOf(Postfix(formula).value)), None)
  }

  /** A parsed formula with term `t` and variables `names`: one variable
      and an integer after the formula's first character take the
      single-reference shortcut; every other formula takes the general
      path. */
  ghost function EvaluateTree(cfg: Config, cs: seq<CellState>, i: int, formula: string, t: Term, names: seq<string>)
    : (r: seq<CellState>)
    requires Wf(cfg, cs) && 0 <= i < |cs| && NonEmptyNames(names) && (|names| == 1 ==> formula != [])
    ensures Wf(cfg, r)
  {
    if |names| == 1 && ParseInt32(formula[1..]).Some? then
      SingleReference(cfg, cs, i, ParseInt32(formula[1..]).value - 1, formula[0] as int - 65)
    else
      General(cfg, cs, i, t, names)
  }

  // ---------------------------------------------------------------------
  // Recalculation

  /** The property-change notifications a cell sends to the sheet; the
      sheet re-sends `CircularFound` to dependents of a cell in a cycle. */
  datatype Event = TextChanged | ValueChanged | ColorChanged | CircularFound

  /** The value a text change gives cell `i`: its formula's value, or its
      text when it is not a formula. */
  ghost function Recompute(cfg: Config, cs: seq<CellState>, i: int): (r: Run)
    requires Wf(cfg, cs) && 0 <= i < |cs|
    ensures Wf(cfg, r.cells)
  {
    if cs[i].text != [] && cs[i].text[0] == '=' then EvaluateFormula(cfg, cs, i)
    else Run(WithValue(cs, i, cs[i].text), None)
  }

  /** `CellPropertyChanged` on cell `i`, with at most `fuel` nested calls.
      A text change clears the cell's references, recomputes its value and
      then recalculates each dependent, passing on `CircularFound` instead
      when the value became the circular-reference error; `CircularFound`
      sets that error and passes it on to the dependents that do not show
      it yet; the other notifications change nothing. */
  ghost function Changed(cfg: Config, cs: seq<CellState>, i: int, e: Event, fuel: nat): (r: Run)
    requires Wf(cfg, cs) && 0 <= i < |cs|
    ensures Wf(cfg, r.cells)
    decreases fuel, 2
  {
    match e
    case TextChanged => TextChangedStep(cfg, cs, i, fuel)
    case CircularFound => CircularFoundStep(cfg, cs, i, fuel)
    case _ => Run(cs, None)
  }

  /** A text change: the cell's references are cleared, its value is
      recomputed, and its dependents are recalculated, or sent
      `CircularFound` when the value became the circular-reference error. */
  ghost function TextChangedStep(cfg: Config, cs: seq<CellState>, i: int, fuel: nat): (r: Run)
    requires Wf(cfg, cs) && 0 <= i < |cs|
    ensures Wf(cfg, r.cells)
    decreases fuel, 1
  {
    if fuel == 0 then Run(cs, Some(OutOfFuel))
    else AfterRecompute(cfg, i, Recompute(cfg, Cleared(cs, i), i), fuel - 1)
  }

  /** What follows the new value `r1` of cell `i`: a failure ends the
      recalculation; otherwise the dependents are recalculated, or sent
      `CircularFound` when the value is the circular-reference error. */
  ghost function AfterRecompute(cfg: Config, i: int, r1: Run, fuel: nat): (r: Run)
    requires Wf(cfg, r1.cells) && 0 <= i < |r1.cells|
    ensures Wf(cfg, r.cells)
    decreases fuel, 6
  {
    if r1.failure.Some? then r1 else Propagate(cfg, r1.cells, i, fuel)
  }

  /** Cell `i` has its new value: each dependent is recalculated, or sent
      `CircularFound` when that value is the circular-reference error. */
  ghost function Propagate(cfg: Config, cs: seq<CellState>, i: int, fuel: nat): (r: Run)
    requires Wf(cfg, cs) && 0 <= i < |cs|
    ensures Wf(cfg, r.cells)
    decreases fuel, 5
  {
    var next := if cs[i].value == CircularReference then CircularFound else TextChanged;
    Dependents(cfg, cs, i, next, false, fuel)
  }

  /** `CircularFound`: the cell shows the circular-reference error, and
      the dependents that do not show it yet are sent the same event. */
  ghost function CircularFoundStep(cfg: Config, cs: seq<CellState>, i: int, fuel: nat): (r: Run)
    requires Wf(cfg, cs) && 0 <= i < |cs|
    ensures Wf(cfg, r.cells)
    decreases fuel, 0
  {
    if fuel == 0 then Run(cs, Some(OutOfFuel))
    else
      Dependents(cfg, WithValue(cs, i, CircularReference), i, CircularFound, true, fuel - 1)
  }

  /** Event `e` sent to each cell that depends on cell `i`, in increasing
      order of position. */
  ghost function Dependents(cfg: Config, cs: seq<CellState>, i: int, e: Event, skipCircular: bool, fuel: nat): (r: Run)
    requires Wf(cfg, cs) && 0 <= i < |cs|
    ensures Wf(cfg, r.cells)
    decreases fuel, 4
  {
    ChangedAll(cfg, cs, Ascending(cs[i].dependOnMe, |cs|), e, skipCircular, fuel)
  }

  /** The loop over a snapshot of the dependents; with `skipCircular`, a
      dependent that already shows the circular-reference error is passed
      over. The first failure ends the loop. */
  ghost function ChangedAll(cfg: Config, cs: seq<CellState>, ds: seq<int>, e: Event, skipCircular: bool, fuel: nat): (r: Run)
    requires Wf(cfg, cs) && forall k :: 0 <= k < |ds| ==> 0 <= ds[k] < |cs|
    ensures Wf(cfg, r.cells)
    decreases fuel, 3, |ds|
  {
    if ds == [] then Run(cs, None)
    else if skipCircular && cs[ds[0]].value == CircularReference then
      ChangedAll(cfg, cs, ds[1..], e, skipCircular, fuel)
    else
      var r := Changed(cfg, cs, ds[0], e, fuel);
      if r.failure.Some? then r else ChangedAll(cfg, r.cells, ds[1..], e, skipCircular, fuel)
  }

  /** With fuel left, a text change recomputes the cell and goes on from
      the new value. */
  lemma TextChangedRecomputes(cfg: Config, cs: seq<CellState>, i: int, fuel: nat)
    requires Wf(cfg, cs) && 0 <= i < |cs| && fuel > 0
    ensures TextChangedStep(cfg, cs, i, fuel) == AfterRecompute(cfg, i, Recompute(cfg, Cleared(cs, i), i), fuel - 1)
  {
  }

  /** Without fuel, a text change fails at once and writes nothing. */
  lemma TextChangedOutOfFuel(cfg: Config, cs: seq<CellState>, i: int)
    requires Wf(cfg, cs) && 0 <= i < |cs|
    ensures TextChangedStep(cfg, cs, i, 0) == Run(cs, Some(OutOfFuel))
  {
  }

  lemma AfterRecomputeFuel(cfg: Config, i: int, r1: Run, fuel: nat, inner: nat)
    requires Wf(cfg, r1.cells) && 0 <= i < |r1.cells| && fuel > 0 && inner == fuel - 1
    ensures AfterRecompute(cfg, i, r1, fuel - 1) == AfterRecompute(cfg, i, r1, inner)
  {
  }

  /** A new value that failed ends the recalculation. */
  lemma AfterRecomputeFails(cfg: Config, i: int, r1: Run, fuel: nat)
    requires Wf(cfg, r1.cells) && 0 <= i < |r1.cells| && r1.failure.Some?
    ensures AfterRecompute(cfg, i, r1, fuel) == r1
  {
  }

  /** A new value that was set goes on to the dependents. */
  lemma AfterRecomputeGoesOn(cfg: Config, i: int, cs2: seq<CellState>, next: Event, fuel: nat, r: Run)
    requires Wf(cfg, cs2) && 0 <= i < |cs2|
    requires next == if cs2[i].value == CircularReference then CircularFound else TextChanged
    requires r == Dependents(cfg, cs2, i, next, false, fuel)
    ensures AfterRecompute(cfg, i, Run(cs2, None), fuel) == r
  {
    assert Propagate(cfg, cs2, i, fuel) == r;
  }

  /** `CircularFound` sets the error value and passes it on. */
  lemma ChangedCircular(cfg: Config, cs: seq<CellState>, i: int, fuel: nat, cs1: seq<CellState>, inner: nat, r: Run)
    requires Wf(cfg, cs) && 0 <= i < |cs| && fuel > 0 && inner == fuel - 1
    requires cs1 == WithValue(cs, i, CircularReference)
    requires Wf(cfg, cs1) && r == Dependents(cfg, cs1, i, CircularFound, true, inner)
    ensures CircularFoundStep(cfg, cs, i, fuel) == r
  {
  }

  /** A dependent that already shows the circular-reference error is
      passed over. */
  lemma ChangedAllSkips(cfg: Config, cs: seq<CellState>, ds: seq<int>, n: int, e: Event, fuel: nat)
    requires Wf(cfg, cs) && (forall k :: 0 <= k < |ds| ==> 0 <= ds[k] < |cs|) && 0 <= n < |ds|
    requires cs[ds[n]].value == CircularReference
    ensures ChangedAll(cfg, cs, ds[n..], e, true, fuel) == ChangedAll(cfg, cs, ds[n + 1..], e, true, fuel)
  {
    assert ds[n..][0] == ds[n] && ds[n..][1..] == ds[n + 1..];
  }

  /** One dependent recalculated: a failure ends the loop, otherwise it
      goes on from the new cells. */
  lemma ChangedAllStep(cfg: Config, cs: seq<CellState>, ds: seq<int>, n: int, e: Event, skipCircular: bool, fuel: nat, r: Run)
    requires Wf(cfg, cs) && (forall k :: 0 <= k < |ds| ==> 0 <= ds[k] < |cs|) && 0 <= n < |ds|
    requires !(skipCircular && cs[ds[n]].value == CircularReference)
    requires r == Changed(cfg, cs, ds[n], e, fuel)
    ensures |r.cells| == |cs|
    ensures ChangedAll(cfg, cs, ds[n..], e, skipCircular, fuel) ==
      if r.failure.Some? then r else ChangedAll(cfg, r.cells, ds[n + 1..], e, skipCircular, fuel)
  {
    assert ds[n..][0] == ds[n] && ds[n..][1..] == ds[n + 1..];
  }

  /** The `Text` setter of cell `i` followed by the notification it sends
      when the text changed. */
  ghost function SetText(cfg: Config, cs: seq<CellState>, i: int, v: string, fuel: nat): (r: Run)
    requires Wf(cfg, cs) && 0 <= i < |cs|
    ensures Wf(cfg, r.cells)
  {
    if cs[i].text == v then Run(cs, None)
    else Changed(cfg, WithText(cs, i, v), i, TextChanged, fuel)
  }

  // ---------------------------------------------------------------------
  // Commands

  /** A `TextCommand` (one cell's text before and after an edit) or a
      `ColorCommand` (the new colour of a list of cells and their old
      colours, index by index). */
  datatype Command =
    | TextCommand(newText: string, oldText: string, cell: int)
    | ColorCommand(newColor: Color, oldColor: seq<Color>, cellList: seq<int>)

  predicate CommandOk(cfg: Config, c: Command) {
    match c
    case TextCommand(_, _, cell) => 0 <= cell < Size(cfg)
    case ColorCommand(_, _, list) => forall k :: 0 <= k < |list| ==> 0 <= list[k] < Size(cfg)
  }

  /** `ColorCommand.Execute`'s loop: the k-th cell gets the k-th colour; a
      cell without a colour ends the loop with an index error. */
  function Recolor(cs: seq<CellState>, list: seq<int>, colors: seq<Color>): (r: Run)
    requires forall k :: 0 <= k < |list| ==> 0 <= list[k] < |cs|
    ensures |r.cells| == |cs|
    ensures forall k :: 0 <= k < |cs| ==> r.cells[k] == cs[k].(bgColor := r.cells[k].bgColor)
    ensures r.failure.Some? <==> |colors| < |list|
    decreases |list|
  {
    if list == [] then Run(cs, None)
    else if colors == [] then Run(cs, Some(ColorIndexOutOfRange))
    else Recolor(WithColor(cs, list[0], colors[0]), list[1..], colors[1..])
  }

  /** `ColorCommand.UnExecute`'s loop: every listed cell gets the colour. */
  function Paint(cs: seq<CellState>, list: seq<int>, color: Color): (r: seq<CellState>)
    requires forall k :: 0 <= k < |list| ==> 0 <= list[k] < |cs|
    ensures |r| == |cs|
    ensures forall k :: 0 <= k < |cs| ==> r[k] == cs[k].(bgColor := r[k].bgColor)
    ensures forall k :: 0 <= k < |cs| ==> r[k].bgColor == cs[k].bgColor || r[k].bgColor == color
    ensures forall k :: 0 <= k < |list| ==> r[list[k]].bgColor == color
    decreases |list|
  {
    if list == [] then cs else Paint(WithColor(cs, list[0], color), list[1..], color)
  }

  /** `Execute`, which undo runs: back to the old text or colours. */
  ghost function Execute(cfg: Config, cs: seq<CellState>, c: Command, fuel: nat): (r: Run)
    requires Wf(cfg, cs) && CommandOk(cfg, c)
    ensures Wf(cfg, r.cells)
  {
    match c
    case TextCommand(_, oldText, cell) => SetText(cfg, cs, cell, oldText, fuel)
    case ColorCommand(_, oldColor, list) => Recolor(cs, list, oldColor)
  }

  /** `UnExecute`, which redo runs: forward to the new text or colour. */
  ghost function UnExecute(cfg: Config, cs: seq<CellState>, c: Command, fuel: nat): (r: Run)
    requires Wf(cfg, cs) && CommandOk(cfg, c)
    ensures Wf(cfg, r.cells)
  {
    match c
    case TextCommand(newText, _, cell) => SetText(cfg, cs, cell, newText, fuel)
    case ColorCommand(newColor, _, list) => Run(Paint(cs, list, newColor), None)
  }

  // ---------------------------------------------------------------------
  // The undo and redo stacks

  /** The cells with the two command stacks, the top of each stack last. */
  datatype Sheet = Sheet(cells: seq<CellState>, undo: seq<Command>, redo: seq<Command>)

  predicate SheetOk(cfg: Config, s: Sheet) {
    Wf(cfg, s.cells)
    && (forall k :: 0 <= k < |s.undo| ==> CommandOk(cfg, s.undo[k]))
    && (forall k :: 0 <= k < |s.redo| ==> CommandOk(cfg, s.redo[k]))
  }

  /** A sheet after an operation, and what was thrown, if anything. */
  datatype Outcome = Outcome(sheet: Sheet, failure: Option<Failure>)

  /** `AddUndo`: push the command; a new edit empties the redo stack. */
  function AddUndo(s: Sheet, c: Command): Sheet {
    s.(undo := s.undo + [c], redo := [])
  }

  /** `Undo`: move the top undo command to the redo stack, then `Execute`
      it; nothing happens when there is nothing to undo. */
  ghost function Undo(cfg: Config, s: Sheet, fuel: nat): (r: Outcome)
    requires SheetOk(cfg, s)
    ensures SheetOk(cfg, r.sheet)
  {
    if s.undo == [] then Outcome(s, None)
    else
      var c := s.undo[|s.undo| - 1];
      var run := Execute(cfg, s.cells, c, fuel);
      Outcome(Sheet(run.cells, s.undo[..|s.undo| - 1], s.redo + [c]), run.failure)
  }

  /** `Redo`: move the top redo command back to the undo stack, then
      `UnExecute` it; nothing happens when there is nothing to redo. */
  ghost function Redo(cfg: Config, s: Sheet, fuel: nat): (r: Outcome)
    requires SheetOk(cfg, s)
    ensures SheetOk(cfg, r.sheet)
  {
    if s.redo == [] then Outcome(s, None)
    else
      var c := s.redo[|s.redo| - 1];
      var run := UnExecute(cfg, s.cells, c, fuel);
      Outcome(Sheet(run.cells, s.undo + [c], s.redo[..|s.redo| - 1]), run.failure)
  }

  /** `ClearSpreadsheet`'s loop from position `k` on, in row-major order:
      each cell's text is set to empty (which recalculates what depends on
      it), then its colour to 0. */
  ghost function ClearFrom(cfg: Config, cs: seq<CellState>, k: nat, fuel: nat): (r: Run)
    requires Wf(cfg, cs) && k <= |cs|
    ensures Wf(cfg, r.cells)
    decreases |cs| - k
  {
    if k == |cs| then Run(cs, None)
    else
      var r1 := SetText(cfg, cs, k, "", fuel);
      if r1.failure.Some? then r1
      else ClearFrom(cfg, WithColor(r1.cells, k, 0), k + 1, fuel)
  }

  /** Emptying cell `k`'s text failed: the loop ends with that failure. */
  lemma ClearFromFails(cfg: Config, cs: seq<CellState>, k: nat, fuel: nat, r: Run)
    requires Wf(cfg, cs) && k < |cs| && r == SetText(cfg, cs, k, "", fuel) && r.failure.Some?
    ensures ClearFrom(cfg, cs, k, fuel) == r
  {
  }

  /** Cell `k` cleared: the loop goes on from the next position. */
  lemma ClearFromGoesOn(cfg: Config, cs: seq<CellState>, k: nat, fuel: nat, cs1: seq<CellState>)
    requires Wf(cfg, cs) && k < |cs| && Run(cs1, None) == SetText(cfg, cs, k, "", fuel)
    ensures ClearFrom(cfg, cs, k, fuel) == ClearFrom(cfg, WithColor(cs1, k, 0), k + 1, fuel)
  {
  }

  /** The loop ends at the last position. */
  lemma ClearFromEnd(cfg: Config, cs: seq<CellState>, fuel: nat)
    requires Wf(cfg, cs)
    ensures ClearFrom(cfg, cs, |cs|, fuel) == Run(cs, None)
  {
  }

  /** `ClearSpreadsheet`: every cell cleared, then both stacks emptied. */
  ghost function ClearSheet(cfg: Config, s: Sheet, fuel: nat): (r: Outcome)
    requires SheetOk(cfg, s)
    ensures SheetOk(cfg, r.sheet)
  {
    var run := ClearFrom(cfg, s.cells, 0, fuel);
    if run.failure.Some? then Outcome(s.(cells := run.cells), run.failure)
    else Outcome(Sheet(run.cells, [], []), None)
  }
}
