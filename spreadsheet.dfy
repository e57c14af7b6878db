/** The `Spreadsheet` class: the grid of cells, the recalculation that a
    text change starts, the cycle check, the commands and the undo and redo
    stacks. Every method is proved against the function of the same name
    in `SheetSpec`, on the snapshot of the cells' states. */
module Sheets {
  import opened Wrappers
  import opened Text
  import opened ShuntingYard
  import opened Nodes
  import opened ExpressionTrees
  import opened Cells
  import opened SheetSpec
  import opened SheetGraph

  /** The constructor's two loops: row by row, a new cell for each
      column, in row-major order. */
  method NewGrid(rows: nat, columns: nat) returns (made: seq<Cell>)
    ensures |made| == rows * columns
    ensures forall k :: 0 <= k < |made| ==> fresh(made[k]) && made[k].State() == NewCell
    ensures forall k :: 0 <= k < |made| ==>
      made[k].rowIndex == k / columns && made[k].columnIndex == k % columns
    ensures forall j, k :: 0 <= j < k < |made| ==> made[j] != made[k]
  {
    made := [];
    for i := 0 to rows
      invariant |made| == i * columns
      invariant forall k :: 0 <= k < |made| ==> fresh(made[k]) && made[k].State() == NewCell
      invariant forall k :: 0 <= k < |made| ==>
        made[k].rowIndex == k / columns && made[k].columnIndex == k % columns
      invariant forall j, k :: 0 <= j < k < |made| ==> made[j] != made[k]
    {
      for j := 0 to columns
        invariant |made| == i * columns + j
        invariant forall k :: 0 <= k < |made| ==> fresh(made[k]) && made[k].State() == NewCell
        invariant forall k :: 0 <= k < |made| ==>
          made[k].rowIndex == k / columns && made[k].columnIndex == k % columns
        invariant forall j, k :: 0 <= j < k < |made| ==> made[j] != made[k]
      {
        var cell := new Cell(i, j);
        IndexPosition(columns, i, j);
        made := made + [cell];
      }
    }
  }

  class Spreadsheet {
    const rows: nat
    const columns: nat
    /** `double.TryParse` and `double.ToString` of cell values. */
    const format: NumberFormat
    /** The grid in row-major order: the cell at (row, column) is at
        position `row * columns + column`. */
    const cells: array<Cell>
    /** The undo stack, top last. */
    var undo: seq<Command>
    /** The redo stack, top last. */
    var redo: seq<Command>

    function Cfg(): Config {
      Config(rows, columns, format)
    }

    ghost function Repr(): set<Cell>
      reads cells
    {
      set k | 0 <= k < cells.Length :: cells[k]
    }

    /** The states of the cells, position by position. */
    ghost function Snapshot(): (r: seq<CellState>)
      reads cells, Repr()
      ensures |r| == cells.Length
      ensures forall k :: 0 <= k < cells.Length ==> r[k] == cells[k].State()
    {
      seq(cells.Length, k requires 0 <= k < cells.Length reads cells, Repr() => cells[k].State())
    }

    /** The sheet as a value. */
    ghost function Whole(): Sheet
      reads this, cells, Repr()
    {
      Sheet(Snapshot(), undo, redo)
    }

    /** One distinct cell per position. */
    ghost predicate Shaped()
      reads this, cells
    {
      cells.Length == rows * columns
      && forall j, k :: 0 <= j < k < cells.Length ==> cells[j] != cells[k]
    }

    /** Each cell knows its row and column; as both are constants, no
        method can change this. */
    ghost predicate Positioned()
      reads this, cells
    {
      forall k :: 0 <= k < cells.Length && 0 < columns ==>
        cells[k].rowIndex == k / columns && cells[k].columnIndex == k % columns
    }

    /** The grid is shaped, every back-reference and every command names a
        cell, and the two back-reference sets agree. */
    ghost predicate Valid()
      reads this, cells, Repr()
    {
      Shaped() && SheetOk(Cfg(), Whole()) && Consistent(Snapshot())
    }

    /** `rows` by `columns` new cells, and empty stacks. */
    constructor (rows: nat, columns: nat, format: NumberFormat)
      ensures this.rows == rows && this.columns == columns && this.format == format
      ensures Valid() && Positioned() && fresh(Repr())
      ensures Snapshot() == seq(rows * columns, _ => NewCell)
      ensures undo == [] && redo == []
    {
      var made := NewGrid(rows, columns);
      this.rows := rows;
      this.columns := columns;
      this.format := format;
      cells := new Cell[|made|](k requires 0 <= k < |made| => made[k]);
      undo := [];
      redo := [];
      new;
      assert Snapshot() == seq(rows * columns, _ => NewCell);
    }

    /** `GetCell`: null exactly when the row or the column is negative or
        past the grid, otherwise the cell at that row and column. */
    method GetCell(row: int, column: int) returns (c: Cell?)
      requires Valid()
      ensures c == null <==> CellIndex(Cfg(), row, column).None?
      ensures c != null ==> c == cells[Index(Cfg(), row, column)]
      ensures c != null && Positioned() ==> c.rowIndex == row && c.columnIndex == column
    {
      if row < 0 || column < 0 || row >= rows || column >= columns {
        return null;
      }
      IndexInRange(Cfg(), row, column);
      IndexPosition(columns, row, column);
      c := cells[row * columns + column];
    }

    // -------------------------------------------------------------------
    // The writes a recalculation is made of

    /** The `Value` setter; its notification changes nothing. */
    method SetValueOf(i: int, v: string)
      requires Valid() && 0 <= i < cells.Length
      modifies Repr()
      ensures Valid() && Snapshot() == WithValue(old(Snapshot()), i, v)
    {
      WithValueConsistent(Snapshot(), i, v);
      var _ := cells[i].SetValue(v);
      assert Snapshot() == WithValue(old(Snapshot()), i, v);
    }

    /** `j.AddDependent(i)` then `i.AddDepended(j)`. */
    method AddEdge(j: int, i: int)
      requires Valid() && 0 <= i < cells.Length && 0 <= j < cells.Length
      modifies Repr()
      ensures Valid() && Snapshot() == WithEdge(old(Snapshot()), j, i)
    {
      WithEdgeConsistent(Snapshot(), j, i);
      WithEdgeWf(Cfg(), Snapshot(), j, i);
      ghost var cs := Snapshot();
      cells[j].AddDependent(i);
      assert Snapshot() == cs[j := cs[j].(dependOnMe := cs[j].dependOnMe + {i})];
      cells[i].AddDepended(j);
      assert Snapshot() == WithEdge(old(Snapshot()), j, i);
    }

    /** The loop of `ClearDepended`: each cell of `deps` drops `i` as a
        dependent, and nothing else changes. */
    method DropDependent(deps: set<int>, i: int)
      requires Shaped() && forall k :: k in deps ==> 0 <= k < cells.Length
      modifies Repr()
      ensures Shaped()
      ensures forall k :: 0 <= k < cells.Length ==>
        cells[k].State() == if k in deps then old(cells[k].State()).(dependOnMe := old(cells[k].dependOnMe) - {i})
                            else old(cells[k].State())
    {
      var ds := Ascending(deps, cells.Length);
      for n := 0 to |ds|
        invariant forall k :: 0 <= k < cells.Length ==>
          cells[k].State() == if k in ds[..n] then old(cells[k].State()).(dependOnMe := old(cells[k].dependOnMe) - {i})
                              else old(cells[k].State())
      {
        cells[ds[n]].RemoveDependent(i);
        assert ds[..n + 1] == ds[..n] + [ds[n]];
      }
      assert ds[..|ds|] == ds;
    }

    /** `ClearDepended` on cell `i`: each cell it references drops it as a
        dependent, then its own set is emptied. */
    method ClearDepended(i: int)
      requires Valid() && 0 <= i < cells.Length
      modifies Repr()
      ensures Valid() && Snapshot() == Cleared(old(Snapshot()), i)
    {
      ghost var cs := Snapshot();
      ClearedConsistent(cs, i);
      ClearedWf(Cfg(), cs, i);
      assert InSheet(cs, cs[i].iDependOn);
      DropDependent(cells[i].iDependOn, i);
      cells[i].ClearDependedSet();
      assert forall k :: 0 <= k < |cs| ==> cells[k].State() == Cleared(cs, i)[k];
      assert Snapshot() == Cleared(cs, i);
    }

    // -------------------------------------------------------------------
    // The cycle check

    /** `CheckCircularReferenceHelper`: a depth-first search for `target`
        from `curr` along references, which skips the cells already in
        `visited` and returns the grown visited set. A cell found means a
        walk from `curr` to `target`; no cell found means the cells this
        call visited reference only visited cells, and `target` is not
        among them. */
    method CheckCircularReferenceHelper(target: int, curr: int, visited: set<int>, ghost cs: seq<CellState>)
      returns (found: bool, visitedOut: set<int>)
      requires cs == Snapshot() && Wf(Cfg(), cs) && 0 <= target < |cs| && 0 <= curr < |cs|
      requires InSheet(cs, visited) && curr !in visited && target !in visited
      ensures visited + {curr} <= visitedOut && InSheet(cs, visitedOut)
      ensures found ==> Reaches(cs, curr, target)
      ensures !found ==> target !in visitedOut && ClosedUnder(cs, visitedOut - visited, visitedOut)
      decreases Below(cells.Length) - visited
    {
      visitedOut := visited + {curr};
      if target in visitedOut {
        ReachesSelf(cs, curr);
        return true, visitedOut;
      }
      assert InSheet(cs, cs[curr].iDependOn);
      var ds := Ascending(cells[curr].iDependOn, cells.Length);
      for n := 0 to |ds|
        invariant visited + {curr} <= visitedOut && InSheet(cs, visitedOut) && target !in visitedOut
        invariant ClosedUnder(cs, visitedOut - visited - {curr}, visitedOut)
        invariant forall m :: 0 <= m < n ==> ds[m] in visitedOut
      {
        var d := ds[n];
        if d !in visitedOut {
          ghost var before := visitedOut;
          assert curr in Below(cells.Length) - visited && curr !in Below(cells.Length) - visitedOut;
          var result;
          result, visitedOut := CheckCircularReferenceHelper(target, d, visitedOut, cs);
          if result {
            ReachesStep(cs, curr, d, target);
            return true, visitedOut;
          }
          ClosedGrow(cs, before - visited - {curr}, before, visitedOut);
          assert (before - visited - {curr}) + (visitedOut - before) == visitedOut - visited - {curr};
        }
      }
      assert cs[curr].iDependOn <= visitedOut;
      ClosedAdd(cs, visitedOut - visited - {curr}, visitedOut, curr);
      assert (visitedOut - visited - {curr}) + {curr} == visitedOut - visited;
      found := false;
    }

    /** `CheckCircularReference`: whether cell `i` depends on itself through
        one or more references. */
    method CheckCircularReference(i: int, ghost cs: seq<CellState>) returns (r: bool)
      requires cs == Snapshot() && Wf(Cfg(), cs) && 0 <= i < cells.Length
      ensures r <==> InCycle(cs, i)
    {
      ghost var closed: set<int> := {};
      var ds := Ascending(cells[i].iDependOn, cells.Length);
      for n := 0 to |ds|
        invariant ClosedUnder(cs, closed, closed) && i !in closed
        invariant forall m :: 0 <= m < n ==> ds[m] in closed
      {
        var result, visited := CheckCircularReferenceHelper(i, ds[n], {}, cs);
        if result {
          CycleFound(cs, i, ds[n]);
          return true;
        }
        ClosedUnion(cs, closed, visited);
        closed := closed + visited;
      }
      NoCycle(cs, i, ds, closed);
      r := false;
    }

    // -------------------------------------------------------------------
    // Formula evaluation

    /** The value the single-reference shortcut gives cell `i` once its
        reference to cell `j` is recorded: the circular-reference error, a
        copy of the referenced cell's value, "0" for an empty cell, or the
        error value. */
    method CopyValue(i: int, j: int)
      requires Valid() && 0 <= i < cells.Length && 0 <= j < cells.Length
      modifies Repr()
      ensures Valid() && Snapshot() == WithValue(old(Snapshot()), i, Copied(Cfg(), old(Snapshot()), i, j))
    {
      var circular := CheckCircularReference(i, Snapshot());
      if circular {
        SetValueOf(i, CircularReference);
      } else {
        var parsed := format.parse(cells[j].value);
        if parsed.Some? || (cells[j].text != [] && cells[j].text[0] != '=') {
          SetValueOf(i, cells[j].value);
        } else if cells[j].text == [] {
          SetValueOf(i, "0");
        } else {
          SetValueOf(i, ErrorEvaluating);
        }
      }
    }

    /** The single-reference shortcut of `EvaluateFormula` once the row
        number has parsed: a reference out of the grid or to the cell itself
        gives an error value; otherwise the reference is recorded and the
        value copied. */
    method CopyReference(i: int, rowNumber: int, columnNumber: int)
      requires Valid() && 0 <= i < cells.Length
      modifies Repr()
      ensures Valid() && Snapshot() == SingleReference(Cfg(), old(Snapshot()), i, rowNumber - 1, columnNumber)
    {
      var parentCell := GetCell(rowNumber - 1, columnNumber);
      if parentCell != null && parentCell != cells[i] {
        var j := (rowNumber - 1) * columns + columnNumber;
        AddEdge(j, i);
        CopyValue(i, j);
      } else if parentCell == null {
        SetValueOf(i, BadReference);
      } else {
        SetValueOf(i, SelfReference);
      }
    }

    /** One variable of the general path: its cell is recorded as
        referenced and its value returned if it is a number; otherwise the
        error value for a reference out of the grid, to the cell itself, or
        to a cell whose value is not a number. */
    method LookUpVariable(i: int, rowNumber: int, columnNumber: int) returns (value: Option<Num>, error: string)
      requires Valid() && 0 <= i < cells.Length
      modifies Repr()
      ensures Valid()
      ensures LookUp(Cfg(), old(Snapshot()), i, CellIndex(Cfg(), rowNumber - 1, columnNumber)) ==
        if value.Some? then Found(Snapshot(), value.value) else Failed(Snapshot(), error)
    {
      var currCell := GetCell(rowNumber - 1, columnNumber);
      if currCell == null {
        return None, BadReference;
      }
      if currCell == cells[i] {
        return None, SelfReference;
      }
      var j := (rowNumber - 1) * columns + columnNumber;
      AddEdge(j, i);
      var parsed := format.parse(cells[j].value);
      if parsed.None? {
        return None, ErrorEvaluating;
      }
      return parsed, "";
    }

    /** `LookUpVariable` for a variable's name: its first character is the
        column counted from `A`, the rest the row counted from 1. */
    method LookUpName(i: int, variable: string) returns (value: Option<Num>, error: string)
      requires Valid() && 0 <= i < cells.Length && variable != []
      modifies Repr()
      ensures Valid()
      ensures LookUp(Cfg(), old(Snapshot()), i, Reference(Cfg(), variable)) ==
        if value.Some? then Found(Snapshot(), value.value) else Failed(Snapshot(), error)
    {
      var rowNumber := RowNumber(variable[1..]);
      var columnNumber := variable[0] as int - 65;
      value, error := LookUpVariable(i, rowNumber, columnNumber);
    }

    /** One pass of the general path's loop, on the first of the
        remaining `names`: its cell is looked up, and on success the
        variable is set in the tree to the cell's number. */
    method BindVariable(i: int, exp: ExpressionTree, names: seq<string>, ghost cs0: seq<CellState>,
                        ghost env0: map<string, Num>) returns (stopped: Option<string>)
      requires Valid() && 0 <= i < cells.Length && cs0 == Snapshot()
      requires exp.Valid() && env0 == exp.Env() && NonEmptyNames(names) && names != [] && names[0] in exp.variableDic
      modifies Repr(), exp.variableDic.Values
      ensures Valid() && exp.Valid()
      ensures Resolve(Cfg(), cs0, i, names, env0) ==
        if stopped.Some? then (Snapshot(), Stopped(stopped.value))
        else Resolve(Cfg(), Snapshot(), i, names[1..], exp.Env())
    {
      var value, error := LookUpName(i, names[0]);
      ghost var after := Snapshot();
      assert exp.Env() == env0;
      if value.Some? {
        ResolveFound(Cfg(), cs0, i, names, env0, after, value.value);
        SetTreeVariable(exp, names[0], value.value);
        stopped := None;
      } else {
        ResolveFailed(Cfg(), cs0, i, names, env0, after, error);
        stopped := Some(error);
      }
    }

    /** `exp.SetVariable`, which leaves the cells as they are. */
    method SetTreeVariable(exp: ExpressionTree, name: string, n: Num)
      requires Valid() && exp.Valid()
      modifies exp.variableDic.Values
      ensures Valid() && exp.Valid() && Snapshot() == old(Snapshot())
      ensures exp.Env() == if name in exp.variableDic then old(exp.Env())[name := n] else old(exp.Env())
    {
      exp.SetVariable(name, n);
    }

    /** The general path's loop over the variables: each variable's cell
        is recorded as referenced and the variable set in the tree to its
        value, until a lookup fails. */
    method ResolveVariables(i: int, exp: ExpressionTree, variables: seq<string>) returns (stopped: Option<string>)
      requires Valid() && 0 <= i < cells.Length
      requires exp.Valid() && variables == exp.names && NonEmptyNames(variables)
      modifies Repr(), exp.variableDic.Values
      ensures Valid() && exp.Valid()
      ensures Resolve(Cfg(), old(Snapshot()), i, variables, old(exp.Env())) ==
        (Snapshot(), if stopped.Some? then Stopped(stopped.value) else Resolved(exp.Env()))
    {
      ghost var cs := Snapshot();
      ghost var env0 := exp.Env();
      for k := 0 to |variables|
        invariant Valid() && exp.Valid() && variables == exp.names
        invariant Resolve(Cfg(), cs, i, variables, env0) == Resolve(Cfg(), Snapshot(), i, variables[k..], exp.Env())
      {
        assert variables[k..][0] == variables[k] && variables[k..][1..] == variables[k + 1..];
        assert variables[k] in exp.variableDic;
        stopped := BindVariable(i, exp, variables[k..], Snapshot(), exp.Env());
        if stopped.Some? {
          return;
        }
      }
      assert variables[|variables|..] == [];
      stopped := None;
    }

    /** The end of the general path once every variable is set: the cycle
        check, then the tree's value, or the error value when the tree has
        none. */
    method EvaluateResolved(i: int, exp: ExpressionTree, ghost v: Option<Num>)
      requires Valid() && 0 <= i < cells.Length && exp.Valid()
      requires v == EvalTerm(Erase(exp.root), exp.Env())
      modifies Repr()
      ensures Valid()
      ensures Snapshot() == WithValue(old(Snapshot()), i,
        if InCycle(old(Snapshot()), i) then CircularReference
        else if v.Some? then format.render(v.value) else ErrorEvaluating)
    {
      var circular := CheckCircularReference(i, Snapshot());
      var result: string;
      if circular {
        result := CircularReference;
      } else {
        var value := exp.Evaluate();
        result := if value.Some? then format.render(value.value) else ErrorEvaluating;
      }
      SetValueOf(i, result);
    }

    /** The general path of `EvaluateFormula`: the variables are looked up
        and set; the first failure gives the cell its error value. Then the
        cycle check, then the tree's value. */
    method EvaluateGeneral(i: int, exp: ExpressionTree, variables: seq<string>, ghost t: Term)
      requires Valid() && 0 <= i < cells.Length
      requires exp.Valid() && variables == exp.names && NonEmptyNames(variables)
      requires Erase(exp.root) == t && exp.Env() == ZeroEnv(variables)
      modifies Repr(), exp.variableDic.Values
      ensures Valid() && Snapshot() == General(Cfg(), old(Snapshot()), i, t, variables)
    {
      var stopped := ResolveVariables(i, exp, variables);
      if stopped.Some? {
        SetValueOf(i, stopped.value);
      } else {
        EvaluateResolved(i, exp, EvalTerm(t, exp.Env()));
      }
    }

    /** `EvaluateFormula` on cell `i`, whose text starts with `=`: the
        tree of the text after the `=` (a formula that does not parse
        throws); then the single-reference shortcut when the tree has one
        variable and the text after its first two characters is an integer,
        and the general path otherwise. */
    method EvaluateFormula(i: int) returns (failure: Option<Failure>)
      requires Valid() && 0 <= i < cells.Length && cells[i].text != [] && cells[i].text[0] == '='
      modifies Repr()
      ensures Valid() && Run(Snapshot(), failure) == SheetSpec.EvaluateFormula(Cfg(), old(Snapshot()), i)
    {
      var text := cells[i].text[1..];
      var tree := NewExpressionTree(text);
      if tree.Err? {
        return Some(Thrown(tree.error));
      }
      NamesOfFormula(text);
      EvaluateTree(i, tree.value, text, ParseTree(text).value);
      return None;
    }

    /** `EvaluateFormula` once the formula's tree is built: its variables,
        then the shortcut or the general path. */
    method EvaluateTree(i: int, exp: ExpressionTree, ghost formula: string, ghost t: Term)
      requires Valid() && 0 <= i < cells.Length && |cells[i].text| >= 1 && cells[i].text[1..] == formula
      requires exp.Valid() && Erase(exp.root) == t && NonEmptyNames(exp.names)
      requires |exp.names| == 1 ==> formula != []
      requires forall x :: x in exp.variableDic ==> exp.variableDic[x].value == Finite(0.0)
      modifies Repr(), exp.variableDic.Values
      ensures Valid() && Snapshot() == SheetSpec.EvaluateTree(Cfg(), old(Snapshot()), i, formula, t, old(exp.names))
    {
      var variables := exp.GetVariables();
      if |variables| == 1 {
        var columnNumber := cells[i].text[1] as int - 65;
        var rowNumber := ParseInt32(cells[i].text[2..]);
        assert cells[i].text[1] == formula[0] && cells[i].text[2..] == formula[1..];
        if rowNumber.Some? {
          CopyReference(i, rowNumber.value, columnNumber);
          return;
        }
      }
      NewTreeIsZero(exp);
      EvaluateGeneral(i, exp, variables, t);
    }

    // -------------------------------------------------------------------
    // Recalculation

    /** The new value of cell `i` after a text change: the formula's value,
        or the text itself when it is not a formula. */
    method Recompute(i: int) returns (failure: Option<Failure>)
      requires Valid() && 0 <= i < cells.Length
      modifies Repr()
      ensures Valid() && Run(Snapshot(), failure) == SheetSpec.Recompute(Cfg(), old(Snapshot()), i)
    {
      if cells[i].text != [] && cells[i].text[0] == '=' {
        failure := EvaluateFormula(i);
      } else {
        SetValueOf(i, cells[i].text);
        failure := None;
      }
    }

    /** `CellPropertyChanged` for cell `i` and the notification `e`, with
        at most `fuel` nested calls: a text change clears the cell's
        references, gives it its new value and recalculates the cells that
        depend on it; `CircularFound` sets the circular-reference error and
        passes it on; the other notifications change nothing. */
    method CellPropertyChanged(i: int, e: Event, fuel: nat) returns (failure: Option<Failure>)
      requires Valid() && 0 <= i < cells.Length
      modifies Repr()
      ensures Valid() && Run(Snapshot(), failure) == Changed(Cfg(), old(Snapshot()), i, e, fuel)
      decreases fuel, 2
    {
      if e == TextChanged {
        failure := TextChangedStep(i, fuel);
      } else if e == CircularFound {
        failure := CircularFoundStep(i, fuel);
      } else {
        failure := None;
      }
    }

    /** A text change: the cell forgets its references, takes its new
        value, and its dependents are recalculated, or sent `CircularFound`
        when that value is the circular-reference error. */
    method TextChangedStep(i: int, fuel: nat) returns (failure: Option<Failure>)
      requires Valid() && 0 <= i < cells.Length
      modifies Repr()
      ensures Valid() && Run(Snapshot(), failure) == SheetSpec.TextChangedStep(Cfg(), old(Snapshot()), i, fuel)
      decreases fuel, 1
    {
      if fuel == 0 {
        return Some(OutOfFuel);
      }
      ghost var cs := Snapshot();
      ClearDepended(i);
      failure := Recompute(i);
      var inner := fuel - 1;
      ghost var r1 := Run(Snapshot(), failure);
      if failure.Some? {
        AfterRecomputeFails(Cfg(), i, r1, inner);
        TextChangedRecomputes(Cfg(), cs, i, fuel);
        AfterRecomputeFuel(Cfg(), i, r1, fuel, inner);
        return;
      }
      ghost var cs2 := Snapshot();
      var next := if cells[i].value == CircularReference then CircularFound else TextChanged;
      assert cs2[i].value == cells[i].value;
      failure := NotifyDependents(i, next, false, inner, cs2);
      AfterRecomputeGoesOn(Cfg(), i, cs2, next, inner, Run(Snapshot(), failure));
      TextChangedRecomputes(Cfg(), cs, i, fuel);
      AfterRecomputeFuel(Cfg(), i, r1, fuel, inner);
    }

    /** `CircularFound`: the cell shows the circular-reference error, which
        is passed on to the dependents that do not show it yet. */
    method CircularFoundStep(i: int, fuel: nat) returns (failure: Option<Failure>)
      requires Valid() && 0 <= i < cells.Length
      modifies Repr()
      ensures Valid() && Run(Snapshot(), failure) == SheetSpec.CircularFoundStep(Cfg(), old(Snapshot()), i, fuel)
      decreases fuel, 0
    {
      if fuel == 0 {
        return Some(OutOfFuel);
      }
      ghost var cs := Snapshot();
      SetValueOf(i, CircularReference);
      ghost var cs1 := Snapshot();
      var inner := fuel - 1;
      failure := NotifyDependents(i, CircularFound, true, inner, cs1);
      ChangedCircular(Cfg(), cs, i, fuel, cs1, inner, Run(Snapshot(), failure));
    }

    /** The loop over a snapshot of cell `i`'s dependents: each one is sent
        `e`, except, with `skipCircular`, one that already shows the
        circular-reference error; the first failure ends the loop. */
    method NotifyDependents(i: int, e: Event, skipCircular: bool, fuel: nat, ghost cs0: seq<CellState>)
      returns (failure: Option<Failure>)
      requires Valid() && 0 <= i < cells.Length && cs0 == Snapshot()
      modifies Repr()
      ensures Valid() && Run(Snapshot(), failure) == Dependents(Cfg(), cs0, i, e, skipCircular, fuel)
      decreases fuel, 4
    {
      var ds := Ascending(cells[i].dependOnMe, cells.Length);
      assert cs0[i].dependOnMe == cells[i].dependOnMe;
      assert ds[0..] == ds;
      for n := 0 to |ds|
        invariant Valid()
        invariant Dependents(Cfg(), cs0, i, e, skipCircular, fuel) ==
          ChangedAll(Cfg(), Snapshot(), ds[n..], e, skipCircular, fuel)
      {
        ghost var before := Snapshot();
        if skipCircular && cells[ds[n]].value == CircularReference {
          ChangedAllSkips(Cfg(), before, ds, n, e, fuel);
        } else {
          failure := CellPropertyChanged(ds[n], e, fuel);
          ChangedAllStep(Cfg(), before, ds, n, e, skipCircular, fuel, Run(Snapshot(), failure));
          if failure.Some? {
            return;
          }
        }
      }
      assert ds[|ds|..] == [];
      failure := None;
    }

    // -------------------------------------------------------------------
    // Edits, commands and the two stacks

    /** `cell.Text = v` on cell `i`: the setter writes and notifies only
        when the text differs, and the notification recalculates. */
    method SetCellText(i: int, v: string, fuel: nat) returns (failure: Option<Failure>)
      requires Valid() && 0 <= i < cells.Length
      modifies Repr()
      ensures Valid() && Run(Snapshot(), failure) == SetText(Cfg(), old(Snapshot()), i, v, fuel)
    {
      ghost var cs := Snapshot();
      WithTextConsistent(cs, i, v);
      var changed := cells[i].SetText(v);
      if changed {
        assert Snapshot() == WithText(cs, i, v);
        failure := CellPropertyChanged(i, TextChanged, fuel);
      } else {
        assert Snapshot() == cs;
        failure := None;
      }
    }

    /** `cell.BGColor = c` on cell `i`; its notification only reaches the
        user interface. */
    method SetCellColor(i: int, c: Color)
      requires Valid() && 0 <= i < cells.Length
      modifies Repr()
      ensures Valid() && Snapshot() == WithColor(old(Snapshot()), i, c)
    {
      WithColorConsistent(Snapshot(), i, c);
      var _ := cells[i].SetBGColor(c);
      assert Snapshot() == WithColor(old(Snapshot()), i, c);
    }

    /** `ColorCommand.Execute`: the k-th listed cell gets the k-th old
        colour; a list longer than the colours ends in an index error. */
    method Recolor(list: seq<int>, colors: seq<Color>) returns (failure: Option<Failure>)
      requires Valid() && forall k :: 0 <= k < |list| ==> 0 <= list[k] < cells.Length
      modifies Repr()
      ensures Valid() && Run(Snapshot(), failure) == SheetSpec.Recolor(old(Snapshot()), list, colors)
    {
      ghost var cs := Snapshot();
      assert list[0..] == list && colors[0..] == colors;
      for k := 0 to |list|
        invariant Valid() && k <= |colors|
        invariant SheetSpec.Recolor(cs, list, colors) == SheetSpec.Recolor(Snapshot(), list[k..], colors[k..])
      {
        if k >= |colors| {
          return Some(ColorIndexOutOfRange);
        }
        assert list[k..][1..] == list[k + 1..] && colors[k..][1..] == colors[k + 1..];
        SetCellColor(list[k], colors[k]);
      }
      assert list[|list|..] == [];
      failure := None;
    }

    /** `ColorCommand.UnExecute`: every listed cell gets the new colour. */
    method Paint(list: seq<int>, color: Color)
      requires Valid() && forall k :: 0 <= k < |list| ==> 0 <= list[k] < cells.Length
      modifies Repr()
      ensures Valid() && Snapshot() == SheetSpec.Paint(old(Snapshot()), list, color)
    {
      ghost var cs := Snapshot();
      assert list[0..] == list;
      for k := 0 to |list|
        invariant Valid()
        invariant SheetSpec.Paint(cs, list, color) == SheetSpec.Paint(Snapshot(), list[k..], color)
      {
        assert list[k..][1..] == list[k + 1..];
        SetCellColor(list[k], color);
      }
      assert list[|list|..] == [];
    }

    /** `Command.Execute`, which undo runs. */
    method Execute(c: Command, fuel: nat) returns (failure: Option<Failure>)
      requires Valid() && CommandOk(Cfg(), c)
      modifies Repr()
      ensures Valid() && Run(Snapshot(), failure) == SheetSpec.Execute(Cfg(), old(Snapshot()), c, fuel)
    {
      match c
      case TextCommand(_, oldText, cell) =>
        failure := SetCellText(cell, oldText, fuel);
      case ColorCommand(_, oldColor, list) =>
        failure := Recolor(list, oldColor);
    }

    /** `Command.UnExecute`, which redo runs. */
    method UnExecute(c: Command, fuel: nat) returns (failure: Option<Failure>)
      requires Valid() && CommandOk(Cfg(), c)
      modifies Repr()
      ensures Valid() && Run(Snapshot(), failure) == SheetSpec.UnExecute(Cfg(), old(Snapshot()), c, fuel)
    {
      match c
      case TextCommand(newText, _, cell) =>
        failure := SetCellText(cell, newText, fuel);
      case ColorCommand(newColor, _, list) =>
        Paint(list, newColor);
        failure := None;
    }

    /** `AddUndo`: the command goes on the undo stack and the redo stack
        is emptied. */
    method AddUndo(c: Command)
      requires Valid() && CommandOk(Cfg(), c)
      modifies this
      ensures Valid() && Whole() == SheetSpec.AddUndo(old(Whole()), c)
    {
      undo := undo + [c];
      redo := [];
    }

    /** `Undo`: the top undo command moves to the redo stack and is
        executed; an empty undo stack changes nothing. */
    method Undo(fuel: nat) returns (failure: Option<Failure>)
      requires Valid()
      modifies this, Repr()
      ensures Valid() && Outcome(Whole(), failure) == SheetSpec.Undo(Cfg(), old(Whole()), fuel)
    {
      if undo == [] {
        return None;
      }
      var c := undo[|undo| - 1];
      undo := undo[..|undo| - 1];
      redo := redo + [c];
      failure := Execute(c, fuel);
    }

    /** `Redo`: the top redo command moves back to the undo stack and is
        executed forward; an empty redo stack changes nothing. */
    method Redo(fuel: nat) returns (failure: Option<Failure>)
      requires Valid()
      modifies this, Repr()
      ensures Valid() && Outcome(Whole(), failure) == SheetSpec.Redo(Cfg(), old(Whole()), fuel)
    {
      if redo == [] {
        return None;
      }
      var c := redo[|redo| - 1];
      redo := redo[..|redo| - 1];
      undo := undo + [c];
      failure := UnExecute(c, fuel);
    }

    /** One pass of `ClearSpreadsheet`'s loops, on the cell at position
        `k`: its text is emptied, then, unless that threw, its colour set
        to 0. */
    method ClearCell(k: int, fuel: nat) returns (failure: Option<Failure>)
      requires Valid() && 0 <= k < cells.Length
      modifies Repr()
      ensures Valid()
      ensures failure.Some? ==> ClearFrom(Cfg(), old(Snapshot()), k, fuel) == Run(Snapshot(), failure)
      ensures failure.None? ==> ClearFrom(Cfg(), old(Snapshot()), k, fuel) == ClearFrom(Cfg(), Snapshot(), k + 1, fuel)
    {
      ghost var before := Snapshot();
      failure := SetCellText(k, "", fuel);
      if failure.Some? {
        ClearFromFails(Cfg(), before, k, fuel, Run(Snapshot(), failure));
        return;
      }
      ghost var after := Snapshot();
      SetCellColor(k, 0);
      ClearFromGoesOn(Cfg(), before, k, fuel, after);
    }

    /** `ClearSpreadsheet`'s inner loop, over the `columns` cells from
        position `start` on. */
    method ClearSpan(start: nat, fuel: nat) returns (failure: Option<Failure>)
      requires Valid() && start + columns <= cells.Length
      modifies Repr()
      ensures Valid()
      ensures failure.Some? ==> ClearFrom(Cfg(), old(Snapshot()), start, fuel) == Run(Snapshot(), failure)
      ensures failure.None? ==> ClearFrom(Cfg(), old(Snapshot()), start, fuel) == ClearFrom(Cfg(), Snapshot(), start + columns, fuel)
    {
      ghost var goal := ClearFrom(Cfg(), Snapshot(), start, fuel);
      for j := 0 to columns
        invariant Valid()
        invariant goal == ClearFrom(Cfg(), Snapshot(), start + j, fuel)
      {
        failure := ClearCell(start + j, fuel);
        if failure.Some? {
          return;
        }
      }
      failure := None;
    }

    /** The inner loop on row `i`. */
    method ClearRow(i: nat, fuel: nat) returns (failure: Option<Failure>)
      requires Valid() && i < rows
      modifies Repr()
      ensures Valid() && 0 <= Index(Cfg(), i, 0) && Index(Cfg(), i + 1, 0) <= cells.Length
      ensures failure.Some? ==> ClearFrom(Cfg(), old(Snapshot()), Index(Cfg(), i, 0), fuel) == Run(Snapshot(), failure)
      ensures failure.None? ==> ClearFrom(Cfg(), old(Snapshot()), Index(Cfg(), i, 0), fuel) == ClearFrom(Cfg(), Snapshot(), Index(Cfg(), i + 1, 0), fuel)
    {
      NextRow(Cfg(), i);
      failure := ClearSpan(i * columns, fuel);
    }

    /** `ClearSpreadsheet`'s two loops: row by row, each cell's text is
        emptied (which recalculates what depends on it) and its colour set
        to 0. */
    method ClearCells(fuel: nat) returns (failure: Option<Failure>)
      requires Valid()
      modifies Repr()
      ensures Valid() && Run(Snapshot(), failure) == ClearFrom(Cfg(), old(Snapshot()), 0, fuel)
    {
      ghost var goal := ClearFrom(Cfg(), Snapshot(), 0, fuel);
      for i := 0 to rows
        invariant Valid() && 0 <= Index(Cfg(), i, 0) <= cells.Length
        invariant goal == ClearFrom(Cfg(), Snapshot(), Index(Cfg(), i, 0), fuel)
      {
        failure := ClearRow(i, fuel);
        if failure.Some? {
          return;
        }
      }
      ClearFromEnd(Cfg(), Snapshot(), fuel);
      failure := None;
    }

    /** `ClearSpreadsheet`: every cell emptied and set to colour 0, then
        both stacks emptied; a failure on the way leaves the stacks alone. */
    method ClearSpreadsheet(fuel: nat) returns (failure: Option<Failure>)
      requires Valid()
      modifies this, Repr()
      ensures Valid() && Outcome(Whole(), failure) == ClearSheet(Cfg(), old(Whole()), fuel)
    {
      failure := ClearCells(fuel);
      if failure.None? {
        undo := [];
        redo := [];
      }
    }
  }

  /** A tree whose variables all hold 0 gives every name of the formula the
      value 0. */
  lemma NewTreeIsZero(exp: ExpressionTree)
    requires exp.Valid()
    requires forall x :: x in exp.variableDic ==> exp.variableDic[x].value == Finite(0.0)
    ensures exp.Env() == ZeroEnv(exp.names)
  {
  }
}
