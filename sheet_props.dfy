/** What the sheet's operations promise beyond their step-by-step
    definitions: a recalculation writes only values and references, never a
    text or a colour; a text edit changes exactly one text; undo of an edit
    or of a colour change restores what the user typed and painted, and
    redo brings the change back; clearing the sheet empties every cell. */
module SheetProps {
  import opened Wrappers
  import opened Text
  import opened ShuntingYard
  import opened Nodes
  import opened ExpressionTrees
  import opened Cells
  import opened SheetSpec
  import opened SheetGraph

  /** Same texts and colours, cell by cell: what the user typed and painted
      is the same in both. */
  predicate SameInputs(a: seq<CellState>, b: seq<CellState>) {
    |a| == |b| && forall k :: 0 <= k < |a| ==> a[k].text == b[k].text && a[k].bgColor == b[k].bgColor
  }

  /** What a recalculation may do to the cells: change values and
      references, with the two back-reference sets kept in agreement. */
  predicate OnlyDerived(a: seq<CellState>, b: seq<CellState>) {
    SameInputs(a, b) && (Consistent(a) ==> Consistent(b))
  }

  lemma OnlyDerivedTrans(a: seq<CellState>, b: seq<CellState>, c: seq<CellState>)
    requires OnlyDerived(a, b) && OnlyDerived(b, c)
    ensures OnlyDerived(a, c)
  {
  }

  // ---------------------------------------------------------------------
  // Evaluation writes values and references only, each reference on both
  // sides

  lemma WithEdgeKeeps(cs: seq<CellState>, j: int, i: int)
    requires 0 <= i < |cs| && 0 <= j < |cs|
    ensures OnlyDerived(cs, WithEdge(cs, j, i))
  {
    if Consistent(cs) {
      WithEdgeConsistent(cs, j, i);
    }
  }

  lemma WithValueKeeps(cs: seq<CellState>, i: int, v: string)
    requires 0 <= i < |cs|
    ensures OnlyDerived(cs, WithValue(cs, i, v))
  {
    if Consistent(cs) {
      WithValueConsistent(cs, i, v);
    }
  }

  lemma ClearedKeeps(cs: seq<CellState>, i: int)
    requires 0 <= i < |cs|
    ensures OnlyDerived(cs, Cleared(cs, i))
  {
    if Consistent(cs) {
      ClearedConsistent(cs, i);
    }
  }

  lemma LookUpKeeps(cfg: Config, cs: seq<CellState>, i: int, ref: Option<int>)
    requires Wf(cfg, cs) && 0 <= i < |cs| && (ref.Some? ==> 0 <= ref.value < |cs|)
    ensures OnlyDerived(cs, LookUp(cfg, cs, i, ref).cells)
  {
    if ref.Some? && ref.value != i {
      WithEdgeKeeps(cs, ref.value, i);
    }
  }

  /** The general path's loop over the variables adds references, and
      nothing else. */
  lemma {:induction false} ResolveKeeps(cfg: Config, cs: seq<CellState>, i: int, names: seq<string>, env: map<string, Num>)
    requires Wf(cfg, cs) && 0 <= i < |cs| && NonEmptyNames(names)
    ensures OnlyDerived(cs, Resolve(cfg, cs, i, names, env).0)
    decreases |names|
  {
    if names != [] {
      var ref := Reference(cfg, names[0]);
      LookUpKeeps(cfg, cs, i, ref);
      match LookUp(cfg, cs, i, ref)
      case Failed(_, _) =>
      case Found(cs1, n) =>
        ResolveKeeps(cfg, cs1, i, names[1..], env[names[0] := n]);
    }
  }

  lemma SingleReferenceKeeps(cfg: Config, cs: seq<CellState>, i: int, row: int, column: int)
    requires Wf(cfg, cs) && 0 <= i < |cs|
    ensures OnlyDerived(cs, SingleReference(cfg, cs, i, row, column))
  {
    match CellIndex(cfg, row, column)
    case None =>
      WithValueKeeps(cs, i, BadReference);
    case Some(j) =>
      if j == i {
        WithValueKeeps(cs, i, SelfReference);
      } else {
        var cs1 := WithEdge(cs, j, i);
        WithEdgeKeeps(cs, j, i);
        WithValueKeeps(cs1, i, Copied(cfg, cs1, i, j));
      }
  }

  lemma GeneralKeeps(cfg: Config, cs: seq<CellState>, i: int, t: Term, names: seq<string>)
    requires Wf(cfg, cs) && 0 <= i < |cs| && NonEmptyNames(names)
    ensures OnlyDerived(cs, General(cfg, cs, i, t, names))
  {
    ResolveKeeps(cfg, cs, i, names, ZeroEnv(names));
    var cs1 := Resolve(cfg, cs, i, names, ZeroEnv(names)).0;
    forall v | true ensures OnlyDerived(cs1, WithValue(cs1, i, v)) {
      WithValueKeeps(cs1, i, v);
    }
  }

  lemma EvaluateTreeKeeps(cfg: Config, cs: seq<CellState>, i: int, formula: string, t: Term, names: seq<string>)
    requires Wf(cfg, cs) && 0 <= i < |cs| && NonEmptyNames(names) && (|names| == 1 ==> formula != [])
    ensures OnlyDerived(cs, EvaluateTree(cfg, cs, i, formula, t, names))
  {
    if |names| == 1 && ParseInt32(formula[1..]).Some? {
      SingleReferenceKeeps(cfg, cs, i, ParseInt32(formula[1..]).value - 1, formula[0] as int - 65);
    } else {
      GeneralKeeps(cfg, cs, i, t, names);
    }
  }

  /** Computing a cell's value changes no text and no colour. */
  lemma RecomputeKeeps(cfg: Config, cs: seq<CellState>, i: int)
    requires Wf(cfg, cs) && 0 <= i < |cs|
    ensures OnlyDerived(cs, Recompute(cfg, cs, i).cells)
  {
    if cs[i].text != [] && cs[i].text[0] == '=' {
      var formula := cs[i].text[1..];
      if ParseTree(formula).Ok? {
        NamesOfFormula(formula);
        EvaluateTreeKeeps(cfg, cs, i, formula, ParseTree(formula).value, VariablesOf(Postfix(formula).value));
      }
    } else {
      WithValueKeeps(cs, i, cs[i].text);
    }
  }

  /** A text change's first two steps: the cell's references cleared, its
      value recomputed. */
  lemma ClearedRecomputeKeeps(cfg: Config, cs: seq<CellState>, i: int)
    requires Wf(cfg, cs) && 0 <= i < |cs|
    ensures Wf(cfg, Cleared(cs, i)) && OnlyDerived(cs, Recompute(cfg, Cleared(cs, i), i).cells)
  {
    ClearedKeeps(cs, i);
    ClearedWf(cfg, cs, i);
    RecomputeKeeps(cfg, Cleared(cs, i), i);
    OnlyDerivedTrans(cs, Cleared(cs, i), Recompute(cfg, Cleared(cs, i), i).cells);
  }

  // ---------------------------------------------------------------------
  // Recalculation writes values and references only: one lemma per
  // function of the recursion, with the same termination measure.

  lemma {:induction false} ChangedKeeps(cfg: Config, cs: seq<CellState>, i: int, e: Event, fuel: nat)
    requires Wf(cfg, cs) && 0 <= i < |cs|
    ensures OnlyDerived(cs, Changed(cfg, cs, i, e, fuel).cells)
    decreases fuel, 2
  {
    match e
    case TextChanged => TextChangedKeeps(cfg, cs, i, fuel);
    case CircularFound => CircularFoundKeeps(cfg, cs, i, fuel);
    case _ =>
  }

  lemma {:induction false} TextChangedKeeps(cfg: Config, cs: seq<CellState>, i: int, fuel: nat)
    requires Wf(cfg, cs) && 0 <= i < |cs|
    ensures OnlyDerived(cs, TextChangedStep(cfg, cs, i, fuel).cells)
    decreases fuel, 1
  {
    if fuel > 0 {
      RecomputeThenKeeps(cfg, cs, i, fuel);
    } else {
      TextChangedOutOfFuel(cfg, cs, i);
    }
  }

  lemma {:induction false} RecomputeThenKeeps(cfg: Config, cs: seq<CellState>, i: int, fuel: nat)
    requires Wf(cfg, cs) && 0 <= i < |cs| && fuel > 0
    ensures OnlyDerived(cs, TextChangedStep(cfg, cs, i, fuel).cells)
    decreases fuel, 0
  {
    ClearedRecomputeThenKeeps(cfg, cs, i, fuel - 1);
  }

  lemma {:induction false} ClearedRecomputeThenKeeps(cfg: Config, cs: seq<CellState>, i: int, fuel: nat)
    requires Wf(cfg, cs) && 0 <= i < |cs|
    ensures OnlyDerived(cs, AfterRecompute(cfg, i, Recompute(cfg, Cleared(cs, i), i), fuel).cells)
    decreases fuel, 8
  {
    ClearedRecomputeKeeps(cfg, cs, i);
    AfterRecomputeKeepsFrom(cfg, cs, i, Recompute(cfg, Cleared(cs, i), i), fuel);
  }

  lemma {:induction false} AfterRecomputeKeepsFrom(cfg: Config, cs: seq<CellState>, i: int, r1: Run, fuel: nat)
    requires Wf(cfg, r1.cells) && 0 <= i < |r1.cells| && OnlyDerived(cs, r1.cells)
    ensures OnlyDerived(cs, AfterRecompute(cfg, i, r1, fuel).cells)
    decreases fuel, 7
  {
    AfterRecomputeKeeps(cfg, i, r1, fuel);
    OnlyDerivedTrans(cs, r1.cells, AfterRecompute(cfg, i, r1, fuel).cells);
  }

  lemma {:induction false} AfterRecomputeKeeps(cfg: Config, i: int, r1: Run, fuel: nat)
    requires Wf(cfg, r1.cells) && 0 <= i < |r1.cells|
    ensures OnlyDerived(r1.cells, AfterRecompute(cfg, i, r1, fuel).cells)
    decreases fuel, 6
  {
    if r1.failure.None? {
      PropagateKeeps(cfg, r1.cells, i, fuel);
    }
  }

  lemma {:induction false} PropagateKeeps(cfg: Config, cs: seq<CellState>, i: int, fuel: nat)
    requires Wf(cfg, cs) && 0 <= i < |cs|
    ensures OnlyDerived(cs, Propagate(cfg, cs, i, fuel).cells)
    decreases fuel, 5
  {
    var next := if cs[i].value == CircularReference then CircularFound else TextChanged;
    DependentsKeeps(cfg, cs, i, next, false, fuel);
  }

  lemma {:induction false} CircularFoundKeeps(cfg: Config, cs: seq<CellState>, i: int, fuel: nat)
    requires Wf(cfg, cs) && 0 <= i < |cs|
    ensures OnlyDerived(cs, CircularFoundStep(cfg, cs, i, fuel).cells)
    decreases fuel, 0
  {
    if fuel > 0 {
      var cs1 := WithValue(cs, i, CircularReference);
      WithValueKeeps(cs, i, CircularReference);
      DependentsKeeps(cfg, cs1, i, CircularFound, true, fuel - 1);
    }
  }

  lemma {:induction false} DependentsKeeps(cfg: Config, cs: seq<CellState>, i: int, e: Event, skipCircular: bool, fuel: nat)
    requires Wf(cfg, cs) && 0 <= i < |cs|
    ensures OnlyDerived(cs, Dependents(cfg, cs, i, e, skipCircular, fuel).cells)
    decreases fuel, 4
  {
    ChangedAllKeeps(cfg, cs, Ascending(cs[i].dependOnMe, |cs|), e, skipCircular, fuel);
  }

  lemma {:induction false} ChangedAllKeeps(cfg: Config, cs: seq<CellState>, ds: seq<int>, e: Event, skipCircular: bool, fuel: nat)
    requires Wf(cfg, cs) && forall k :: 0 <= k < |ds| ==> 0 <= ds[k] < |cs|
    ensures OnlyDerived(cs, ChangedAll(cfg, cs, ds, e, skipCircular, fuel).cells)
    decreases fuel, 3, |ds|
  {
    if ds == [] {
    } else if skipCircular && cs[ds[0]].value == CircularReference {
      ChangedAllKeeps(cfg, cs, ds[1..], e, skipCircular, fuel);
    } else {
      var r := Changed(cfg, cs, ds[0], e, fuel);
      ChangedKeeps(cfg, cs, ds[0], e, fuel);
      if r.failure.None? {
        ChangedAllKeeps(cfg, r.cells, ds[1..], e, skipCircular, fuel);
        OnlyDerivedTrans(cs, r.cells, ChangedAll(cfg, r.cells, ds[1..], e, skipCircular, fuel).cells);
      }
    }
  }

  /** Setting a cell's text, with the recalculation it starts: that cell
      gets the new text, and every other text and every colour is as
      before, whether or not the recalculation fails. */
  lemma SetTextWrites(cfg: Config, cs: seq<CellState>, i: int, v: string, fuel: nat)
    requires Wf(cfg, cs) && 0 <= i < |cs|
    ensures OnlyDerived(WithText(cs, i, v), SetText(cfg, cs, i, v, fuel).cells)
    ensures Consistent(cs) ==> Consistent(SetText(cfg, cs, i, v, fuel).cells)
  {
    if Consistent(cs) {
      WithTextConsistent(cs, i, v);
    }
    if cs[i].text != v {
      ChangedKeeps(cfg, WithText(cs, i, v), i, TextChanged, fuel);
    } else {
      assert WithText(cs, i, v) == cs;
    }
  }

  // ---------------------------------------------------------------------
  // Undo and redo

  /** An edit as the grid makes it: the command goes on the undo stack, then
      the cell gets the new text. */
  ghost function Edit(cfg: Config, s: Sheet, i: int, v: string, fuel: nat): (r: Outcome)
    requires SheetOk(cfg, s) && 0 <= i < |s.cells|
    ensures SheetOk(cfg, r.sheet)
  {
    var run := SetText(cfg, s.cells, i, v, fuel);
    Outcome(AddUndo(s, TextCommand(v, s.cells[i].text, i)).(cells := run.cells), run.failure)
  }

  /** Undo right after an edit gives every cell back the text and colour it
      had before the edit, and leaves the undo stack as it was before the
      edit and the edit alone on the redo stack. */
  lemma EditUndo(cfg: Config, s: Sheet, i: int, v: string, fuel: nat, fuel2: nat)
    requires SheetOk(cfg, s) && 0 <= i < |s.cells|
    ensures var s1 := Edit(cfg, s, i, v, fuel).sheet;
      var u := Undo(cfg, s1, fuel2).sheet;
      SameInputs(s.cells, u.cells) && u.undo == s.undo && u.redo == [TextCommand(v, s.cells[i].text, i)]
  {
    var s1 := Edit(cfg, s, i, v, fuel).sheet;
    SetTextWrites(cfg, s.cells, i, v, fuel);
    assert s1.undo[|s1.undo| - 1] == TextCommand(v, s.cells[i].text, i);
    assert s1.undo[..|s1.undo| - 1] == s.undo;
    SetTextWrites(cfg, s1.cells, i, s.cells[i].text, fuel2);
  }

  /** Redo right after that undo types the edit's text into the cell
      again: the texts and colours are those right after the edit, and
      the stacks are back as they were after the edit. */
  lemma EditUndoRedo(cfg: Config, s: Sheet, i: int, v: string, fuel: nat, fuel2: nat, fuel3: nat)
    requires SheetOk(cfg, s) && 0 <= i < |s.cells|
    ensures var s1 := Edit(cfg, s, i, v, fuel).sheet;
      var r := Redo(cfg, Undo(cfg, s1, fuel2).sheet, fuel3).sheet;
      SameInputs(s1.cells, r.cells) && r.undo == s1.undo && r.redo == s1.redo
  {
    var s1 := Edit(cfg, s, i, v, fuel).sheet;
    var u := Undo(cfg, s1, fuel2).sheet;
    EditUndo(cfg, s, i, v, fuel, fuel2);
    SetTextWrites(cfg, s.cells, i, v, fuel);
    SetTextWrites(cfg, u.cells, i, v, fuel3);
  }

  /** Outside the listed cells, painting changes nothing. */
  lemma {:induction false} PaintOutside(cs: seq<CellState>, list: seq<int>, color: Color, k: int)
    requires forall m :: 0 <= m < |list| ==> 0 <= list[m] < |cs|
    requires 0 <= k < |cs| && k !in list
    ensures Paint(cs, list, color)[k] == cs[k]
    decreases |list|
  {
    if list != [] {
      assert k != list[0];
      assert forall m :: 0 <= m < |list[1..]| ==> list[1..][m] == list[m + 1];
      PaintOutside(WithColor(cs, list[0], color), list[1..], color, k);
    }
  }

  /** Giving each listed cell back the colour it had in `cs0` restores
      `cs0`, when the cells differ from `cs0` at most in the colours of
      listed cells. */
  lemma {:induction false} RecolorRestores(cs0: seq<CellState>, cs: seq<CellState>, list: seq<int>, olds: seq<Color>)
    requires |cs| == |cs0| && forall m :: 0 <= m < |list| ==> 0 <= list[m] < |cs|
    requires |olds| == |list| && forall m :: 0 <= m < |list| ==> olds[m] == cs0[list[m]].bgColor
    requires forall k :: 0 <= k < |cs| ==> cs[k] == cs0[k].(bgColor := cs[k].bgColor)
    requires forall k :: 0 <= k < |cs| && k !in list ==> cs[k] == cs0[k]
    ensures Recolor(cs, list, olds) == Run(cs0, None)
    decreases |list|
  {
    if list == [] {
      assert cs == cs0;
    } else {
      var cs1 := WithColor(cs, list[0], olds[0]);
      forall k | 0 <= k < |cs1| && k !in list[1..] ensures cs1[k] == cs0[k] {
        if k != list[0] {
          assert k !in list;
        }
      }
      RecolorRestores(cs0, cs1, list[1..], olds[1..]);
    }
  }

  /** The colour command of the grid: the listed cells are painted, and
      each one's colour before is recorded, position by position. */
  predicate Recorded(cs0: seq<CellState>, c: Command)
    requires c.ColorCommand?
  {
    (forall m :: 0 <= m < |c.cellList| ==> 0 <= c.cellList[m] < |cs0|)
    && |c.oldColor| == |c.cellList|
    && forall m :: 0 <= m < |c.cellList| ==> c.oldColor[m] == cs0[c.cellList[m]].bgColor
  }

  /** Undo of a colour change, on the cells as the change left them, gives
      the cells back exactly as they were before the change; redo then
      brings the whole sheet back, stacks included. */
  lemma ColorUndoRedo(cfg: Config, s: Sheet, cs0: seq<CellState>, fuel: nat, fuel2: nat)
    requires SheetOk(cfg, s) && s.undo != [] && s.undo[|s.undo| - 1].ColorCommand?
    requires Recorded(cs0, s.undo[|s.undo| - 1])
    requires s.cells == Paint(cs0, s.undo[|s.undo| - 1].cellList, s.undo[|s.undo| - 1].newColor)
    ensures var u := Undo(cfg, s, fuel);
      u == Outcome(Sheet(cs0, s.undo[..|s.undo| - 1], s.redo + [s.undo[|s.undo| - 1]]), None)
      && Redo(cfg, u.sheet, fuel2) == Outcome(s, None)
  {
    var c := s.undo[|s.undo| - 1];
    forall k | 0 <= k < |cs0| && k !in c.cellList ensures s.cells[k] == cs0[k] {
      PaintOutside(cs0, c.cellList, c.newColor, k);
    }
    RecolorRestores(cs0, s.cells, c.cellList, c.oldColor);
    var u := Undo(cfg, s, fuel);
    assert u.sheet.redo[|u.sheet.redo| - 1] == c;
    assert u.sheet.redo[..|u.sheet.redo| - 1] == s.redo;
    assert u.sheet.undo + [c] == s.undo;
  }

  // ---------------------------------------------------------------------
  // Clearing the sheet

  /** The clearing loop from position `k` on, when nothing fails: the
      cells before `k` keep their texts and colours, and every cell from `k`
      on is left with an empty text and colour 0. */
  lemma {:induction false} ClearFromEmpties(cfg: Config, cs: seq<CellState>, k: nat, fuel: nat)
    requires Wf(cfg, cs) && k <= |cs|
    ensures var r := ClearFrom(cfg, cs, k, fuel);
      r.failure.None? ==>
        |r.cells| == |cs|
        && (forall j :: 0 <= j < k ==> r.cells[j].text == cs[j].text && r.cells[j].bgColor == cs[j].bgColor)
        && (forall j :: k <= j < |cs| ==> r.cells[j].text == [] && r.cells[j].bgColor == 0)
    decreases |cs| - k
  {
    if k < |cs| {
      var r1 := SetText(cfg, cs, k, "", fuel);
      SetTextWrites(cfg, cs, k, "", fuel);
      if r1.failure.None? {
        ClearFromEmpties(cfg, WithColor(r1.cells, k, 0), k + 1, fuel);
      }
    }
  }

  /** A clear that does not fail leaves every cell with an empty text and
      colour 0, and both stacks empty. */
  lemma ClearSheetEmpties(cfg: Config, s: Sheet, fuel: nat)
    requires SheetOk(cfg, s)
    ensures var r := ClearSheet(cfg, s, fuel);
      r.failure.None? ==>
        r.sheet.undo == [] && r.sheet.redo == [] && |r.sheet.cells| == |s.cells|
        && forall j :: 0 <= j < |s.cells| ==> r.sheet.cells[j].text == [] && r.sheet.cells[j].bgColor == 0
  {
    ClearFromEmpties(cfg, s.cells, 0, fuel);
  }

  // ---------------------------------------------------------------------
  // The single-reference shortcut

  /** The shortcut takes any formula with one variable whose text after its
      first character parses as an integer, sign included: `=B+1` is read
      as a reference to the cell at row 1, column B, not as B plus one. */
  lemma SignedRowTakesShortcut(cfg: Config, cs: seq<CellState>, i: int, t: Term)
    requires Wf(cfg, cs) && 0 <= i < |cs|
    ensures EvaluateTree(cfg, cs, i, "B+1", t, ["B"]) == SingleReference(cfg, cs, i, 0, 1)
  {
    PlusOneParses();
    assert "B+1"[1..] == "+1";
  }

  /** `int.TryParse` accepts a leading plus sign. */
  lemma PlusOneParses()
    ensures ParseInt32("+1") == Some(1)
  {
    assert SkipWhite("+1", 0) == 0;
    assert SkipWhiteBack("+1", 0, 2) == 2;
    assert Trim("+1") == "+1";
    assert "+1"[1..] == "1";
    assert DigitsValue("1") == 1;
  }
}
