/** The cell names of the sheet's save file: `SaveFile` names the cell at
    (row, column) by the letter with code 65 + row followed by the 1-based
    column number, and `LoadFile` reads a name back the same way. Formulas
    use the other convention (the letter is the column, the number the
    row), so a saved name written into a formula refers to the transposed
    cell. */
module CellNames {
  import opened Wrappers
  import opened Text
  import opened Nodes
  import opened Cells
  import opened SheetSpec

  /** The `name` attribute `SaveFile` writes for the cell at (row, column). */
  function SaveName(row: nat, column: nat): (name: string)
    requires row + 65 < 0xD800
    ensures |name| >= 2 && IsLetter(name[0]) == (row < 26 || 32 <= row < 58)
    ensures AllDigits(name[1..]) && DigitsValue(name[1..]) == column + 1
  {
    var digits := NatToString(column + 1);
    DigitsOfNatToString(column + 1);
    assert ([(row + 65) as char] + digits)[1..] == digits;
    [(row + 65) as char] + digits
  }

  /** The (row, column) `LoadFile` reads from a `name` attribute, or `None`
      when reading it throws: an empty name, or a rest that `int.Parse`
      rejects. The position may still lie outside the sheet, where
      `GetCell` gives null and the cell is skipped. */
  function LoadName(name: string): (r: Option<(int, int)>)
    ensures r.Some? <==> name != [] && ParseInt32(name[1..]).Some?
    ensures r.Some? ==> r.value.0 == name[0] as int - 65
  {
    if name == [] then None
    else match ParseInt32(name[1..])
      case None => None
      case Some(n) => Some((name[0] as int - 65, n - 1))
  }

  /** A saved name loads back to the cell it was saved from, for every
      column whose 1-based number fits an `int`. */
  lemma NameRoundTrip(row: nat, column: nat)
    requires row + 65 < 0xD800 && column + 1 <= Int32Max
    ensures LoadName(SaveName(row, column)) == Some((row, column))
  {
    var name := SaveName(row, column);
    assert name[1..] == NatToString(column + 1);
    ParseNatToString(column + 1);
  }

  /** Two different cells get different names. */
  lemma SaveNameInjective(row: nat, column: nat, row2: nat, column2: nat)
    requires row + 65 < 0xD800 && column + 1 <= Int32Max
    requires row2 + 65 < 0xD800 && column2 + 1 <= Int32Max
    requires SaveName(row, column) == SaveName(row2, column2)
    ensures row == row2 && column == column2
  {
    NameRoundTrip(row, column);
    NameRoundTrip(row2, column2);
  }

  /** The saved name of the cell at (row, column), used as a one-variable
      formula, takes the single-reference shortcut to the cell at row
      `column` and column `row`: the two naming conventions are transposed. */
  lemma SavedNameInFormula(cfg: Config, cs: seq<CellState>, i: int, t: Term, row: nat, column: nat)
    requires Wf(cfg, cs) && 0 <= i < |cs|
    requires row + 65 < 0xD800 && column + 1 <= Int32Max
    ensures var name := SaveName(row, column);
      EvaluateTree(cfg, cs, i, name, t, [name]) == SingleReference(cfg, cs, i, column, row)
  {
    var name := SaveName(row, column);
    assert name[1..] == NatToString(column + 1);
    ParseNatToString(column + 1);
  }
}
