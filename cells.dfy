/** A cell of the sheet (`AbstractCell` and `Cell`): its text, the value the
    sheet computes from it, its background colour, and the two sets of
    back-references of the dependency graph. Cells are named by their index
    in the sheet's flat cell array. */
module Cells {
  /** A `uint`. */
  type Color = x: int | 0 <= x < 0x1_0000_0000

  /** The state of one cell as a value. */
  datatype CellState = CellState(
    text: string,
    value: string,
    bgColor: Color,
    dependOnMe: set<int>,  // the cells whose formulas reference this one
    iDependOn: set<int>)   // the cells this one's formula references

  /** The state of a new cell. */
  const NewCell := CellState("", "", 0, {}, {})

  class Cell {
    const rowIndex: int
    const columnIndex: int
    var text: string
    var value: string
    var bgColor: Color
    var dependOnMe: set<int>
    var iDependOn: set<int>

    ghost function State(): CellState
      reads this
    {
      CellState(text, value, bgColor, dependOnMe, iDependOn)
    }

    /** Empty text and value, colour 0 and no references; the position is
        fixed for good. */
    constructor (rowIndex: int, columnIndex: int)
      ensures this.rowIndex == rowIndex && this.columnIndex == columnIndex
      ensures State() == NewCell
    {
      this.rowIndex := rowIndex;
      this.columnIndex := columnIndex;
      text := "";
      value := "";
      bgColor := 0;
      dependOnMe := {};
      iDependOn := {};
    }

    /** The `Text` setter: writes, and reports a change (the notification
        that makes the sheet recalculate), only when the text differs. */
    method SetText(v: string) returns (changed: bool)
      modifies this
      ensures changed <==> old(text) != v
      ensures State() == old(State()).(text := v)
    {
      changed := text != v;
      if changed {
        text := v;
      }
    }

    /** The `Value` setter, with the same change check. */
    method SetValue(v: string) returns (changed: bool)
      modifies this
      ensures changed <==> old(value) != v
      ensures State() == old(State()).(value := v)
    {
      changed := value != v;
      if changed {
        value := v;
      }
    }

    /** The `BGColor` setter, with the same change check; text and value are
        untouched. */
    method SetBGColor(v: Color) returns (changed: bool)
      modifies this
      ensures changed <==> old(bgColor) != v
      ensures State() == old(State()).(bgColor := v)
    {
      changed := bgColor != v;
      if changed {
        bgColor := v;
      }
    }

    /** `AddDependent`: a set insertion into `dependOnMe`. */
    method AddDependent(c: int)
      modifies this
      ensures State() == old(State()).(dependOnMe := old(dependOnMe) + {c})
    {
      dependOnMe := dependOnMe + {c};
    }

    /** `AddDepended`: a set insertion into `iDependOn`. */
    method AddDepended(c: int)
      modifies this
      ensures State() == old(State()).(iDependOn := old(iDependOn) + {c})
    {
      iDependOn := iDependOn + {c};
    }

    /** `RemoveDependent`: removes `c`, and only `c`, from `dependOnMe`. */
    method RemoveDependent(c: int)
      modifies this
      ensures State() == old(State()).(dependOnMe := old(dependOnMe) - {c})
    {
      dependOnMe := dependOnMe - {c};
    }

    /** The final `iDependOn.Clear()` of `ClearDepended`. */
    method ClearDependedSet()
      modifies this
      ensures State() == old(State()).(iDependOn := {})
    {
      iDependOn := {};
    }

    /** `CellIsDepended`: whether this cell's formula references `c`. */
    function CellIsDepended(c: int): (r: bool)
      reads this
      ensures r <==> c in State().iDependOn
    {
      c in iDependOn
    }
  }
}
