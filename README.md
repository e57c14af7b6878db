# SpreadsheetEngine, modelled in Dafny

The engine of a small spreadsheet application:

- a grid of cells, each with a text, a computed value, a background colour and
  two back-reference sets (the cells it references, the cells that reference
  it);
- a formula language (`=A1+B2*3`) turned into postfix by a shunting-yard
  pass and into an expression tree whose variables share one node per name;
- evaluation of a formula cell, with a single-reference shortcut, a general
  path, error values (`!(bad reference)`, `!(self reference)`, `!(error)`,
  `!(circular reference)`) and a depth-first cycle check;
- recursive recalculation of every dependent when a text changes, and
  propagation of the circular-reference error;
- undo and redo stacks of text and colour commands, and clearing of the whole
  sheet.

## Layout

| file | module | models |
|---|---|---|
| `wrappers.dfy` | `Wrappers` | `Option` (a null reference, a failed `TryParse`) and `Result` (a thrown exception) |
| `text.dfy` | `Text` | `char.IsLetter`/`IsDigit`, `int.TryParse`, `int.ToString`, `Convert.ToDouble` of a formula token |
| `shunting_yard.dfy` | `ShuntingYard` | the private `ShutingYard` pass as a function (`Postfix`) and as the loop the source runs (`ShuntingYardPass`) |
| `shunting_yard_props.dfy` | `ShuntingYardProperties` | properties of the scanner and of the shunting-yard pass |
| `nodes.dfy` | `Nodes` | `VariableNode`, the tree nodes, `OperatorNodeFactory`, `NodeFactory` |
| `expression_tree.dfy` | `ExpressionTrees` | `ExpressionTree`: the tree builder as a function (`BuildTerm`) and as a class with its variable dictionary |
| `expression_tree_props.dfy` | `ExpressionTreeProperties` | the parser inverts the rendering of a tree; precedence and associativity |
| `cells.dfy` | `Cells` | `AbstractCell` and `Cell` as one class |
| `sheet_spec.dfy` | `SheetSpec` | the whole sheet as a value: formula evaluation, recalculation, commands, undo, redo, clearing |
| `sheet_graph.dfy` | `SheetGraph` | the two back-reference sets stay in agreement; walks along references |
| `spreadsheet.dfy` | `Sheets` | the `Spreadsheet` class over an array of `Cell` objects, each method proved against `SheetSpec` |
| `sheet_props.dfy` | `SheetProps` | what recalculation, undo, redo and clearing promise to the user |
| `names.dfy` | `CellNames` | the cell names of the save file |

The `Spreadsheet` class keeps its cells in a flat array in row-major order.
A cell is named by its index in that array, so the back-reference sets, the
undo commands and the cycle check's visited list hold indices, not
references. Each method states its new cell states as a function of the old
ones (`Snapshot()`, `Whole()`), and those functions are the ones the
`SheetProps` lemmas are about.

Recalculation in the source is unbounded recursion that ends in a stack
overflow on a reference cycle it does not detect. In the model it carries a
`fuel` bound, and running out of fuel is the `OutOfFuel` failure. An
exception that escapes an operation (a formula that does not parse, a colour
command with too few old colours) is a `Failure` returned with the cells as
they were when it was thrown.

## Model

| member | source | states |
|---|---|---|
| Text.ParseInt32 | SpreadsheetEngine/Spreadsheet.cs:426 | a parsed integer lies in the 32-bit signed range |
| Text.ParseNatToString | SpreadsheetEngine/Spreadsheet.cs:426 | `int.TryParse` reads back the decimal text of every non-negative 32-bit integer |
| Text.ParseNumeral | SpreadsheetEngine/NodeFactory.cs:25-27 | `Convert.ToDouble` of a token of digits alone is the number those digits spell; any value it gives is finite |
| ShuntingYard.RunLength | SpreadsheetEngine/ExpressionTree.cs:75-83 | the operand run is maximal: every character in it is a letter or digit, and the next one is not |
| ShuntingYard.ScanOperand | SpreadsheetEngine/ExpressionTree.cs:73-84 | the inner scanning loop returns exactly the maximal run of letters and digits at `i` |
| ShuntingYard.PopToOpen | SpreadsheetEngine/ExpressionTree.cs:96-99 | the loop on `)` pops to the output what `PopUntilOpen` specifies |
| ShuntingYard.PopHigher | SpreadsheetEngine/ExpressionTree.cs:108-114 | the loop on an operator pops to the output what `PopWhile` specifies |
| ShuntingYard.ShuntingYardPass | SpreadsheetEngine/ExpressionTree.cs:63-127 | the imperative pass, with its stack and its index jump past an operand, computes `Postfix` of the expression, including the failure of a `)` that finds no `(` |
| ShuntingYardProperties.LexSpells | SpreadsheetEngine/ExpressionTree.cs:68-118 | the tokens the pass reads spell the whole expression back: no character is lost or repeated |
| ShuntingYardProperties.LexWellFormed | SpreadsheetEngine/ExpressionTree.cs:73-84 | operands are nonempty words, no operand follows another, and symbols are not letters or digits |
| ShuntingYardProperties.LexOfSpell | SpreadsheetEngine/ExpressionTree.cs:68-118 | scanning the text of a well-formed token sequence gives that sequence back |
| ShuntingYardProperties.LexSymbolsFromInput | SpreadsheetEngine/ExpressionTree.cs:86-117 | every symbol token is a character of the input |
| ShuntingYardProperties.LongNames | ExpressionTreeTests/ExpressionTreeTests.cs:118-129 | multi-character names such as `A32-bee11-cbde-e11e` are read as one operand each between the minus signs |
| ShuntingYardProperties.PopWhileShape | SpreadsheetEngine/ExpressionTree.cs:108-114 | an operator pops exactly the run of stack-top operators whose precedence is at least its own, top first, and leaves the rest of the stack unchanged |
| ShuntingYardProperties.PopUntilOpenShape | SpreadsheetEngine/ExpressionTree.cs:96-99 | a `)` pops exactly the characters above the topmost `(`, top first; the `(` stays for the following `Pop` |
| ShuntingYardProperties.PostfixKeepsOperandOrder | SpreadsheetEngine/ExpressionTree.cs:63-127 | the operands appear in the postfix list in the order they appear in the expression |
| ShuntingYardProperties.CloseParens | SpreadsheetEngine/ExpressionTree.cs:94-103 | a `)` succeeds exactly when an open `(` is on the stack, and then removes one |
| ShuntingYardProperties.ShuntParens | SpreadsheetEngine/ExpressionTree.cs:63-127 | over operators, parentheses and names the pass fails exactly when some `)` comes without an open `(`; no `)` is ever output |
| ShuntingYardProperties.PostfixParentheses | SpreadsheetEngine/ExpressionTree.cs:88-103 | over names, operators and parentheses, the pass succeeds if and only if no prefix closes more parentheses than it opens; a `(` is left in the output exactly when more open than close |
| ShuntingYardProperties.BalancedPostfixHasNoParentheses | SpreadsheetEngine/ExpressionTree.cs:88-124 | a balanced formula over names, operators and parentheses gives a postfix list with no parenthesis in it |
| ShuntingYardProperties.OtherCharEmptiesStack | SpreadsheetEngine/ExpressionTree.cs:106-117 | a character of precedence -1 that is not a parenthesis pops the whole stack and is then pushed |
| ShuntingYardProperties.Precedence | SpreadsheetEngine/ExpressionTree.cs:105-117 | `a x b y c` gives `a b x c y` when `x` binds at least as tightly as `y` (left associativity), and `a b c y x` otherwise |
| ShuntingYardProperties.NestedPostfix | SpreadsheetEngine/ExpressionTree.cs:63-126 | `(a+b*(c-d))/e` becomes `a b c d - * + e /` for any five names |
| ShuntingYardProperties.ShuntingYardNormalCase | ExpressionTreeTests/ExpressionTreeTests.cs:152-165 | `(A+B*(C-D))/E` becomes `A B C D - * + E /` |
| ShuntingYardProperties.PostfixEntries | SpreadsheetEngine/ExpressionTree.cs:63-127 | every postfix entry is a word or a single character that is not a letter or digit, so `postfixExpression[i][0]` in the tree builder exists |
| ShuntingYardProperties.EmptyExpression | SpreadsheetEngine/ExpressionTree.cs:63-127 | the empty expression gives the empty postfix list |
| Nodes.OperatorKind | SpreadsheetEngine/OperatorNodeFactory.cs:48-70 | exactly `+ - * /` name an operator, each the one whose symbol it is |
| Nodes.OperatorNodeFactory.constructor | SpreadsheetEngine/OperatorNodeFactory.cs:22-25 | the table holds exactly the four registered operators, each under its own symbol |
| Nodes.OperatorNodeFactory.CreateOperatorNode | SpreadsheetEngine/OperatorNodeFactory.cs:34-46 | a fresh binary node with null children for an operator symbol and of that operator; null for every other character |
| Nodes.CreateNode | SpreadsheetEngine/NodeFactory.cs:19-31 | a letter-first token gives a new variable node of that name with value 0; a digit-first one a constant with the parsed value, or the `Convert.ToDouble` failure; anything else null |
| Nodes.VariableNode.constructor | SpreadsheetEngine/VariableNode.cs:22-26 | the node has the given name and value, 0 by default |
| Nodes.VariableNode.SetValue | SpreadsheetEngine/VariableNode.cs:39-45 | after the setter the node evaluates to the new value |
| Nodes.EvalIsEvalTerm | SpreadsheetEngine/ExpressionTree.cs:53-56 | evaluating the tree of nodes equals evaluating its term with each variable name bound to its node's value; a null node makes both fail |
| ExpressionTrees.AssembleNonEmpty | SpreadsheetEngine/ExpressionTree.cs:169-222 | on a nonempty postfix list a successful build leaves a nonempty stack, so the final `Pop` does not throw |
| ExpressionTrees.VariablesOf | SpreadsheetEngine/ExpressionTree.cs:204-213 | the dictionary keys are exactly the letter-first entries, each once |
| ExpressionTrees.ExpressionTree.AddVariable | SpreadsheetEngine/ExpressionTree.cs:206-211 | a name already in the dictionary keeps its node; a new one is added with the given node and appended to the key order |
| ExpressionTrees.ExpressionTree.PushOperator | SpreadsheetEngine/ExpressionTree.cs:180-195 | an operator pops its right then its left operand and pushes the combined node, or fails with fewer than two operands |
| ExpressionTrees.ExpressionTree.PushLeaf | SpreadsheetEngine/ExpressionTree.cs:199-219 | a non-operator entry pushes the shared variable node of its name, a constant, or null, and fails only on a bad number |
| ExpressionTrees.ExpressionTree.PushEntry | SpreadsheetEngine/ExpressionTree.cs:170-219 | one step of the builder on the node stack is the step `AssembleStep` takes on terms, and every variable occurrence shares the dictionary's node |
| ExpressionTrees.ExpressionTree.ConstructTree | SpreadsheetEngine/ExpressionTree.cs:162-223 | the builder's tree is the term `BuildTerm` gives, or its error; the dictionary holds one fresh zero-valued node per variable name, in first-occurrence order |
| ExpressionTrees.ExpressionTree.Evaluate | SpreadsheetEngine/ExpressionTree.cs:53-56 | the tree's value is its term's value under the dictionary's values |
| ExpressionTrees.ExpressionTree.SetVariable | SpreadsheetEngine/ExpressionTree.cs:31-37 | a known name gets the new value; an unknown name changes nothing |
| ExpressionTrees.ExpressionTree.GetVariables | SpreadsheetEngine/ExpressionTree.cs:43-47 | the list holds each dictionary key once, in insertion order |
| ExpressionTrees.NewExpressionTree | SpreadsheetEngine/ExpressionTree.cs:19-24 | the constructor succeeds exactly when `ParseTree` does, with that tree and the variables of the postfix list, every one at 0; otherwise it throws `ParseTree`'s error |
| ExpressionTreeProperties.AssemblePostOrder | SpreadsheetEngine/ExpressionTree.cs:170-220 | building from the post-order listing of a tree pushes exactly that tree |
| ExpressionTreeProperties.BuildPostOrder | SpreadsheetEngine/ExpressionTree.cs:162-223 | the builder inverts post-order listing |
| ExpressionTreeProperties.ShuntInfix | SpreadsheetEngine/ExpressionTree.cs:63-127 | the pass turns the fully parenthesised infix tokens of a tree into its post-order listing |
| ExpressionTreeProperties.PostfixOfRender | SpreadsheetEngine/ExpressionTree.cs:63-127 | the postfix form of a tree's rendering is its post-order listing |
| ExpressionTreeProperties.ParseRender | SpreadsheetEngine/ExpressionTree.cs:19-24 | parsing the fully parenthesised rendering of any tree over names gives that tree back |
| ExpressionTreeProperties.EmptyFormula | SpreadsheetEngine/ExpressionTree.cs:164-167 | the empty formula gives the null root |
| ExpressionTreeProperties.OperatorNeedsTwoOperands | SpreadsheetEngine/ExpressionTree.cs:186-195 | a name followed by an operator throws the missing-operand error |
| ExpressionTreeProperties.ParsePrecedence | SpreadsheetEngine/ExpressionTree.cs:105-117 | `a x b y c` parses as `(a x b) y c` when `x` binds at least as tightly as `y`, else as `a x (b y c)`; the first operand popped is the right child |
| Cells.Cell.constructor | SpreadsheetEngine/Cell.cs:26-31 | a new cell sits at its row and column, with empty text and value, colour 0 and no references |
| Cells.Cell.SetText | SpreadsheetEngine/AbstractCell.cs:68-78 | the text becomes the new one, nothing else changes, and a change is reported exactly when the text differed |
| Cells.Cell.SetValue | SpreadsheetEngine/AbstractCell.cs:92-99 | the value becomes the new one, nothing else changes, and a change is reported exactly when the value differed |
| Cells.Cell.SetBGColor | SpreadsheetEngine/AbstractCell.cs:112-121 | the colour becomes the new one, text and value stay, and a change is reported exactly when the colour differed |
| Cells.Cell.AddDependent | SpreadsheetEngine/Cell.cs:37-40 | the cell is added to the dependents set; nothing else changes |
| Cells.Cell.AddDepended | SpreadsheetEngine/Cell.cs:46-49 | the cell is added to the references set; nothing else changes |
| Cells.Cell.RemoveDependent | SpreadsheetEngine/Cell.cs:74-77 | the cell is removed from the dependents set; nothing else changes |
| Cells.Cell.ClearDependedSet | SpreadsheetEngine/Cell.cs:90 | the references set becomes empty; nothing else changes |
| Cells.Cell.CellIsDepended | SpreadsheetEngine/Cell.cs:98-101 | true exactly when the cell is in the references set |
| SheetSpec.CellIndex | SpreadsheetEngine/Spreadsheet.cs:87-96 | no cell exactly when a coordinate is negative or past the grid; otherwise the row-major position, inside the sheet |
| SheetSpec.Reference | SpreadsheetEngine/Spreadsheet.cs:477-480 | a variable names a cell of the sheet or none; none when the text after its first character is not a 32-bit integer |
| SheetSpec.ReferenceOfName | SpreadsheetEngine/Spreadsheet.cs:477-480 | a variable made of a character and the decimal digits of n names the cell at row n − 1 and column character − `A`, or none when that lies outside the sheet |
| SheetSpec.Ascending | SpreadsheetEngine/Cell.cs:55-67 | the enumeration of a back-reference set holds each member in the sheet once, in increasing order |
| SheetSpec.Recolor | SpreadsheetEngine/ColorCommand.cs:42-48 | only colours change, and the loop fails exactly when there are fewer old colours than cells |
| SheetSpec.Paint | SpreadsheetEngine/ColorCommand.cs:53-59 | every listed cell has the new colour; every cell keeps all but its colour, and has either its old colour or the new one |
| SheetSpec.NamesOfFormula | SpreadsheetEngine/Spreadsheet.cs:408-418 | a formula that parses has a postfix list whose variables are nonempty names, and a formula with a variable is nonempty, so `Text[1]` exists on the shortcut |
| SheetGraph.WithEdgeConsistent | SpreadsheetEngine/Spreadsheet.cs:432-433 | recording a reference on both cells keeps the two back-reference sets in agreement |
| SheetGraph.ClearedConsistent | SpreadsheetEngine/Cell.cs:83-91 | `ClearDepended` keeps the two back-reference sets in agreement |
| SheetGraph.ClearedDetaches | SpreadsheetEngine/Cell.cs:83-91 | after `ClearDepended` the cell references nothing and is no one's dependent; every other set entry, text, value and colour is as before |
| SheetGraph.WithValueConsistent | SpreadsheetEngine/AbstractCell.cs:92-99 | writing a value keeps the back-reference sets in agreement |
| SheetGraph.WithTextConsistent | SpreadsheetEngine/AbstractCell.cs:68-78 | writing a text keeps the back-reference sets in agreement |
| SheetGraph.WithColorConsistent | SpreadsheetEngine/AbstractCell.cs:112-121 | writing a colour keeps the back-reference sets in agreement |
| SheetGraph.CycleFound | SpreadsheetEngine/Spreadsheet.cs:383-397 | a walk back to a cell from a cell it references is a cycle through it |
| SheetGraph.NoEscape | SpreadsheetEngine/Spreadsheet.cs:355-376 | a walk never leaves a set of cells that reference only each other |
| SheetGraph.NoCycle | SpreadsheetEngine/Spreadsheet.cs:383-397 | when every cell that `i` references lies in such a set without `i`, `i` is in no cycle |
| Sheets.NewGrid | SpreadsheetEngine/Spreadsheet.cs:51-58 | the nested loops create `rows * columns` distinct new cells, each at its own row and column in row-major order |
| Sheets.Spreadsheet.constructor | SpreadsheetEngine/Spreadsheet.cs:42-59 | a sheet of the given size, every cell new and at its own position, both stacks empty |
| Sheets.Spreadsheet.GetCell | SpreadsheetEngine/Spreadsheet.cs:87-96 | null exactly for a position outside the grid; otherwise the cell at that row and column |
| Sheets.Spreadsheet.SetValueOf | SpreadsheetEngine/AbstractCell.cs:92-99 | cell `i` gets the value; every other cell state is unchanged |
| Sheets.Spreadsheet.AddEdge | SpreadsheetEngine/Spreadsheet.cs:432-433 | the reference is recorded on both cells |
| Sheets.Spreadsheet.DropDependent | SpreadsheetEngine/Cell.cs:85-88 | each referenced cell forgets cell `i` as a dependent; every other cell is unchanged |
| Sheets.Spreadsheet.ClearDepended | SpreadsheetEngine/Cell.cs:83-91 | the cells become `Cleared`: `i` forgets its references and they forget `i` |
| Sheets.Spreadsheet.CheckCircularReferenceHelper | SpreadsheetEngine/Spreadsheet.cs:355-376 | true only when the target is reachable from the current cell; false only when the cells newly visited, without the target, reference only visited cells |
| Sheets.Spreadsheet.CheckCircularReference | SpreadsheetEngine/Spreadsheet.cs:383-397 | true if and only if the cell depends on itself through one or more references |
| Sheets.Spreadsheet.CopyValue | SpreadsheetEngine/Spreadsheet.cs:434-458 | the shortcut's value: the circular-reference error in a cycle, else the referenced value when it is a number or plain text, `0` for an empty cell, else the evaluation error |
| Sheets.Spreadsheet.CopyReference | SpreadsheetEngine/Spreadsheet.cs:427-468 | the whole single-reference shortcut: bad reference outside the grid, self reference, or the reference recorded and the value copied |
| Sheets.Spreadsheet.LookUpVariable | SpreadsheetEngine/Spreadsheet.cs:480-526 | one variable of the general path: its number, or the error value that stops the loop, with the reference recorded when it names another cell |
| Sheets.Spreadsheet.LookUpName | SpreadsheetEngine/Spreadsheet.cs:477-480 | the cell a variable names is found from its letter (column) and its number (row), a number that does not parse counting as 0 |
| Sheets.Spreadsheet.BindVariable | SpreadsheetEngine/Spreadsheet.cs:475-508 | one turn of the general loop: stop with an error value, or set the variable in the tree and go on |
| Sheets.Spreadsheet.SetTreeVariable | SpreadsheetEngine/Spreadsheet.cs:497-500 | setting a tree variable changes no cell and binds the name to the number |
| Sheets.Spreadsheet.ResolveVariables | SpreadsheetEngine/Spreadsheet.cs:475-527 | the loop over the variables computes `Resolve`: every variable set, or the first error value |
| Sheets.Spreadsheet.EvaluateResolved | SpreadsheetEngine/Spreadsheet.cs:530-550 | with all variables set: the circular-reference error in a cycle, else the rendered value, else the evaluation error |
| Sheets.Spreadsheet.EvaluateGeneral | SpreadsheetEngine/Spreadsheet.cs:473-551 | the general path computes `General` |
| Sheets.Spreadsheet.EvaluateTree | SpreadsheetEngine/Spreadsheet.cs:418-551 | one variable and an integer after the formula's first character take the shortcut; every other parsed formula the general path |
| Sheets.Spreadsheet.EvaluateFormula | SpreadsheetEngine/Spreadsheet.cs:403-552 | the formula's effect on the cells is `SheetSpec.EvaluateFormula`; a formula that does not parse throws |
| Sheets.Spreadsheet.Recompute | SpreadsheetEngine/Spreadsheet.cs:110-117 | a formula cell is evaluated; any other cell's value becomes its text |
| Sheets.Spreadsheet.CellPropertyChanged | SpreadsheetEngine/Spreadsheet.cs:103-151 | the handler's effect is `Changed`: a text change recalculates, `CircularFound` spreads the error, the other notifications change nothing |
| Sheets.Spreadsheet.TextChangedStep | SpreadsheetEngine/Spreadsheet.cs:106-131 | clear the references, recompute, then notify each dependent with the text change, or with the circular-reference error when the value became it |
| Sheets.Spreadsheet.CircularFoundStep | SpreadsheetEngine/Spreadsheet.cs:136-150 | the cell gets the circular-reference error, and every dependent not showing it yet is notified |
| Sheets.Spreadsheet.NotifyDependents | SpreadsheetEngine/Spreadsheet.cs:124-128 | the dependents are notified one by one, in the order of the set, until one fails |
| Sheets.Spreadsheet.SetCellText | SpreadsheetEngine/AbstractCell.cs:68-78 | the `Text` setter with the recalculation its notification starts: `SetText` |
| Sheets.Spreadsheet.SetCellColor | SpreadsheetEngine/AbstractCell.cs:112-121 | the cell's colour becomes the new one; no other cell state changes |
| Sheets.Spreadsheet.Recolor | SpreadsheetEngine/ColorCommand.cs:42-48 | `ColorCommand.Execute` gives the k-th cell the k-th old colour, and fails as `Recolor` does |
| Sheets.Spreadsheet.Paint | SpreadsheetEngine/ColorCommand.cs:53-59 | `ColorCommand.UnExecute` gives every listed cell the new colour |
| Sheets.Spreadsheet.Execute | SpreadsheetEngine/TextCommand.cs:39-42 | a text command's undo sets the old text (with its recalculation); a colour command restores the old colours |
| Sheets.Spreadsheet.UnExecute | SpreadsheetEngine/TextCommand.cs:47-50 | a text command's redo sets the new text again; a colour command paints the new colour again |
| Sheets.Spreadsheet.AddUndo | SpreadsheetEngine/Spreadsheet.cs:157-164 | the command goes on top of the undo stack and the redo stack is emptied |
| Sheets.Spreadsheet.Undo | SpreadsheetEngine/Spreadsheet.cs:169-189 | the top undo command moves to the redo stack and is executed; nothing happens with an empty undo stack |
| Sheets.Spreadsheet.Redo | SpreadsheetEngine/Spreadsheet.cs:194-214 | the top redo command moves back to the undo stack and is unexecuted; nothing happens with an empty redo stack |
| Sheets.Spreadsheet.ClearCell | SpreadsheetEngine/Spreadsheet.cs:319-321 | one cell's text emptied (with recalculation) and its colour set to 0, as one step of `ClearFrom` |
| Sheets.Spreadsheet.ClearSpan | SpreadsheetEngine/Spreadsheet.cs:317-322 | the inner loop clears one row's cells in order, as `ClearFrom` does |
| Sheets.Spreadsheet.ClearRow | SpreadsheetEngine/Spreadsheet.cs:315-322 | one turn of the outer loop clears the row's positions, `i * columns` up to `(i + 1) * columns` |
| Sheets.Spreadsheet.ClearCells | SpreadsheetEngine/Spreadsheet.cs:315-323 | the nested loops clear every cell in row-major order, as `ClearFrom` from position 0 |
| Sheets.Spreadsheet.ClearSpreadsheet | SpreadsheetEngine/Spreadsheet.cs:313-327 | every cell cleared, then both stacks emptied: `ClearSheet` |
| Sheets.NewTreeIsZero | SpreadsheetEngine/VariableNode.cs:22-26 | every variable of a new tree starts at 0 |
| SheetProps.ChangedKeeps | SpreadsheetEngine/Spreadsheet.cs:103-151 | no notification, however deep its recursion goes and whether or not it fails, changes a text or a colour, and it keeps the back-reference sets in agreement |
| SheetProps.RecomputeKeeps | SpreadsheetEngine/Spreadsheet.cs:110-117 | evaluating a cell writes only values and references, each reference on both sides |
| SheetProps.EvaluateTreeKeeps | SpreadsheetEngine/Spreadsheet.cs:418-551 | both formula paths write only values and references |
| SheetProps.SetTextWrites | SpreadsheetEngine/AbstractCell.cs:68-78 | setting a text changes that one text and no other text or colour, and keeps the back-reference sets in agreement |
| SheetProps.EditUndo | Spreadsheet_Yeesa_Kee/Form1.cs:182-186 | undo right after an edit gives every cell back its text and colour from before the edit, restores the undo stack and leaves the edit alone on the redo stack |
| SheetProps.EditUndoRedo | SpreadsheetEngine/Spreadsheet.cs:194-214 | redo right after that undo brings back the texts, colours and stacks from right after the edit |
| SheetProps.PaintOutside | SpreadsheetEngine/ColorCommand.cs:53-59 | a cell not in the list keeps its whole state |
| SheetProps.RecolorRestores | SpreadsheetEngine/ColorCommand.cs:42-48 | writing back the recorded colours of distinct cells gives back the cells from before the painting |
| SheetProps.ColorUndoRedo | Spreadsheet_Yeesa_Kee/Form1.cs:215-240 | undo of a colour change gives back the cells exactly as before the change, and redo then gives back the whole sheet, stacks included |
| SheetProps.ClearFromEmpties | SpreadsheetEngine/Spreadsheet.cs:315-323 | when no step fails, the cells before `k` keep their texts and colours and every cell from `k` on has an empty text and colour 0 |
| SheetProps.ClearSheetEmpties | SpreadsheetEngine/Spreadsheet.cs:313-327 | a clear that does not fail leaves every text empty, every colour 0 and both stacks empty |
| SheetProps.SignedRowTakesShortcut | SpreadsheetEngine/Spreadsheet.cs:418-427 | `=B+1` takes the single-reference shortcut to the cell at row 1, column B, because `int.TryParse` accepts `+1` |
| CellNames.SaveName | SpreadsheetEngine/Spreadsheet.cs:278-280 | the saved name is a character followed by the decimal digits of the 1-based column number; it starts with a letter only for the rows whose code is one |
| CellNames.LoadName | SpreadsheetEngine/Spreadsheet.cs:227-229 | a name is read when it is nonempty and its rest parses as an integer; the letter gives the row |
| CellNames.NameRoundTrip | SpreadsheetEngine/Spreadsheet.cs:227-280 | loading a saved name gives back the cell it was saved from |
| CellNames.SaveNameInjective | SpreadsheetEngine/Spreadsheet.cs:278-280 | different cells get different saved names |
| CellNames.SavedNameInFormula | SpreadsheetEngine/Spreadsheet.cs:422-427 | a saved name written into a one-variable formula refers to the transposed cell: the file's letter is a row, the formula's a column |

## Left out

- `LoadFile` and `SaveFile` (SpreadsheetEngine/Spreadsheet.cs:220-307): XML reading and writing are I/O; only the cell-name arithmetic is modelled (`CellNames`), and the hexadecimal colour text is not.
- The `PropertyChanged` events the sheet raises for the user interface ("Activate Undo", "Deactivate Redo", the re-sent cell notifications) are not modelled; the sheet's own handler `CellPropertyChanged` is.
- `ClearUndo` and `ClearRedo` are the stack resets inside `Sheets.Spreadsheet.ClearSpreadsheet` and `SheetSpec.AddUndo`; their events are left out.
- `RowCount`, `ColumnCount`, `RowIndex`, `ColumnIndex`, `GetDependents` and `GetDepended` are plain getters: fields of the model.
- `Sheets.Spreadsheet.CellPropertyChanged`: the recursion carries a fuel bound. The source has none and overflows its stack on a reference cycle it does not catch; the model reports `OutOfFuel` instead.
- `SheetSpec.Ascending`: a `HashSet` is enumerated in an order the source does not fix; the model enumerates in increasing cell index.
- `ExpressionTrees.VariablesOf`, `ExpressionTrees.ExpressionTree.GetVariables`: the keys of the variable `Dictionary` are taken in insertion order, which .NET does not promise; that order decides which error the general path of a formula reports first and which references it records before that error.
- `double.TryParse` of a cell value and `double.ToString` of a result are the parameters `NumberFormat.parse` and `NumberFormat.render` of the sheet, not concrete functions.
- `Nodes.Apply`: floating-point arithmetic is idealised as arithmetic on reals. Division by zero and any non-finite operand give a non-finite result, which renders through `render`; IEEE rounding, overflow to infinity and results such as `1 / ∞ = 0` are not modelled.
- `Text.ParseNumeral`: `Convert.ToDouble` of a digits-first token is modelled for digits, or digits, `e` or `E`, and digits. Overflow to infinity and culture-specific formats are not modelled.
- `Text.IsLetter` and `Text.IsDigit` cover ASCII only; `char.IsLetter` and `char.IsDigit` also accept other Unicode letters and digits.
- `Nodes.OperatorNodeFactory.constructor`: the reflection scan of the loaded assemblies is replaced by the fixed list of the four operator classes the engine defines.
- Commands and back-reference sets hold cell indices, not `Cell` references; `SheetSpec.CommandOk` states that those indices lie in the sheet.
- `CellNames.SaveName`: the `(char)(i + 65)` cast wraps around past 65535 in the source; the model requires the code to be a valid character below the surrogate range.
- `SheetProps.EditUndo`, `SheetProps.EditUndoRedo`: undo and redo of a text edit are stated for texts, colours and stacks; computed values and back-reference sets are recomputed and are not compared.
- The user interface project and its grid are not part of this model; `SheetProps.Edit` and `SheetProps.ColorUndoRedo` state only what the grid passes to the engine.
