/** The instruction editor of src/bot/edit.rs: 32 cells, each shown as an instruction
    name and as a number, which the player edits as text. Leaving a cell parses its
    text into the program byte and renders both texts again. */
module Editor {
  import opened Wrappers
  import opened Text
  import opened Bot

  /** Why a cell's text was refused; the source formats each as a message. */
  datatype EditError =
    | InvalidTurn(text: string)
    | InvalidCondition(word: string)
    | MissingCondition
    | InvalidStart
    | UnexpectedWord(word: string, instr: Instruction)
    | ValueTooLarge(value: nat)
    | BadNumber(kind: IntErrorKind)

  /** The words each instruction is written with; `Skip` is written `wait`. */
  function NameWords(i: Instruction): seq<string> {
    match i
    case Halt => ["halt"]
    case Walk => ["walk"]
    case TurnAround => ["turn", "around"]
    case TurnLeft => ["turn", "left"]
    case TurnRight => ["turn", "right"]
    case Skip => ["wait"]
    case Goto => ["goto"]
    case IfBox => ["if", "box"]
    case IfWall => ["if", "wall"]
    case IfEdge => ["if", "edge"]
    case IfNotBox => ["if", "not", "box"]
    case IfNotWall => ["if", "not", "wall"]
    case IfNotEdge => ["if", "not", "edge"]
    case IfRobot => ["if", "robot"]
    case IfNotRobot => ["if", "not", "robot"]
  }

  /** The branch selected by a condition word, `None` for any other word. */
  function ConditionOf(word: string, negate: bool): Option<Instruction> {
    if word == "box" then Some(if negate then IfNotBox else IfBox)
    else if word == "wall" then Some(if negate then IfNotWall else IfWall)
    else if word == "edge" then Some(if negate then IfNotEdge else IfEdge)
    else if word == "robot" then Some(if negate then IfNotRobot else IfRobot)
    else None
  }

  /** The `match` on the leading words of a name: the instruction and how many words it
      took, or why the words start no instruction. */
  function ParseHead(ws: seq<string>, text: string): (r: Result<(Instruction, nat), EditError>)
    ensures r.Ok? ==> 1 <= r.value.1 <= |ws| && ws[..r.value.1] == NameWords(r.value.0)
  {
    if |ws| == 0 then Err(InvalidStart)
    else if ws[0] == "halt" then Ok((Halt, 1))
    else if ws[0] == "walk" then Ok((Instruction.Walk, 1))
    else if ws[0] == "turn" then
      if |ws| > 1 && ws[1] == "around" then Ok((TurnAround, 2))
      else if |ws| > 1 && ws[1] == "left" then Ok((TurnLeft, 2))
      else if |ws| > 1 && ws[1] == "right" then Ok((TurnRight, 2))
      else Err(InvalidTurn(text))
    else if ws[0] == "wait" then Ok((Skip, 1))
    else if ws[0] == "goto" then Ok((Goto, 1))
    else if ws[0] == "if" then
      var negate := |ws| > 1 && ws[1] == "not";
      var n := if negate then 2 else 1;
      if |ws| <= n then Err(MissingCondition)
      else match ConditionOf(ws[n], negate)
        case None => Err(InvalidCondition(ws[n]))
        case Some(i) => Ok((i, n + 1))
    else Err(InvalidStart)
  }

  /** A name cell's trimmed, non-blank text as an instruction: its words must be exactly
      the words of one instruction. */
  function ParseName(text: string): (r: Result<Instruction, EditError>)
    ensures r.Ok? ==> Words(text) == NameWords(r.value)
  {
    var ws := Words(text);
    match ParseHead(ws, text)
    case Err(e) => Err(e)
    case Ok((i, n)) => if n < |ws| then Err(UnexpectedWord(ws[n], i)) else Ok(i)
  }

  /** A value cell's trimmed, non-blank text as a program byte: a `u8` below 32. */
  function ParseValue(text: string): (r: Result<byte, EditError>)
    ensures r.Ok? <==> ParseU8(text).Ok? && ParseU8(text).value < ProgramSize
    ensures r.Ok? ==> r.value == ParseU8(text).value
  {
    match ParseU8(text)
    case Ok(v) => if v < ProgramSize then Ok(v) else Err(ValueTooLarge(v))
    case Err(e) => Err(BadNumber(e))
  }

  /** The name shown for a byte: its instruction's display text, empty when it is none.
      So a cell's name is blank exactly when its byte is no opcode. */
  function RenderName(b: byte): (s: string)
    ensures s == "" <==> FromRepr(b).None?
  {
    match FromRepr(b)
    case Some(i) => Display(i)
    case None => ""
  }

  /** The texts of one cell and the byte it holds. */
  datatype CellText = CellText(name: string, value: string, byte: byte)

  /** A cell whose texts are rendered from its byte. */
  function Rendered(b: byte): CellText {
    CellText(RenderName(b), NatToString(b), b)
  }

  /** The outcome of leaving a cell: its new texts and byte, and the error to show. */
  datatype Edit = Edit(cell: CellText, error: Option<EditError>)

  /** `check_and_update_cell` on one cell. The edited text is trimmed; a blank text is
      restored from the byte; a text that parses is stored and both texts are rendered
      from the new byte; a text that does not parse stays as trimmed and sets the error,
      and the byte is kept. */
  function EditCell(c: CellText, wasName: bool): (e: Edit)
    ensures e.error.Some? ==> e.cell.byte == c.byte
    ensures c.byte < ProgramSize ==> e.cell.byte < ProgramSize
    ensures wasName && Trim(c.name) == [] ==> e == Edit(c.(name := RenderName(c.byte)), None)
    ensures !wasName && Trim(c.value) == [] ==> e == Edit(c.(value := NatToString(c.byte)), None)
    ensures e.error.None? && (if wasName then Trim(c.name) else Trim(c.value)) != [] ==> e.cell == Rendered(e.cell.byte)
  {
    if wasName then
      var t := Trim(c.name);
      if t == [] then Edit(c.(name := RenderName(c.byte)), None)
      else match ParseName(t)
        case Err(err) => Edit(c.(name := t), Some(err))
        case Ok(i) => Edit(Rendered(Repr(i)), None)
    else
      var t := Trim(c.value);
      if t == [] then Edit(c.(value := NatToString(c.byte)), None)
      else match ParseValue(t)
        case Err(err) => Edit(c.(value := t), Some(err))
        case Ok(v) => Edit(Rendered(v), None)
  }

  /** The parser reads the words of `i` as `i`, taking all of them. */
  lemma ParseHeadOfNameWords(ws: seq<string>, t: string, i: Instruction)
    requires ws == NameWords(i)
    ensures ParseHead(ws, t) == Ok((i, |ws|))
  {
    if i.IfBox? || i.IfWall? || i.IfEdge? || i.IfRobot? {
      assert ws[1] != "not";
    }
  }

  /** Every instruction's words are accepted back as that instruction. */
  lemma ParseNameOfWords(t: string, i: Instruction)
    requires Words(t) == NameWords(i)
    ensures ParseName(t) == Ok(i)
  {
    ParseHeadOfNameWords(Words(t), t, i);
  }

  /** A name is accepted as `i` exactly when its words are the words of `i`. */
  lemma ParseNameIff(t: string, i: Instruction)
    ensures ParseName(t) == Ok(i) <==> Words(t) == NameWords(i)
  {
    if Words(t) == NameWords(i) {
      ParseNameOfWords(t, i);
    }
  }

  /** The display text of an instruction written with one word is that word. */
  lemma DisplayOneWord(i: Instruction)
    requires |NameWords(i)| == 1 && i != Skip
    ensures Display(i) == Unwords(NameWords(i))
  {
  }

  lemma DisplayTwoWords(i: Instruction)
    requires |NameWords(i)| == 2
    ensures Display(i) == Unwords(NameWords(i))
  {
    var ws := NameWords(i);
    assert Unwords(ws) == ws[0] + " " + ws[1];
  }

  lemma DisplayThreeWords(i: Instruction)
    requires |NameWords(i)| == 3
    ensures Display(i) == Unwords(NameWords(i))
  {
    var ws := NameWords(i);
    assert Unwords(ws[1..]) == ws[1] + " " + ws[2];
    assert Unwords(ws) == ws[0] + " " + ws[1] + " " + ws[2];
  }

  lemma NameWordsProper(i: Instruction)
    ensures ProperWords(NameWords(i))
  {
    var ws := NameWords(i);
    forall w | w in ws ensures w != [] && NoWhitespace(w) {
    }
  }

  /** The display text of every instruction but `Skip` is its words joined by spaces. */
  lemma DisplayIsNameWords(i: Instruction)
    requires i != Skip
    ensures Display(i) == Unwords(NameWords(i)) && ProperWords(NameWords(i))
  {
    NameWordsProper(i);
    if |NameWords(i)| == 1 {
      DisplayOneWord(i);
    } else if |NameWords(i)| == 2 {
      DisplayTwoWords(i);
    } else {
      DisplayThreeWords(i);
    }
  }

  /** The rendered name of every instruction but `Skip` is already trimmed. */
  lemma DisplayIsTrimmed(i: Instruction)
    requires i != Skip
    ensures Trim(Display(i)) == Display(i) != []
  {
    DisplayIsNameWords(i);
    TrimUnwords(NameWords(i));
    UnwordsStartsWithWord(NameWords(i));
  }

  /** The rendered name of every instruction but `Skip` parses back to it. */
  lemma {:induction false} ParseNameOfDisplay(i: Instruction)
    requires i != Skip
    ensures Trim(Display(i)) == Display(i) != []
    ensures ParseName(Display(i)) == Ok(i)
  {
    DisplayIsTrimmed(i);
    var ws := NameWords(i);
    DisplayIsNameWords(i);
    WordsOfUnwords(ws);
    ParseNameOfWords(Display(i), i);
  }

  /** Negating a condition puts `not` after `if`. */
  lemma NegatedWords(i: Instruction)
    requires IsConditional(i) && IsPositive(i)
    ensures NameWords(Negated(i)) == [NameWords(i)[0], "not"] + NameWords(i)[1..]
  {
  }

  /** Leaving a cell that shows what it holds changes nothing and reports no error; the
      one exception is a name cell holding `Skip`, whose text "skip" is not a name the
      parser accepts. */
  lemma {:induction false} RenderedIsStable(b: byte, wasName: bool)
    requires b < ProgramSize && (wasName ==> b != Repr(Skip))
    ensures EditCell(Rendered(b), wasName) == Edit(Rendered(b), None)
  {
    if wasName {
      match FromRepr(b)
      case None =>
        assert Rendered(b).name == "";
      case Some(i) =>
        ParseNameOfDisplay(i);
    } else {
      TrimNatToString(b);
      ParseU8OfNatToString(b);
    }
  }

  /** A single word that starts no instruction is refused as a name. */
  lemma {:induction false} UnknownWordRefused(t: string)
    requires t != [] && NoWhitespace(t)
    requires t != "halt" && t != "walk" && t != "turn" && t != "wait" && t != "goto" && t != "if"
    ensures ParseName(t) == Err(InvalidStart)
  {
    assert Words(t) == [t] by {
      WordsOfWordThen(t, "");
      assert t + "" == t;
    }
    assert ParseHead([t], t) == Err(InvalidStart);
    ParseNameOfHeadError(t);
  }

  /** A text whose words start no instruction is refused with the head's error. */
  lemma ParseNameOfHeadError(text: string)
    requires ParseHead(Words(text), text).Err?
    ensures ParseName(text) == Err(ParseHead(Words(text), text).error)
  {
  }

  /** "skip", the display text of `Skip`, is not a name the parser accepts. */
  lemma SkipTextRefused()
    ensures Trim(Display(Skip)) == Display(Skip) != []
    ensures ParseName(Display(Skip)) == Err(InvalidStart)
  {
    var t := Display(Skip);
    assert NoWhitespace(t) && t != [];
    assert Trim(t) == t;
    UnknownWordRefused(t);
  }

  /** Leaving the name cell of a `Skip` reports that the text starts no instruction and
      keeps the byte. */
  lemma SkipNameIsRefused()
    ensures EditCell(Rendered(Repr(Skip)), true)
         == Edit(Rendered(Repr(Skip)), Some(InvalidStart))
  {
    var c := Rendered(Repr(Skip));
    FromReprOfRepr(Skip);
    SkipTextRefused();
    assert c.name == Display(Skip);
    EditCellRefused(c, true, InvalidStart);
  }

  /** The text of the edited half of a cell. */
  function EditedText(c: CellText, wasName: bool): string {
    if wasName then c.name else c.value
  }

  /** The byte a non-blank edited text parses to, or why it does not. */
  function Parsed(c: CellText, wasName: bool): Result<byte, EditError> {
    var t := Trim(EditedText(c, wasName));
    if wasName then
      match ParseName(t)
      case Err(e) => Err(e)
      case Ok(i) => Ok(Repr(i))
    else ParseValue(t)
  }

  lemma EditCellRefused(c: CellText, wasName: bool, e: EditError)
    requires Trim(EditedText(c, wasName)) != [] && Parsed(c, wasName) == Err(e)
    ensures EditCell(c, wasName).error == Some(e) && EditCell(c, wasName).cell
         == if wasName then c.(name := Trim(c.name)) else c.(value := Trim(c.value))
  {
  }

  lemma EditCellAccepted(c: CellText, wasName: bool, b: byte)
    requires Trim(EditedText(c, wasName)) != [] && Parsed(c, wasName) == Ok(b)
    ensures EditCell(c, wasName) == Edit(Rendered(b), None)
  {
  }

  lemma UpdateSame<T>(s: seq<T>, i: nat)
    requires i < |s|
    ensures s[i := s[i]] == s
  {
  }

  /** Which cell is being edited: its name text or its value text, and its index. */
  datatype Cell = Cell(wasName: bool, index: nat)

  /** `InstructionsEditor`. */
  class InstructionsEditor {
    const userNames: array<string>
    const userValues: array<string>
    const instructions: array<byte>
    var activeCell: Option<Cell>
    var error: Option<EditError>

    /** 32 cells, every byte a valid program byte, the two text arrays distinct, and
        the active cell one of the 32. */
    ghost predicate Valid()
      reads this, instructions
    {
      && userNames.Length == ProgramSize && userValues.Length == ProgramSize
      && instructions.Length == ProgramSize && userNames != userValues
      && (activeCell.Some? ==> activeCell.value.index < ProgramSize)
      && WellFormed(instructions[..])
    }

    /** Cell `k` as a value. */
    ghost function CellAt(k: nat): CellText
      requires Valid() && k < ProgramSize
      reads this, userNames, userValues, instructions
    {
      CellText(userNames[k], userValues[k], instructions[k])
    }

    /** `InstructionsEditor::new`: every cell holds `Halt`, shown as "halt" and "0";
        no cell is active and there is no error. */
    constructor ()
      ensures Valid() && fresh(userNames) && fresh(userValues) && fresh(instructions)
      ensures forall k :: 0 <= k < ProgramSize ==> CellAt(k) == Rendered(Repr(Halt))
      ensures activeCell == None && error == None
    {
      instructions := new byte[ProgramSize](_ => Repr(Halt));
      userNames := new string[ProgramSize](_ => Display(Halt));
      userValues := new string[ProgramSize](_ => NatToString(Repr(Halt)));
      activeCell := None;
      error := None;
      new;
      assert NatToString(0) == "0";
    }

    /** `active_cell_data`: the text of the cell being edited, if any. */
    function ActiveCellData(): (r: Option<string>)
      requires Valid()
      reads this, userNames, userValues, instructions
      ensures r.Some? <==> activeCell.Some?
      ensures r.Some? ==> r.value == if activeCell.value.wasName then CellAt(activeCell.value.index).name
                                     else CellAt(activeCell.value.index).value
    {
      match activeCell
      case None => None
      case Some(c) => Some(if c.wasName then userNames[c.index] else userValues[c.index])
    }

    /** Writing through the reference `active_cell_data` hands out: the active cell's
        text becomes `text`; nothing else changes. */
    method SetActiveCellData(text: string)
      requires Valid() && activeCell.Some?
      modifies userNames, userValues
      ensures Valid()
      ensures var c := activeCell.value;
        && userNames[..] == (if c.wasName then old(userNames[..])[c.index := text] else old(userNames[..]))
        && userValues[..] == (if c.wasName then old(userValues[..]) else old(userValues[..])[c.index := text])
    {
      var c := activeCell.value;
      if c.wasName {
        userNames[c.index] := text;
      } else {
        userValues[c.index] := text;
      }
    }

    /** `check_and_update_cell`: cell `cell` becomes what `EditCell` says and the error is
        set from it; every other cell is left as it was. */
    method CheckAndUpdateCell(wasName: bool, cell: nat)
      requires Valid() && cell < ProgramSize
      modifies this, userNames, userValues, instructions
      ensures Valid() && activeCell == old(activeCell)
      ensures var e := EditCell(old(CellAt(cell)), wasName);
        && error == e.error
        && userNames[..] == old(userNames[..])[cell := e.cell.name]
        && userValues[..] == old(userValues[..])[cell := e.cell.value]
        && instructions[..] == old(instructions[..])[cell := e.cell.byte]
    {
      error := None;
      if wasName {
        CheckName(cell);
      } else {
        CheckValue(cell);
      }
    }

    /** The name half of `check_and_update_cell`. */
    method CheckName(cell: nat)
      requires Valid() && cell < ProgramSize
      modifies this, userNames, userValues, instructions
      ensures Valid() && activeCell == old(activeCell)
      ensures var e := EditCell(old(CellAt(cell)), true);
        && error == (if e.error.Some? then e.error else old(error))
        && userNames[..] == old(userNames[..])[cell := e.cell.name]
        && userValues[..] == old(userValues[..])[cell := e.cell.value]
        && instructions[..] == old(instructions[..])[cell := e.cell.byte]
    {
      var t := Trim(userNames[cell]);
      if t == "" {
        RestoreName(cell);
        return;
      }
      match ParseName(t) {
        case Err(e) =>
          RefuseName(cell, e);
        case Ok(i) =>
          AcceptName(cell, Repr(i));
      }
    }

    /** A blank name text is rendered again from the cell's byte. */
    method RestoreName(cell: nat)
      requires Valid() && cell < ProgramSize && Trim(userNames[cell]) == []
      modifies userNames
      ensures Valid() && unchanged(this)
      ensures var e := EditCell(old(CellAt(cell)), true);
        && e.error == None
        && userNames[..] == old(userNames[..])[cell := e.cell.name]
        && userValues[..] == old(userValues[..])[cell := e.cell.value]
        && instructions[..] == old(instructions[..])[cell := e.cell.byte]
    {
      UpdateSame(userValues[..], cell);
      UpdateSame(instructions[..], cell);
      SetName(cell, RenderName(instructions[cell]));
    }

    /** A name text that does not parse is kept, trimmed, and its error reported. */
    method RefuseName(cell: nat, e: EditError)
      requires Valid() && cell < ProgramSize && Trim(userNames[cell]) != []
      requires Parsed(CellAt(cell), true) == Err(e)
      modifies this, userNames
      ensures Valid() && activeCell == old(activeCell)
      ensures var ed := EditCell(old(CellAt(cell)), true);
        && error == ed.error
        && userNames[..] == old(userNames[..])[cell := ed.cell.name]
        && userValues[..] == old(userValues[..])[cell := ed.cell.value]
        && instructions[..] == old(instructions[..])[cell := ed.cell.byte]
    {
      ghost var c := CellAt(cell);
      EditCellRefused(c, true, e);
      UpdateSame(userValues[..], cell);
      UpdateSame(instructions[..], cell);
      SetName(cell, Trim(userNames[cell]));
      error := Some(e);
    }

    /** A name text that parses stores its instruction's byte. */
    method AcceptName(cell: nat, b: byte)
      requires Valid() && cell < ProgramSize && Trim(userNames[cell]) != []
      requires Parsed(CellAt(cell), true) == Ok(b)
      modifies userNames, userValues, instructions
      ensures Valid() && unchanged(this)
      ensures var e := EditCell(old(CellAt(cell)), true);
        && e.error == None
        && userNames[..] == old(userNames[..])[cell := e.cell.name]
        && userValues[..] == old(userValues[..])[cell := e.cell.value]
        && instructions[..] == old(instructions[..])[cell := e.cell.byte]
    {
      EditCellAccepted(CellAt(cell), true, b);
      Store(cell, b);
    }

    /** The value half of `check_and_update_cell`. */
    method CheckValue(cell: nat)
      requires Valid() && cell < ProgramSize
      modifies this, userNames, userValues, instructions
      ensures Valid() && activeCell == old(activeCell)
      ensures var e := EditCell(old(CellAt(cell)), false);
        && error == (if e.error.Some? then e.error else old(error))
        && userNames[..] == old(userNames[..])[cell := e.cell.name]
        && userValues[..] == old(userValues[..])[cell := e.cell.value]
        && instructions[..] == old(instructions[..])[cell := e.cell.byte]
    {
      var t := Trim(userValues[cell]);
      if t == "" {
        RestoreValue(cell);
        return;
      }
      match ParseValue(t) {
        case Err(e) =>
          RefuseValue(cell, e);
        case Ok(v) =>
          AcceptValue(cell, v);
      }
    }

    /** A blank value text is rendered again from the cell's byte. */
    method RestoreValue(cell: nat)
      requires Valid() && cell < ProgramSize && Trim(userValues[cell]) == []
      modifies userValues
      ensures Valid() && unchanged(this)
      ensures var e := EditCell(old(CellAt(cell)), false);
        && e.error == None
        && userNames[..] == old(userNames[..])[cell := e.cell.name]
        && userValues[..] == old(userValues[..])[cell := e.cell.value]
        && instructions[..] == old(instructions[..])[cell := e.cell.byte]
    {
      UpdateSame(userNames[..], cell);
      UpdateSame(instructions[..], cell);
      SetValue(cell, NatToString(instructions[cell]));
    }

    /** A value text that does not parse is kept, trimmed, and its error reported. */
    method RefuseValue(cell: nat, e: EditError)
      requires Valid() && cell < ProgramSize && Trim(userValues[cell]) != []
      requires Parsed(CellAt(cell), false) == Err(e)
      modifies this, userValues
      ensures Valid() && activeCell == old(activeCell)
      ensures var ed := EditCell(old(CellAt(cell)), false);
        && error == ed.error
        && userNames[..] == old(userNames[..])[cell := ed.cell.name]
        && userValues[..] == old(userValues[..])[cell := ed.cell.value]
        && instructions[..] == old(instructions[..])[cell := ed.cell.byte]
    {
      ghost var c := CellAt(cell);
      EditCellRefused(c, false, e);
      UpdateSame(userNames[..], cell);
      UpdateSame(instructions[..], cell);
      SetValue(cell, Trim(userValues[cell]));
      error := Some(e);
    }

    /** A value text that parses to a program byte stores it. */
    method AcceptValue(cell: nat, b: byte)
      requires Valid() && cell < ProgramSize && Trim(userValues[cell]) != []
      requires Parsed(CellAt(cell), false) == Ok(b)
      modifies userNames, userValues, instructions
      ensures Valid() && unchanged(this)
      ensures var e := EditCell(old(CellAt(cell)), false);
        && e.error == None
        && userNames[..] == old(userNames[..])[cell := e.cell.name]
        && userValues[..] == old(userValues[..])[cell := e.cell.value]
        && instructions[..] == old(instructions[..])[cell := e.cell.byte]
    {
      EditCellAccepted(CellAt(cell), false, b);
      Store(cell, b);
    }

    /** Replaces the name text of one cell. */
    method SetName(cell: nat, text: string)
      requires Valid() && cell < ProgramSize
      modifies userNames
      ensures userNames[..] == old(userNames[..])[cell := text]
      ensures unchanged(userValues, instructions)
    {
      userNames[cell] := text;
    }

    /** Replaces the value text of one cell. */
    method SetValue(cell: nat, text: string)
      requires Valid() && cell < ProgramSize
      modifies userValues
      ensures userValues[..] == old(userValues[..])[cell := text]
      ensures unchanged(userNames, instructions)
    {
      userValues[cell] := text;
    }

    /** Stores an accepted byte and renders both texts of its cell from it. */
    method Store(cell: nat, b: byte)
      requires Valid() && cell < ProgramSize && b < ProgramSize
      modifies userNames, userValues, instructions
      ensures Valid()
      ensures userNames[..] == old(userNames[..])[cell := RenderName(b)]
      ensures userValues[..] == old(userValues[..])[cell := NatToString(b)]
      ensures instructions[..] == old(instructions[..])[cell := b]
    {
      instructions[cell] := b;
      userNames[cell] := RenderName(b);
      userValues[cell] := NatToString(b);
    }

    /** `on_selection_quit`: installs the newly selected cell and returns the previous
        one, after checking and updating it; with no previous cell nothing is checked. */
    method OnSelectionQuit(newCell: Option<Cell>) returns (prev: Option<Cell>)
      requires Valid() && (newCell.Some? ==> newCell.value.index < ProgramSize)
      modifies this, userNames, userValues, instructions
      ensures Valid() && activeCell == newCell && prev == old(activeCell)
      ensures prev.None? ==> error == old(error) && unchanged(userNames, userValues, instructions)
      ensures prev.Some? ==> var e := EditCell(old(CellAt(prev.value.index)), prev.value.wasName);
        && error == e.error
        && userNames[..] == old(userNames[..])[prev.value.index := e.cell.name]
        && userValues[..] == old(userValues[..])[prev.value.index := e.cell.value]
        && instructions[..] == old(instructions[..])[prev.value.index := e.cell.byte]
    {
      prev := activeCell;
      activeCell := newCell;
      if prev.None? {
        return None;
      }
      CheckAndUpdateCell(prev.value.wasName, prev.value.index);
    }
  }
}
