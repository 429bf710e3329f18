/** Moving the copy-mode cursor and scrolling (core/src/copy_mode.rs).

A cursor row and a scrollback offset together stand for one absolute line of the
terminal's buffer. */
module CopyCursor {
  import opened Ints
  import opened Text

  /** `history` is the number of lines scrolled off; `offset` is the application's own record of
      the scrollback. */
  datatype View = View(history: nat, rows: nat, cols: nat, scrollback: nat, offset: nat, row: nat, col: nat)
  {
    predicate Valid() {
      0 < rows && 0 < cols && scrollback <= history
    }

    predicate InGrid() {
      row < rows && col < cols
    }

    function AbsoluteLine(): int {
      row - scrollback
    }

    function OldestLine(): int {
      -(history as int)
    }
  }

  datatype Op = Move(dx: int, dy: int) | ScrollUp(lines: nat) | ScrollDown(lines: nat) | Top | Bottom

  function Scrolled(v: View, scrollback: nat): View {
    var s := Min(scrollback, v.history);
    v.(scrollback := s, offset := s)
  }

  function Moved(v: View, dx: int, dy: int): View
    requires v.Valid()
  {
    var desired := v.row + dy;
    var nc := Clamp(v.col + dx, 0, v.cols - 1);
    if desired < 0 then Scrolled(v, v.scrollback - desired).(row := 0, col := nc)
    else if desired >= v.rows then
      if v.scrollback > 0
      then Scrolled(v, Max(v.scrollback - (desired - v.rows + 1), 0)).(row := v.rows - 1, col := nc)
      else v.(row := v.rows - 1, col := nc)
    else v.(row := desired, col := nc)
  }

  function Apply(v: View, op: Op): View
    requires v.Valid()
  {
    match op
    case Move(dx, dy) => Moved(v, dx, dy)
    case ScrollUp(lines) => Scrolled(v, v.scrollback + lines)
    case ScrollDown(lines) => Scrolled(v, Max(v.scrollback - lines, 0))
    case Top => Scrolled(v, v.history)
    case Bottom => Scrolled(v, 0)
  }

  /** The active pane and the copy-mode fields that go with it. */
  class CopyView {
    const history: nat
    const rows: nat
    const cols: nat
    const terminalCursor: (nat, nat)
    var scrollback: nat
    var copyScrollOffset: nat
    var copyPos: Option<(nat, nat)>

    ghost predicate Valid()
      reads this
    {
      0 < rows && 0 < cols && scrollback <= history
    }

    function Pos(): (nat, nat)
      reads this
    {
      if copyPos.Some? then copyPos.value else terminalCursor
    }

    function Model(): View
      reads this
    {
      View(history, rows, cols, scrollback, copyScrollOffset, Pos().0, Pos().1)
    }

    constructor (history: nat, rows: nat, cols: nat, terminalCursor: (nat, nat))
      requires 0 < rows && 0 < cols
      ensures Valid() && Model() == View(history, rows, cols, 0, 0, terminalCursor.0, terminalCursor.1)
    {
      this.history, this.rows, this.cols, this.terminalCursor := history, rows, cols, terminalCursor;
      scrollback, copyScrollOffset, copyPos := 0, 0, None;
    }

    /** The parser clamps whatever it is asked for. */
    method SetScrollback(n: nat)
      modifies this`scrollback
      ensures scrollback == Min(n, history)
    {
      scrollback := if n < history then n else history;
    }

    method MoveCopyCursor(dx: int, dy: int)
      requires Valid()
      modifies this
      ensures Valid() && copyPos.Some? && Model() == Moved(old(Model()), dx, dy)
      ensures
        var before := old(Model());
        && Model().AbsoluteLine() == Clamp(before.AbsoluteLine() + dy, before.OldestLine(), rows - 1)
        && Model().col == Clamp(before.col + dx, 0, cols - 1)
    {
      var (r, c) := Pos();
      var desired := r + dy;
      var nc := Clamp(c + dx, 0, cols - 1);
      if desired < 0 {
        var scrollLines := -desired;
        SetScrollback(scrollback + scrollLines);
        copyScrollOffset := scrollback;
        copyPos := Some((0, nc));
      } else if desired >= rows {
        var scrollLines := desired - rows + 1;
        if scrollback > 0 {
          SetScrollback(Max(scrollback - scrollLines, 0));
          copyScrollOffset := scrollback;
          copyPos := Some((rows - 1, nc));
        } else {
          copyPos := Some((rows - 1, nc));
        }
      } else {
        copyPos := Some((desired, nc));
      }
    }

    method ScrollCopyUp(lines: nat)
      requires Valid()
      modifies this
      ensures Valid() && copyPos == old(copyPos) && Model() == Apply(old(Model()), ScrollUp(lines))
    {
      SetScrollback(scrollback + lines);
      copyScrollOffset := scrollback;
    }

    method ScrollCopyDown(lines: nat)
      requires Valid()
      modifies this
      ensures Valid() && copyPos == old(copyPos) && Model() == Apply(old(Model()), ScrollDown(lines))
    {
      SetScrollback(Max(scrollback - lines, 0));
      copyScrollOffset := scrollback;
    }

    /** Asks for more than any history holds; the parser clamps. */
    method ScrollToTop(most: nat)
      requires Valid() && most >= history
      modifies this
      ensures Valid() && copyPos == old(copyPos) && Model() == Apply(old(Model()), Top)
    {
      SetScrollback(most);
      copyScrollOffset := scrollback;
    }

    method ScrollToBottom()
      requires Valid()
      modifies this
      ensures Valid() && copyPos == old(copyPos) && Model() == Apply(old(Model()), Bottom)
    {
      SetScrollback(0);
      copyScrollOffset := 0;
    }

    method EnterCopyMode()
      requires Valid()
      modifies this
      ensures Valid() && Model() == Entered(old(Model()), terminalCursor.0, terminalCursor.1)
    {
      copyScrollOffset := 0;
      copyPos := Some(terminalCursor);
    }

    method ExitCopyMode()
      requires Valid()
      modifies this
      ensures Valid() && copyPos.None? && copyScrollOffset == scrollback == 0
    {
      copyPos := None;
      copyScrollOffset := 0;
      SetScrollback(0);
    }
  }

  /** A cursor move is addition on the absolute line, clamped to the lines that exist. */
  lemma MoveIsAbsolute(v: View, dx: int, dy: int)
    requires v.Valid()
    ensures Moved(v, dx, dy).AbsoluteLine() == Clamp(v.AbsoluteLine() + dy, v.OldestLine(), v.rows - 1)
    ensures Moved(v, dx, dy).col == Clamp(v.col + dx, 0, v.cols - 1)
    ensures v.InGrid() && dx == 0 && v.offset == v.scrollback && 0 <= v.row + dy < v.rows ==> Moved(v, dx, dy) == v.(row := v.row + dy)
  {
  }

  function ApplyAll(v: View, ops: seq<Op>): (r: View)
    requires v.Valid()
    ensures r.Valid()
  {
    if ops == [] then v else Apply(ApplyAll(v, ops[..|ops| - 1]), ops[|ops| - 1])
  }

  /** Where the cursor should be: moves add and clamp, scrolling shifts by as much as the window moved. */
  function Shift(v: View, op: Op): int
    requires v.Valid()
  {
    match op
    case Move(_, dy) => Clamp(v.AbsoluteLine() + dy, v.OldestLine(), v.rows - 1) - v.AbsoluteLine()
    case ScrollUp(lines) => -Min(lines, v.history - v.scrollback)
    case ScrollDown(lines) => Min(lines, v.scrollback)
    case Top => v.scrollback - v.history
    case Bottom => v.scrollback
  }

  /** Over every run of moves and scrolls the cursor stays in the grid and names a line of the buffer. */
  lemma {:induction false} RunStaysInGrid(v: View, ops: seq<Op>)
    requires v.Valid() && v.InGrid()
    ensures
      var w := ApplyAll(v, ops);
      && w.InGrid() && (w.history, w.rows, w.cols) == (v.history, v.rows, v.cols)
      && w.OldestLine() <= w.AbsoluteLine() < w.rows
    decreases |ops|
  {
    if ops != [] {
      RunStaysInGrid(v, ops[..|ops| - 1]);
    }
  }

  /** The operation has the parser slide the window. */
  predicate Slides(v: View, op: Op) {
    op.Move? ==> v.row + op.dy < 0 || (v.row + op.dy >= v.rows && v.scrollback > 0)
  }

  predicate EverSlides(v: View, ops: seq<Op>)
    requires v.Valid()
  {
    ops != [] && (EverSlides(v, ops[..|ops| - 1]) || Slides(ApplyAll(v, ops[..|ops| - 1]), ops[|ops| - 1]))
  }

  lemma {:induction false} RecordAfterRun(v: View, ops: seq<Op>)
    requires v.Valid()
    ensures
      var w := ApplyAll(v, ops);
      if EverSlides(v, ops) then w.offset == w.scrollback
      else (w.offset, w.scrollback) == (v.offset, v.scrollback)
    decreases |ops|
  {
    if ops != [] {
      RecordAfterRun(v, ops[..|ops| - 1]);
    }
  }

  /** Over every run the recorded offset ends in step with the parser exactly when it began in step or
      the window has slid. */
  lemma RecordInStepIff(v: View, ops: seq<Op>)
    requires v.Valid()
    ensures
      var w := ApplyAll(v, ops);
      w.offset == w.scrollback <==> v.offset == v.scrollback || EverSlides(v, ops)
  {
    RecordAfterRun(v, ops);
  }

  lemma StepShifts(v: View, op: Op)
    requires v.Valid()
    ensures Apply(v, op).AbsoluteLine() == v.AbsoluteLine() + Shift(v, op)
  {
  }

  function ShiftSum(v: View, ops: seq<Op>): int
    requires v.Valid()
  {
    if ops == [] then 0
    else ShiftSum(v, ops[..|ops| - 1]) + Shift(ApplyAll(v, ops[..|ops| - 1]), ops[|ops| - 1])
  }

  /** How far an operation asks to go; the jumps to top and bottom ask for the whole way. */
  function Request(v: View, op: Op): int
    requires v.Valid()
  {
    match op
    case Move(_, dy) => dy
    case ScrollUp(lines) => -(lines as int)
    case ScrollDown(lines) => lines
    case Top => v.scrollback - v.history
    case Bottom => v.scrollback
  }

  /** The buffer has the lines the operation asks for. */
  predicate Fits(v: View, op: Op)
    requires v.Valid()
  {
    match op
    case Move(_, dy) => v.OldestLine() <= v.AbsoluteLine() + dy < v.rows
    case ScrollUp(lines) => v.scrollback + lines <= v.history
    case ScrollDown(lines) => lines <= v.scrollback
    case _ => true
  }

  /** Over every mix of moves and scrolls the cursor's absolute line is the start plus what each step
      shifts it, and a step shifts by what it asks for exactly when the buffer has the lines. */
  lemma {:induction false} RunShifts(v: View, ops: seq<Op>)
    requires v.Valid() && v.InGrid()
    ensures ApplyAll(v, ops).AbsoluteLine() == v.AbsoluteLine() + ShiftSum(v, ops)
    ensures forall i :: 0 <= i < |ops| ==>
      var u := ApplyAll(v, ops[..i]);
      Shift(u, ops[i]) == Request(u, ops[i]) <==> Fits(u, ops[i])
    decreases |ops|
  {
    hide Moved;
    if ops != [] {
      var m := |ops| - 1;
      RunShifts(v, ops[..m]);
      StepShifts(ApplyAll(v, ops[..m]), ops[m]);
    }
    forall i | 0 <= i < |ops|
      ensures
        var u := ApplyAll(v, ops[..i]);
        Shift(u, ops[i]) == Request(u, ops[i]) <==> Fits(u, ops[i])
    {
      RunStaysInGrid(v, ops[..i]);
      ShiftIsRequestIff(ApplyAll(v, ops[..i]), ops[i]);
    }
  }

  lemma ShiftIsRequestIff(v: View, op: Op)
    requires v.Valid() && v.InGrid()
    ensures Shift(v, op) == Request(v, op) <==> Fits(v, op)
  {
  }

  function VerticalSum(moves: seq<Op>): int {
    if moves == [] then 0
    else VerticalSum(moves[..|moves| - 1]) + (if moves[|moves| - 1].Move? then moves[|moves| - 1].dy else 0)
  }

  /** A run of moves that never asks for a line outside the buffer lands on the start plus the sum. */
  lemma {:induction false} UnclampedMovesAdd(v: View, moves: seq<Op>)
    requires v.Valid() && v.InGrid()
    requires forall i :: 0 <= i < |moves| ==> moves[i].Move?
    requires forall i :: 0 <= i <= |moves| ==> v.OldestLine() <= v.AbsoluteLine() + VerticalSum(moves[..i]) < v.rows
    ensures ApplyAll(v, moves).AbsoluteLine() == v.AbsoluteLine() + VerticalSum(moves)
    decreases |moves|
  {
    assert moves[..|moves|] == moves;
    if moves != [] {
      var m := |moves| - 1;
      assert forall i :: 0 <= i <= m ==> moves[..m][..i] == moves[..i];
      UnclampedMovesAdd(v, moves[..m]);
      RunStaysInGrid(v, moves[..m]);
      MoveIsAbsolute(ApplyAll(v, moves[..m]), moves[m].dx, moves[m].dy);
    }
  }

  // ----- entering copy mode -----

  /** Entering resets the recorded offset but leaves the parser's scrollback alone. */
  function Entered(v: View, promptRow: nat, promptCol: nat): View {
    v.(offset := 0, row := promptRow, col := promptCol)
  }

  /** Entering keeps the record in step exactly when the pane is showing live output. */
  lemma EnterKeepsOffsetIffLive(v: View, promptRow: nat, promptCol: nat)
    ensures var w := Entered(v, promptRow, promptCol); w.offset == w.scrollback <==> v.scrollback == 0
  {
  }

  /** What is read at the recorded position lies exactly the scrollback found on entry below what the
      cursor is on, over every run since entering, until the window slides. */
  lemma EnterMisplacesByScrollback(v: View, promptRow: nat, promptCol: nat, ops: seq<Op>)
    requires v.Valid()
    ensures
      var entered := Entered(v, promptRow, promptCol);
      var w := ApplyAll(entered, ops);
      w.row - w.offset == w.AbsoluteLine() + if EverSlides(entered, ops) then 0 else v.scrollback
  {
    RecordAfterRun(Entered(v, promptRow, promptCol), ops);
  }

  /** Copying ends by sliding the window to the recorded offset.  After entering copy mode and any run
      of moves and scrolls that leaves the window where it is exactly when the pane showed live output
      on entry or the window has slid since. */
  lemma CopyingKeepsWindowIff(v: View, promptRow: nat, promptCol: nat, ops: seq<Op>)
    requires v.Valid()
    ensures
      var entered := Entered(v, promptRow, promptCol);
      var w := ApplyAll(entered, ops);
      Scrolled(w, w.offset).scrollback == w.scrollback <==> v.scrollback == 0 || EverSlides(entered, ops)
  {
    RecordAfterRun(Entered(v, promptRow, promptCol), ops);
  }

  /** With any history, scrolling up and entering again leaves the two apart. */
  lemma ReenteringWhileScrolledDiverges(v: View)
    requires v.Valid() && v.history > 0
    ensures var w := Entered(Apply(v, ScrollUp(1)), v.row, v.col); w.offset != w.scrollback
  {
  }
}
