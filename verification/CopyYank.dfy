/** Copying a selection out of the buffer (core/src/copy_mode.rs).

The selection may be taller than the screen: the reader slides the scrollback window
down the buffer and reads what each position shows.  The lemmas compare the text it
collects with a direct reading of the selected lines. */
module CopyYank {
  import CopyCursor
  import opened Ints
  import opened Terminal
  import opened Text

  const MAX_PASTE_BUFFERS: nat := 10

  /** The cells of columns c0 to c1, both included; empty when c1 < c0. */
  function CellRun(row: Row, c0: nat, c1: int): string
    decreases c1 - c0 + 1
  {
    if c1 < c0 then "" else CellRun(row, c0, c1 - 1) + CellOr(row, c1)
  }

  /** A selection by its two corners in absolute lines; `cols` is the width of the pane. */
  datatype Selection = Selection(mode: SelectionMode, anchorLine: int, anchorCol: nat, cursorLine: int, cursorCol: nat, cols: nat)
  {
    function Top(): int { Min(anchorLine, cursorLine) }

    function Bottom(): int { Max(anchorLine, cursorLine) }

    function Total(): (n: int)
      ensures n >= 1
    {
      Bottom() - Top() + 1
    }

    function TopCol(): nat { if anchorLine <= cursorLine then anchorCol else cursorCol }

    function BottomCol(): nat { if anchorLine <= cursorLine then cursorCol else anchorCol }

    function LeftCol(): nat { Min(anchorCol, cursorCol) }

    function RightCol(): nat { Max(anchorCol, cursorCol) }

    /** The text contributed by the k-th line that is read. */
    function LineText(row: Row, k: int): string {
      match mode
      case RectMode => TrimEnd(CellRun(row, LeftCol(), RightCol())) + (if k + 1 == Total() then "" else "\n")
      case LineMode => TrimEnd(CellRun(row, 0, cols - 1)) + "\n"
      case CharMode =>
        if Total() == 1 then CellRun(row, LeftCol(), RightCol())
        else
          var from := if k == 0 then TopCol() else 0;
          var to := if k + 1 == Total() then BottomCol() else if cols == 0 then 0 else cols - 1;
          TrimEnd(CellRun(row, from, to)) + (if k + 1 == Total() then "" else "\n")
    }
  }

  /** Lines `first`, `first + 1`, ... of the buffer, `n` of them, read once each in order. */
  function ReadDown(sel: Selection, buffer: Buffer, first: int, n: nat): string
    requires n > 0 ==> buffer.Has(first) && buffer.Has(first + n - 1)
  {
    if n == 0 then "" else ReadDown(sel, buffer, first, n - 1) + sel.LineText(buffer.Line(first + n - 1), n - 1)
  }

  lemma ReadOneMore(sel: Selection, buffer: Buffer, first: int, n: nat)
    requires buffer.Has(first) && buffer.Has(first + n)
    ensures ReadDown(sel, buffer, first, n + 1)
         == ReadDown(sel, buffer, first, n) + sel.LineText(buffer.Line(first + n), n)
  {
  }

  /** The first selected line that exists, and how many from there on exist. */
  function FirstLine(sel: Selection, buffer: Buffer): int {
    Max(sel.Top(), -|buffer.history|)
  }

  function LineCount(sel: Selection, buffer: Buffer): nat {
    Max(Min(sel.Bottom(), |buffer.screen| - 1) - FirstLine(sel, buffer) + 1, 0)
  }

  function YankText(sel: Selection, buffer: Buffer): string {
    ReadDown(sel, buffer, FirstLine(sel, buffer), LineCount(sel, buffer))
  }

  /** The pane being read and the copy-mode fields that `y` uses and sets. */
  class CopyPane {
    const buffer: Buffer
    const cols: nat
    var scrollback: nat
    var copyAnchor: Option<(nat, nat)>
    var copyAnchorScroll: nat
    var copyPos: Option<(nat, nat)>
    var copyScrollOffset: nat
    var selectionMode: SelectionMode
    var copyRegister: Option<char>
    var namedRegisters: map<char, string>
    var pasteBuffers: seq<string>
    var clipboardEnabled: bool
    var clipboardOsc52: Option<string>

    ghost predicate Valid()
      reads this
    {
      |buffer.screen| > 0 && scrollback <= |buffer.history|
    }

    constructor (buffer: Buffer, cols: nat)
      requires |buffer.screen| > 0
      ensures Valid() && this.buffer == buffer && scrollback == 0 && pasteBuffers == []
    {
      this.buffer, this.cols := buffer, cols;
      scrollback, copyAnchorScroll, copyScrollOffset := 0, 0, 0;
      copyAnchor, copyPos, selectionMode := None, None, CharMode;
      copyRegister, namedRegisters, pasteBuffers := None, map[], [];
      clipboardEnabled, clipboardOsc52 := true, None;
    }

    method SetScrollback(n: nat)
      modifies this`scrollback
      ensures scrollback == Min(n, |buffer.history|)
    {
      scrollback := if n < |buffer.history| then n else |buffer.history|;
    }

    function Selected(): Selection
      requires copyAnchor.Some? && copyPos.Some?
      reads this
    {
      Selection(selectionMode, copyAnchor.value.0 - copyAnchorScroll, copyAnchor.value.1,
                copyPos.value.0 - copyScrollOffset, copyPos.value.1, cols)
    }

    /** One row of the view, cell by cell. */
    method ReadCells(r: nat, c0: nat, c1: int) returns (line: string)
      requires Valid() && r < |buffer.screen|
      ensures line == CellRun(buffer.Line(r - scrollback), c0, c1)
    {
      buffer.VisibleRowIsLine(scrollback, r);
      var row := buffer.VisibleRows(scrollback)[r];
      line := "";
      var c := c0;
      while c <= c1
        invariant c0 <= c
        invariant c <= c1 + 1 || c == c0
        invariant line == CellRun(row, c0, c - 1)
        decreases c1 - c
      {
        line := line + (if c < |row| then row[c] else " ");
        c := c + 1;
      }
    }

    method ReadSelected(sel: Selection, r: nat, k: nat) returns (text: string)
      requires Valid() && r < |buffer.screen|
      ensures text == sel.LineText(buffer.Line(r - scrollback), k)
    {
      var isFirst, isLast := k == 0, k + 1 == sel.Total();
      match sel.mode {
        case RectMode =>
          var line := ReadCells(r, sel.LeftCol(), sel.RightCol());
          text := TrimEnd(line);
          if !isLast { text := text + "\n"; }
        case LineMode =>
          var line := ReadCells(r, 0, sel.cols - 1);
          text := TrimEnd(line) + "\n";
        case CharMode =>
          if sel.Total() == 1 {
            text := ReadCells(r, sel.LeftCol(), sel.RightCol());
          } else {
            var lineStart := if isFirst then sel.TopCol() else 0;
            var lineEnd := if isLast then sel.BottomCol() else if sel.cols == 0 then 0 else sel.cols - 1;
            var line := ReadCells(r, lineStart, lineEnd);
            text := TrimEnd(line);
            if !isLast { text := text + "\n"; }
          }
      }
    }

    /** Reads the lines from `from` to `to`, all of them in view, behind the `absIdx` already read. */
    method ReadWindow(sel: Selection, from: int, to: int, absIdx: nat, before: string) returns (text: string)
      requires Valid() && 0 <= from + scrollback && from <= to && to + scrollback < |buffer.screen|
      requires buffer.Has(from - absIdx) && before == ReadDown(sel, buffer, from - absIdx, absIdx)
      ensures text == ReadDown(sel, buffer, from - absIdx, absIdx + (to - from + 1))
    {
      hide ReadDown, Selection.LineText, Buffer.Line;
      text := before;
      var aline := from;
      while aline <= to
        invariant from <= aline <= to + 1
        invariant text == ReadDown(sel, buffer, from - absIdx, absIdx + (aline - from))
      {
        var lineText := ReadSelected(sel, aline + scrollback, absIdx + (aline - from));
        text := text + lineText;
        ReadOneMore(sel, buffer, from - absIdx, absIdx + (aline - from));
        aline := aline + 1;
      }
    }

    /** Slides the window from the top of the selection to its bottom and then to the recorded
        offset, which is where it was exactly when record and parser agreed. */
    method ReadSelection(sel: Selection) returns (text: string)
      requires Valid()
      modifies this`scrollback
      ensures Valid() && scrollback == Min(copyScrollOffset, |buffer.history|)
      ensures scrollback == old(scrollback) <==> old(scrollback) == Min(copyScrollOffset, |buffer.history|)
      ensures text == YankText(sel, buffer)
    {
      hide ReadDown, Buffer.Line;
      var rows := |buffer.screen|;
      ghost var first := FirstLine(sel, buffer);
      ghost var count := LineCount(sel, buffer);
      text := "";
      NothingRead(sel, buffer, first);
      var absIdx: nat := 0;
      var nextAbs := sel.Top();
      while nextAbs <= sel.Bottom()
        invariant Valid() && absIdx <= count
        invariant nextAbs == (if absIdx == 0 then sel.Top() else first + absIdx)
        invariant text == ReadDown(sel, buffer, first, absIdx)
        decreases sel.Bottom() - nextAbs
      {
        var targetSb := Max(-nextAbs, 0);
        SetScrollback(targetSb);
        var visStart := 0 - scrollback;
        var visEnd := rows - 1 - scrollback;
        var readStart := Max(nextAbs, visStart);
        var readEnd := Min(sel.Bottom(), visEnd);
        if readStart > readEnd {
          break;
        }
        assert readStart == first + absIdx;
        text := ReadWindow(sel, readStart, readEnd, absIdx, text);
        absIdx := absIdx + (readEnd - readStart + 1);
        nextAbs := readEnd + 1;
      }
      assert absIdx == count;
      SetScrollback(copyScrollOffset);
    }

    method YankSelection()
      requires Valid()
      modifies this
      ensures Valid()
      ensures copyAnchor == old(copyAnchor) && copyPos == old(copyPos) && copyScrollOffset == old(copyScrollOffset)
      ensures old(copyAnchor.None? || copyPos.None?) ==>
        scrollback == old(scrollback) && pasteBuffers == old(pasteBuffers) && namedRegisters == old(namedRegisters)
        && clipboardOsc52 == old(clipboardOsc52) && copyRegister == old(copyRegister)
      ensures old(copyAnchor.Some? && copyPos.Some?) ==>
        var text := YankText(
          Selection(old(selectionMode), old(copyAnchor.value.0) - old(copyAnchorScroll), old(copyAnchor.value.1),
                    old(copyPos.value.0) - old(copyScrollOffset), old(copyPos.value.1), cols),
          buffer);
        && scrollback == Min(copyScrollOffset, |buffer.history|)
        && pasteBuffers == ([text] + old(pasteBuffers))[..Min(1 + old(|pasteBuffers|), Max(10, old(|pasteBuffers|)))]
        && namedRegisters == (if old(copyRegister.Some?) then old(namedRegisters)[old(copyRegister.value) := text] else old(namedRegisters))
        && copyRegister == None
        && clipboardOsc52 == (if old(clipboardEnabled) then Some(text) else old(clipboardOsc52))
    {
      if copyAnchor.None? || copyPos.None? {
        return;
      }
      var text := ReadSelection(Selected());
      if copyRegister.Some? {
        namedRegisters := namedRegisters[copyRegister.value := text];
        copyRegister := None;
      }
      pasteBuffers := [text] + pasteBuffers;
      if |pasteBuffers| > MAX_PASTE_BUFFERS {
        pasteBuffers := pasteBuffers[..|pasteBuffers| - 1];
      }
      if clipboardEnabled {
        clipboardOsc52 := Some(text);
      }
    }
  }

  // ----- direct reading of the selected lines -----

  function Join(parts: seq<string>, sep: string): string {
    if parts == [] then "" else if |parts| == 1 then parts[0] else Join(parts[..|parts| - 1], sep) + sep + parts[|parts| - 1]
  }

  /** Reading order of cells. */
  predicate NotAfter(l0: int, c0: int, l1: int, c1: int) {
    l0 < l1 || (l0 == l1 && c0 <= c1)
  }

  /** Which cells a selection means: a rectangle, whole lines, or everything between the two
      corners in reading order. */
  predicate Selects(sel: Selection, line: int, c: nat) {
    match sel.mode
    case RectMode => (sel.anchorCol <= c <= sel.cursorCol) || (sel.cursorCol <= c <= sel.anchorCol)
    case LineMode => true
    case CharMode =>
      || (NotAfter(sel.anchorLine, sel.anchorCol, line, c) && NotAfter(line, c, sel.cursorLine, sel.cursorCol))
      || (NotAfter(sel.cursorLine, sel.cursorCol, line, c) && NotAfter(line, c, sel.anchorLine, sel.anchorCol))
  }

  /** The selected cells among the first n columns of a line, left to right. */
  function SelectedCells(sel: Selection, row: Row, line: int, n: nat): string {
    if n == 0 then ""
    else SelectedCells(sel, row, line, n - 1) + (if Selects(sel, line, n - 1) then CellOr(row, n - 1) else "")
  }

  function Covered(sel: Selection, buffer: Buffer, line: int): string
    requires buffer.Has(line)
  {
    SelectedCells(sel, buffer.Line(line), line, sel.cols)
  }

  /** Both corners are cells of the buffer. */
  predicate InBuffer(sel: Selection, buffer: Buffer) {
    && buffer.Has(sel.anchorLine) && buffer.Has(sel.cursorLine)
    && sel.anchorCol < sel.cols && sel.cursorCol < sel.cols
  }

  /** A run of columns is a selection of cells by a condition that holds exactly there. */
  lemma {:induction false} RunIsSelection(sel: Selection, row: Row, line: int, from: nat, to: nat, n: nat)
    requires forall c :: 0 <= c < n ==> (Selects(sel, line, c) <==> from <= c <= to)
    ensures SelectedCells(sel, row, line, n) == CellRun(row, from, if to < n then to else n - 1)
    decreases n
  {
    if n > 0 {
      RunIsSelection(sel, row, line, from, to, n - 1);
    }
  }

  /** Every selected line without its trailing blanks, top to bottom. */
  function CoveredLines(sel: Selection, buffer: Buffer, n: nat): (parts: seq<string>)
    requires InBuffer(sel, buffer) && n <= sel.Total()
    ensures |parts| == n
  {
    seq(n, i requires 0 <= i < n => TrimEnd(Covered(sel, buffer, sel.Top() + i)))
  }

  function DirectText(sel: Selection, buffer: Buffer): string
    requires InBuffer(sel, buffer)
  {
    if sel.mode.CharMode? && sel.Top() == sel.Bottom() then Covered(sel, buffer, sel.Top())
    else Join(CoveredLines(sel, buffer, sel.Total()), "\n") + (if sel.mode.LineMode? then "\n" else "")
  }

  lemma NothingRead(sel: Selection, buffer: Buffer, first: int)
    ensures ReadDown(sel, buffer, first, 0) == ""
  {
  }

  /** The run of columns the program reads in the k-th line. */
  function ReadFrom(sel: Selection, k: nat): nat {
    if sel.mode.RectMode? || (sel.mode.CharMode? && sel.Total() == 1) then sel.LeftCol()
    else if sel.mode.CharMode? && k == 0 then sel.TopCol() else 0
  }

  function ReadTo(sel: Selection, k: nat): nat
    requires sel.cols > 0
  {
    if sel.mode.RectMode? || (sel.mode.CharMode? && sel.Total() == 1) then sel.RightCol()
    else if sel.mode.CharMode? && k + 1 == sel.Total() then sel.BottomCol() else sel.cols - 1
  }

  lemma ReadsTheSelectedCells(sel: Selection, buffer: Buffer, k: nat)
    requires InBuffer(sel, buffer) && k < sel.Total()
    ensures CellRun(buffer.Line(sel.Top() + k), ReadFrom(sel, k), ReadTo(sel, k)) == Covered(sel, buffer, sel.Top() + k)
  {
    hide CellRun, SelectedCells;
    var line := sel.Top() + k;
    var from, to := ReadFrom(sel, k), ReadTo(sel, k);
    assert to < sel.cols;
    forall c | 0 <= c < sel.cols
      ensures Selects(sel, line, c) <==> from <= c <= to
    {
    }
    RunIsSelection(sel, buffer.Line(line), line, from, to, sel.cols);
  }

  lemma LineTextCovers(sel: Selection, buffer: Buffer, k: nat)
    requires InBuffer(sel, buffer) && k < sel.Total() && !(sel.mode.CharMode? && sel.Total() == 1)
    ensures sel.LineText(buffer.Line(sel.Top() + k), k)
         == TrimEnd(Covered(sel, buffer, sel.Top() + k)) + (if sel.mode.LineMode? || k + 1 < sel.Total() then "\n" else "")
  {
    hide CellRun, TrimEnd, Covered;
    ReadsTheSelectedCells(sel, buffer, k);
  }

  lemma JoinSnoc(parts: seq<string>, sep: string, last: string)
    requires parts != []
    ensures Join(parts + [last], sep) == Join(parts, sep) + sep + last
  {
    assert (parts + [last])[..|parts|] == parts;
  }

  lemma JoinOne(part: string, sep: string)
    ensures Join([part], sep) == part
  {
  }

  lemma {:induction false} ReadDownJoins(sel: Selection, buffer: Buffer, n: nat)
    requires InBuffer(sel, buffer) && 1 <= n <= sel.Total() && !(sel.mode.CharMode? && sel.Total() == 1)
    ensures ReadDown(sel, buffer, sel.Top(), n)
         == Join(CoveredLines(sel, buffer, n), "\n") + (if sel.mode.LineMode? || n < sel.Total() then "\n" else "")
    decreases n
  {
    hide CellRun, TrimEnd, Covered, Selection.LineText, ReadDown, Join;
    var last := TrimEnd(Covered(sel, buffer, sel.Top() + n - 1));
    LineTextCovers(sel, buffer, n - 1);
    ReadOneMore(sel, buffer, sel.Top(), n - 1);
    if n == 1 {
      assert CoveredLines(sel, buffer, 1) == [last];
      JoinOne(last, "\n");
      NothingRead(sel, buffer, sel.Top());
    } else {
      ReadDownJoins(sel, buffer, n - 1);
      var parts := CoveredLines(sel, buffer, n - 1);
      assert CoveredLines(sel, buffer, n) == parts + [last];
      JoinSnoc(parts, "\n", last);
    }
  }

  /** However tall the selection, wherever the window stood and whichever end came first, the
      copied text is the direct reading of the selected lines. */
  lemma YankReadsEveryLineOnce(sel: Selection, buffer: Buffer)
    requires InBuffer(sel, buffer)
    ensures YankText(sel, buffer) == DirectText(sel, buffer)
  {
    hide CellRun, Covered, ReadDown;
    assert FirstLine(sel, buffer) == sel.Top() && LineCount(sel, buffer) == sel.Total();
    if sel.mode.CharMode? && sel.Total() == 1 {
      NothingRead(sel, buffer, sel.Top());
      ReadOneMore(sel, buffer, sel.Top(), 0);
      ReadsTheSelectedCells(sel, buffer, 0);
    } else {
      ReadDownJoins(sel, buffer, sel.Total());
    }
  }

  function Swapped(sel: Selection): Selection {
    Selection(sel.mode, sel.cursorLine, sel.cursorCol, sel.anchorLine, sel.anchorCol, sel.cols)
  }

  /** It does not matter which corner was the anchor. */
  lemma DirectionIrrelevant(sel: Selection, buffer: Buffer)
    requires InBuffer(sel, buffer)
    ensures YankText(Swapped(sel), buffer) == YankText(sel, buffer)
  {
    hide CellRun, TrimEnd, Covered, YankText;
    var other := Swapped(sel);
    YankReadsEveryLineOnce(sel, buffer);
    YankReadsEveryLineOnce(other, buffer);
    forall i | 0 <= i < sel.Total()
      ensures CoveredLines(other, buffer, other.Total())[i] == CoveredLines(sel, buffer, sel.Total())[i]
    {
      SameColumns(sel, buffer, sel.Top() + i);
    }
    assert CoveredLines(other, buffer, other.Total()) == CoveredLines(sel, buffer, sel.Total());
    SameColumns(sel, buffer, sel.Top());
    assert DirectText(other, buffer) == DirectText(sel, buffer);
  }

  lemma {:induction false} SameCells(sel: Selection, row: Row, line: int, n: nat)
    ensures SelectedCells(Swapped(sel), row, line, n) == SelectedCells(sel, row, line, n)
    decreases n
  {
    if n > 0 { SameCells(sel, row, line, n - 1); }
  }

  lemma SameColumns(sel: Selection, buffer: Buffer, line: int)
    requires buffer.Has(line)
    ensures Covered(Swapped(sel), buffer, line) == Covered(sel, buffer, line)
  {
    SameCells(sel, buffer.Line(line), line, sel.cols);
  }

  // ----- from marking an anchor to copying -----

  /** The cursor and the window over the pane's buffer. */
  ghost predicate Shows(v: CopyCursor.View, pane: CopyPane)
    reads pane
  {
    && v == CopyCursor.View(|pane.buffer.history|, |pane.buffer.screen|, pane.cols, pane.scrollback, pane.copyScrollOffset, v.row, v.col)
    && pane.copyPos == Some((v.row, v.col))
  }

  /** Marks the cell under the cursor as one corner of a selection. */
  method BeginSelection(pane: CopyPane, mode: SelectionMode)
    modifies pane`copyAnchor, pane`copyAnchorScroll, pane`selectionMode
    ensures pane.copyAnchor == old(pane.copyPos) && pane.copyAnchorScroll == pane.copyScrollOffset && pane.selectionMode == mode
  {
    pane.copyAnchor := pane.copyPos;
    pane.copyAnchorScroll := pane.copyScrollOffset;
    pane.selectionMode := mode;
  }

  /** One cursor move or scroll. */
  method Follow(pane: CopyPane, ghost v: CopyCursor.View, op: CopyCursor.Op)
    requires pane.Valid() && Shows(v, pane) && v.Valid()
    modifies pane`scrollback, pane`copyScrollOffset, pane`copyPos
    ensures pane.Valid() && Shows(CopyCursor.Apply(v, op), pane)
  {
    var view := CopyCursor.View(|pane.buffer.history|, |pane.buffer.screen|, pane.cols, pane.scrollback, pane.copyScrollOffset,
                                pane.copyPos.value.0, pane.copyPos.value.1);
    var next := CopyCursor.Apply(view, op);
    pane.scrollback, pane.copyScrollOffset, pane.copyPos := next.scrollback, next.offset, Some((next.row, next.col));
  }

  method FollowAll(pane: CopyPane, ghost v: CopyCursor.View, ops: seq<CopyCursor.Op>)
    requires pane.Valid() && Shows(v, pane) && v.Valid()
    modifies pane`scrollback, pane`copyScrollOffset, pane`copyPos
    ensures pane.Valid() && Shows(CopyCursor.ApplyAll(v, ops), pane)
  {
    assert ops[..0] == [];
    for i := 0 to |ops|
      invariant pane.Valid() && Shows(CopyCursor.ApplyAll(v, ops[..i]), pane)
    {
      assert ops[..i + 1][..i] == ops[..i];
      Follow(pane, CopyCursor.ApplyAll(v, ops[..i]), ops[i]);
    }
    assert ops[..|ops|] == ops;
  }

  /** Row `row` of the window at `scrollback` displays this line of the buffer. */
  ghost predicate Displays(buffer: Buffer, scrollback: nat, row: nat, line: int) {
    && scrollback <= |buffer.history| && row < |buffer.VisibleRows(scrollback)|
    && buffer.Has(line) && buffer.VisibleRows(scrollback)[row] == buffer.Line(line) && line == row - scrollback
  }

  lemma CursorDisplays(buffer: Buffer, v: CopyCursor.View)
    requires v.Valid() && v.InGrid() && v.history == |buffer.history| && v.rows == |buffer.screen|
    ensures Displays(buffer, v.scrollback, v.row, v.row - v.scrollback)
  {
    buffer.VisibleRowIsLine(v.scrollback, v.row);
  }

  /** What `direct` copies after the run is between the two lines as displayed then and now. */
  ghost predicate CopiesWhatWasShown(buffer: Buffer, v: CopyCursor.View, w: CopyCursor.View, direct: Selection, text: string) {
    && Displays(buffer, v.scrollback, v.row, direct.anchorLine) && direct.anchorCol == v.col
    && Displays(buffer, w.scrollback, w.row, direct.cursorLine) && direct.cursorCol == w.col
    && InBuffer(direct, buffer) && text == DirectText(direct, buffer)
  }

  lemma RunSelects(buffer: Buffer, v: CopyCursor.View, ops: seq<CopyCursor.Op>, mode: SelectionMode)
    requires v.Valid() && v.InGrid() && v.offset == v.scrollback && v.history == |buffer.history| && v.rows == |buffer.screen|
    ensures
      var w := CopyCursor.ApplyAll(v, ops);
      var direct := Selection(mode, v.row - v.offset, v.col, w.row - w.offset, w.col, v.cols);
      w.offset == w.scrollback <= v.history && CopiesWhatWasShown(buffer, v, w, direct, YankText(direct, buffer))
  {
    hide CopyCursor.Apply, CopyCursor.ApplyAll, CopyCursor.EverSlides, YankText, DirectText, Displays;
    var w := CopyCursor.ApplyAll(v, ops);
    CopyCursor.RunStaysInGrid(v, ops);
    CopyCursor.RecordInStepIff(v, ops);
    CursorDisplays(buffer, v);
    CursorDisplays(buffer, w);
    YankReadsEveryLineOnce(Selection(mode, v.row - v.offset, v.col, w.row - w.offset, w.col, v.cols), buffer);
  }

  /** Mark the cell under the cursor, move and scroll about, copy: the text is the direct reading
      between the line the cursor showed when the anchor was marked and the line it shows at the end,
      both as the window displayed them, however far the window has slid in between. */
  method MarkMoveAndYank(pane: CopyPane, ghost v: CopyCursor.View, mode: SelectionMode, ops: seq<CopyCursor.Op>)
    requires pane.Valid() && Shows(v, pane) && v.Valid() && v.InGrid() && v.offset == v.scrollback
    modifies pane
    ensures
      var w := CopyCursor.ApplyAll(v, ops);
      var direct := Selection(mode, v.row - v.scrollback, v.col, w.row - w.scrollback, w.col, pane.cols);
      && |pane.pasteBuffers| > 0 && CopiesWhatWasShown(pane.buffer, v, w, direct, pane.pasteBuffers[0])
      && pane.scrollback == w.scrollback
  {
    hide CopiesWhatWasShown, YankText, CopyCursor.Apply;
    BeginSelection(pane, mode);
    FollowAll(pane, v, ops);
    RunSelects(pane.buffer, v, ops, mode);
    ghost var w := CopyCursor.ApplyAll(v, ops);
    YankMarked(pane, v, w, mode);
  }

  method YankMarked(pane: CopyPane, ghost v: CopyCursor.View, ghost w: CopyCursor.View, ghost mode: SelectionMode)
    requires pane.Valid() && Shows(w, pane) && w.offset == w.scrollback && v.offset == v.scrollback
    requires pane.copyAnchor == Some((v.row, v.col)) && pane.copyAnchorScroll == v.offset && pane.selectionMode == mode
    modifies pane
    ensures pane.scrollback == w.scrollback
    ensures |pane.pasteBuffers| > 0
    ensures pane.pasteBuffers[0]
         == YankText(Selection(mode, v.row - v.offset, v.col, w.row - w.offset, w.col, pane.cols), pane.buffer)
  {
    pane.YankSelection();
  }
}
