/** The part of the terminal parser that copy mode relies on (vt100 grid): lines that have
    scrolled off, the lines on screen, and a scrollback offset that slides a window of screen
    height over both. */
module Terminal {

  type Row = seq<string>

  /** Lines above the screen have negative absolute numbers; the screen starts at line 0. */
  datatype Buffer = Buffer(history: seq<Row>, screen: seq<Row>)
  {
    predicate Has(line: int) {
      -|history| <= line < |screen|
    }

    function Line(line: int): Row
      requires Has(line)
    {
      (history + screen)[|history| + line]
    }

    /** The rows in view: the last `scrollback` history lines, at most a screenful, then the top
        of the screen. */
    function VisibleRows(scrollback: nat): seq<Row>
      requires scrollback <= |history|
    {
      var older := history[|history| - scrollback..];
      (if |older| <= |screen| then older else older[..|screen|])
      + screen[..if scrollback <= |screen| then |screen| - scrollback else 0]
    }

    /** Row r of the view shows absolute line r - scrollback. */
    lemma VisibleRowIsLine(scrollback: nat, r: nat)
      requires scrollback <= |history| && r < |screen|
      ensures |VisibleRows(scrollback)| == |screen|
      ensures Has(r - scrollback) && VisibleRows(scrollback)[r] == Line(r - scrollback)
    {
    }
  }

  /** What the two corners of a selection span. */
  datatype SelectionMode = CharMode | LineMode | RectMode

  /** The contents of a cell; a column beyond the row reads as a blank. */
  function CellOr(row: Row, c: nat): string {
    if c < |row| then row[c] else " "
  }
}
