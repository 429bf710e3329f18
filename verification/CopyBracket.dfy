/** Jumping to the matching bracket (core/src/copy_mode.rs).

The search walks the visible grid cell by cell with a depth counter.  In terms of the
grid read as one text it lands on the first position where the brackets balance. */
module CopyBracket {
  import opened Text

  datatype Pair = Pair(open: char, close: char)

  datatype Jump = Jump(pair: Pair, forward: bool)

  /** Which pair the character belongs to and which way its partner lies. */
  function JumpFrom(ch: char): Option<Jump> {
    match ch
    case '(' => Some(Jump(Pair('(', ')'), true))
    case ')' => Some(Jump(Pair('(', ')'), false))
    case '[' => Some(Jump(Pair('[', ']'), true))
    case ']' => Some(Jump(Pair('[', ']'), false))
    case '{' => Some(Jump(Pair('{', '}'), true))
    case '}' => Some(Jump(Pair('{', '}'), false))
    case '<' => Some(Jump(Pair('<', '>'), true))
    case '>' => Some(Jump(Pair('<', '>'), false))
    case _ => None
  }

  // ----- brackets in a text -----

  function Weight(p: Pair, ch: char): int {
    if ch == p.open then 1 else if ch == p.close then -1 else 0
  }

  /** Opening minus closing brackets among the first k characters. */
  function Level(text: string, p: Pair, k: nat): int
    requires k <= |text|
  {
    if k == 0 then 0 else Level(text, p, k - 1) + Weight(p, text[k - 1])
  }

  /** j is the first position after i at which the brackets from i on balance. */
  ghost predicate ForwardMatch(text: string, p: Pair, i: nat, j: nat) {
    && i < j < |text| && Level(text, p, j + 1) == Level(text, p, i)
    && forall k :: i < k <= j ==> Level(text, p, k) != Level(text, p, i)
  }

  /** j is the last position before i from which the brackets up to i balance. */
  ghost predicate BackwardMatch(text: string, p: Pair, i: nat, j: nat) {
    && j < i < |text| && Level(text, p, j) == Level(text, p, i + 1)
    && forall k :: j < k <= i ==> Level(text, p, k) != Level(text, p, i + 1)
  }

  ghost predicate IsMatch(text: string, i: nat, j: nat) {
    i < |text| &&
    match JumpFrom(text[i])
    case None => false
    case Some(Jump(p, forward)) => if forward then ForwardMatch(text, p, i, j) else BackwardMatch(text, p, i, j)
  }

  lemma MatchUnique(text: string, i: nat, j: nat, k: nat)
    requires IsMatch(text, i, j) && IsMatch(text, i, k)
    ensures j == k
  {
  }

  /** Inside a forward match the level stays above where it began. */
  lemma {:induction false} LevelAbove(text: string, p: Pair, i: nat, j: nat, k: nat)
    requires ForwardMatch(text, p, i, j) && text[i] == p.open && i < k <= j
    ensures Level(text, p, k) > Level(text, p, i)
    decreases k
  {
    if k > i + 1 {
      LevelAbove(text, p, i, j, k - 1);
    }
  }

  /** Inside a backward match the level stays above where the match ends. */
  lemma {:induction false} LevelAboveBackward(text: string, p: Pair, i: nat, j: nat, k: nat)
    requires BackwardMatch(text, p, i, j) && p.open != p.close && text[i] == p.close && j < k <= i
    ensures Level(text, p, k) > Level(text, p, i + 1)
    decreases i - k
  {
    if k < i {
      LevelAboveBackward(text, p, i, j, k + 1);
    }
  }

  /** The partner of a bracket is a bracket of the other kind, and its partner is the first. */
  lemma MatchIsInvolution(text: string, i: nat, j: nat)
    requires IsMatch(text, i, j)
    ensures IsMatch(text, j, i)
  {
    var Jump(p, forward) := JumpFrom(text[i]).value;
    if forward {
      LevelAbove(text, p, i, j, j);
      assert text[j] == p.close;
      forall k | i < k <= j
        ensures Level(text, p, k) != Level(text, p, j + 1)
      {
        LevelAbove(text, p, i, j, k);
      }
    } else {
      LevelAboveBackward(text, p, i, j, j + 1);
      assert text[j] == p.open;
      forall k | j < k <= i
        ensures Level(text, p, k) != Level(text, p, j)
      {
        LevelAboveBackward(text, p, i, j, k);
      }
    }
  }

  function Partner(ch: char): char {
    match ch
    case '(' => ')' case ')' => '(' case '[' => ']' case ']' => '['
    case '{' => '}' case '}' => '{' case '<' => '>' case '>' => '<'
    case _ => ch
  }

  /** The match of an opening bracket is its closing partner further on, and the other way round. */
  lemma MatchIsPartner(text: string, i: nat, j: nat)
    requires IsMatch(text, i, j)
    ensures text[i] in "([{<>}])" && text[j] == Partner(text[i])
    ensures i < j <==> text[i] in "([{<"
  {
    var Jump(p, forward) := JumpFrom(text[i]).value;
    if forward {
      LevelAbove(text, p, i, j, j);
    } else {
      LevelAboveBackward(text, p, i, j, j + 1);
    }
  }

  /** The search has walked from i to `at` without meeting the partner. */
  ghost predicate Searching(text: string, jump: Jump, i: nat, at: nat, depth: int) {
    && i < |text| && at < |text|
    && if jump.forward
       then i <= at && depth == Level(text, jump.pair, at + 1) - Level(text, jump.pair, i)
            && forall k :: i < k <= at + 1 ==> Level(text, jump.pair, k) != Level(text, jump.pair, i)
       else at <= i && depth == Level(text, jump.pair, at) - Level(text, jump.pair, i + 1)
            && forall k :: at <= k <= i ==> Level(text, jump.pair, k) != Level(text, jump.pair, i + 1)
  }

  lemma NoBracketNoMatch(text: string, i: nat)
    requires i < |text| && JumpFrom(text[i]).None?
    ensures !exists j: nat :: IsMatch(text, i, j)
  {
  }

  lemma SearchBegins(text: string, i: nat)
    requires i < |text| && JumpFrom(text[i]).Some?
    ensures Searching(text, JumpFrom(text[i]).value, i, i, 1)
  {
  }

  lemma SearchStep(text: string, i: nat, at: nat, depth: int, next: nat, depth': int)
    requires i < |text| && JumpFrom(text[i]).Some?
    requires Searching(text, JumpFrom(text[i]).value, i, at, depth) && next < |text|
    requires next == if JumpFrom(text[i]).value.forward then at + 1 else at - 1
    requires
      var jump := JumpFrom(text[i]).value;
      depth' == depth + (if jump.forward then Weight(jump.pair, text[next]) else -Weight(jump.pair, text[next]))
    ensures if depth' == 0 then IsMatch(text, i, next) else Searching(text, JumpFrom(text[i]).value, i, next, depth')
  {
  }

  lemma SearchFails(text: string, i: nat, at: nat, depth: int)
    requires i < |text| && JumpFrom(text[i]).Some?
    requires Searching(text, JumpFrom(text[i]).value, i, at, depth)
    requires at == if JumpFrom(text[i]).value.forward then |text| - 1 else 0
    ensures !exists j: nat :: IsMatch(text, i, j)
  {
    forall j: nat
      ensures !IsMatch(text, i, j)
    {
      if JumpFrom(text[i]).value.forward && i < j < |text| {
        assert Level(text, JumpFrom(text[i]).value.pair, j + 1) != Level(text, JumpFrom(text[i]).value.pair, i);
      }
    }
  }

  // ----- the grid as one text -----

  ghost predicate Rectangular(grid: seq<string>, cols: nat) {
    forall r :: 0 <= r < |grid| ==> |grid[r]| == cols
  }

  function Reading(grid: seq<string>): string {
    if grid == [] then "" else Reading(grid[..|grid| - 1]) + grid[|grid| - 1]
  }

  function Index(r: nat, c: nat, cols: nat): nat {
    r * cols + c
  }

  lemma {:induction false} ReadingAt(grid: seq<string>, cols: nat, r: nat, c: nat)
    requires Rectangular(grid, cols) && r < |grid| && c < cols
    ensures |Reading(grid)| == |grid| * cols
    ensures Index(r, c, cols) < |Reading(grid)| && Reading(grid)[Index(r, c, cols)] == grid[r][c]
    decreases |grid|
  {
    var above := grid[..|grid| - 1];
    if r < |above| {
      ReadingAt(above, cols, r, c);
    } else if above != [] {
      ReadingAt(above, cols, 0, c);
    }
    assert |grid| * cols == |above| * cols + cols;
  }

  lemma {:induction false} RowsApart(r: nat, r': nat, cols: nat)
    requires r < r'
    ensures r * cols + cols <= r' * cols
    decreases r'
  {
    assert r' * cols == (r' - 1) * cols + cols;
    if r + 1 < r' {
      RowsApart(r, r' - 1, cols);
    }
  }

  lemma IndexInjective(r: nat, c: nat, r': nat, c': nat, cols: nat)
    requires c < cols && c' < cols && Index(r, c, cols) == Index(r', c', cols)
    ensures r == r' && c == c'
  {
    if r < r' {
      RowsApart(r, r', cols);
    } else if r' < r {
      RowsApart(r', r, cols);
    }
  }

  /** The visible part of the pane; each cell is represented by its first character, a blank cell by ' '. */
  class BracketView {
    const grid: seq<string>
    const cols: nat
    var copyPos: Option<(nat, nat)>
    const terminalCursor: (nat, nat)

    ghost predicate Valid() {
      Rectangular(grid, cols)
    }

    constructor (grid: seq<string>, cols: nat, terminalCursor: (nat, nat))
      requires Rectangular(grid, cols)
      ensures Valid() && this.grid == grid && this.cols == cols && copyPos == None
    {
      this.grid, this.cols, this.terminalCursor := grid, cols, terminalCursor;
      copyPos := None;
    }

    function CharAt(r: nat, c: nat): char
      requires Valid()
    {
      if r < |grid| && c < cols then grid[r][c] else ' '
    }

    function Pos(): (nat, nat)
      reads this
    {
      if copyPos.Some? then copyPos.value else terminalCursor
    }

    predicate InGrid(p: (nat, nat)) {
      p.0 < |grid| && p.1 < cols
    }

    /** One cell on in reading order. */
    method Advance(r: nat, c: nat) returns (cr: nat, cc: nat)
      requires Valid() && InGrid((r, c))
      ensures cc < cols && Index(cr, cc, cols) == Index(r, c, cols) + 1
    {
      cr, cc := r, c + 1;
      if cc >= cols {
        cc, cr := 0, r + 1;
        assert (r + 1) * cols == r * cols + cols;
      }
    }

    /** One cell back; only called when there is one. */
    method Retreat(r: nat, c: nat) returns (cr: nat, cc: nat)
      requires Valid() && InGrid((r, c)) && (r > 0 || c > 0)
      ensures InGrid((cr, cc)) && Index(cr, cc, cols) == Index(r, c, cols) - 1
    {
      if c == 0 {
        cr, cc := r - 1, cols - 1;
        assert r * cols == (r - 1) * cols + cols;
      } else {
        cr, cc := r, c - 1;
      }
    }

    method MoveMatchingBracket()
      requires Valid()
      modifies this
      ensures Valid()
      ensures InGrid(old(Pos())) ==>
        var text := Reading(grid);
        var i := Index(old(Pos()).0, old(Pos()).1, cols);
        if exists j: nat :: IsMatch(text, i, j)
        then copyPos.Some? && InGrid(copyPos.value) && IsMatch(text, i, Index(copyPos.value.0, copyPos.value.1, cols))
        else copyPos == old(copyPos)
      ensures !InGrid(old(Pos())) ==> copyPos == old(copyPos)
    {
      var r: nat, c: nat := Pos().0, Pos().1;
      if InGrid((r, c)) {
        ReadingAt(grid, cols, r, c);
      }
      var jump := JumpFrom(CharAt(r, c));
      if jump.None? {
        if InGrid((r, c)) { NoBracketNoMatch(Reading(grid), Index(r, c, cols)); }
        return;
      }
      var Jump(pair, forward) := jump.value;
      ghost var text := Reading(grid);
      ghost var i := Index(r, c, cols);
      var depth := 1;
      var cr: nat, cc: nat := r, c;
      SearchBegins(text, i);
      while true
        invariant InGrid((cr, cc)) && |text| == |grid| * cols && copyPos == old(copyPos)
        invariant Searching(text, jump.value, i, Index(cr, cc, cols), depth)
        decreases if forward then |text| - Index(cr, cc, cols) else Index(cr, cc, cols)
      {
        ghost var at := Index(cr, cc, cols);
        if forward {
          cr, cc := Advance(cr, cc);
          if cr >= |grid| {
            RowsBelow(cr);
            SearchFails(text, i, at, depth);
            return;
          }
        } else {
          if cc == 0 && cr == 0 {
            SearchFails(text, i, at, depth);
            return;
          }
          cr, cc := Retreat(cr, cc);
        }
        ReadingAt(grid, cols, cr, cc);
        var cell := CharAt(cr, cc);
        ghost var before := depth;
        if cell == pair.open { depth := depth + (if forward then 1 else -1); }
        if cell == pair.close { depth := depth + (if forward then -1 else 1); }
        SearchStep(text, i, at, before, Index(cr, cc, cols), depth);
        if depth == 0 {
          copyPos := Some((cr, cc));
          return;
        }
      }
    }

    /** Two jumps in a row come back to the starting cell, and a cell without partner is never left. */
    method JumpTwice()
      requires Valid()
      modifies this
      ensures Valid() && Pos() == old(Pos())
      ensures
        var (r, c) := old(Pos());
        copyPos ==
        if InGrid((r, c)) && exists j: nat :: IsMatch(Reading(grid), Index(r, c, cols), j) then Some((r, c))
        else old(copyPos)
    {
      ghost var p := Pos();
      MoveMatchingBracket();
      ghost var q := Pos();
      ghost var landed := InGrid(p) && exists j: nat :: IsMatch(Reading(grid), Index(p.0, p.1, cols), j);
      if landed {
        MatchIsInvolution(Reading(grid), Index(p.0, p.1, cols), Index(q.0, q.1, cols));
      }
      MoveMatchingBracket();
      if landed {
        JumpTwiceReturns(grid, cols, p, q, Pos());
      }
    }

    lemma RowsBelow(r: nat)
      requires r >= |grid|
      ensures r * cols >= |grid| * cols
    {
      if r > |grid| {
        RowsApart(|grid|, r, cols);
      }
    }
  }

  /** The cell matched by a match is the first one. */
  lemma JumpTwiceReturns(grid: seq<string>, cols: nat, p: (nat, nat), q: (nat, nat), back: (nat, nat))
    requires Rectangular(grid, cols)
    requires p.0 < |grid| && p.1 < cols && q.0 < |grid| && q.1 < cols && back.0 < |grid| && back.1 < cols
    requires IsMatch(Reading(grid), Index(p.0, p.1, cols), Index(q.0, q.1, cols))
    requires IsMatch(Reading(grid), Index(q.0, q.1, cols), Index(back.0, back.1, cols))
    ensures back == p
  {
    MatchIsInvolution(Reading(grid), Index(p.0, p.1, cols), Index(q.0, q.1, cols));
    MatchUnique(Reading(grid), Index(q.0, q.1, cols), Index(p.0, p.1, cols), Index(back.0, back.1, cols));
    IndexInjective(p.0, p.1, back.0, back.1, cols);
  }
}
