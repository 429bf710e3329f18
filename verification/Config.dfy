/** Conditional blocks of the configuration language (core/src/config.rs).

The loader keeps a flat stack of frames while it walks the lines; the lemmas show
that this agrees with evaluating the nested block structure recursively, for every
sequence of lines. */
module Config {
  import opened Text

  datatype Line =
    | If(condition: string)
    | Elif(condition: string)
    | Else
    | Endif
    | Hidden(name: string, value: string)
    | Command(text: string)
    | Skipped

  predicate DoubleQuote(c: char) { c == '"' }

  predicate SingleQuote(c: char) { c == '\'' }

  function Unquote(s: string): string {
    TrimWhere(TrimWhere(Trim(s), DoubleQuote), SingleQuote)
  }

  function HiddenLine(rest: string): Line {
    var eq := IndexOf(rest, '=');
    if eq == |rest| then Skipped else Hidden(Trim(rest[..eq]), Unquote(rest[eq + 1..]))
  }

  // ----- lines continued by a trailing backslash -----

  predicate Backslash(c: char) { c == '\\' }

  predicate Continues(line: string) { line != "" && Backslash(line[|line| - 1]) }

  /** The logical lines of a file, `pending` being what earlier lines left to be continued. */
  function Joined(raw: seq<string>, pending: string): seq<string>
    decreases |raw|
  {
    if raw == [] then (if pending == "" then [] else [pending])
    else
      var line := TrimEnd(raw[0]);
      if Continues(line) then Joined(raw[1..], pending + TrimEndWhere(line, Backslash) + " ")
      else [pending + line] + Joined(raw[1..], "")
  }

  /** A line broken into pieces, each but the last followed by a backslash. */
  function Broken(pieces: seq<string>): (raw: seq<string>)
    ensures |raw| == |pieces|
  {
    seq(|pieces|, i requires 0 <= i < |pieces| => pieces[i] + "\\")
  }

  function Spaced(pieces: seq<string>): string {
    if pieces == [] then "" else pieces[0] + " " + Spaced(pieces[1..])
  }

  lemma TrimBroken(piece: string)
    requires !Continues(piece)
    ensures Continues(TrimEnd(piece + "\\")) && TrimEndWhere(TrimEnd(piece + "\\"), Backslash) == piece
  {
    var line := piece + "\\";
    assert line[|line| - 1] == '\\' && line[..|line| - 1] == piece;
    assert TrimEnd(line) == line;
  }

  lemma JoinPiece(piece: string, raw: seq<string>, pending: string)
    requires !Continues(piece)
    ensures Joined([piece + "\\"] + raw, pending) == Joined(raw, pending + piece + " ")
  {
    hide TrimEnd, TrimEndWhere;
    TrimBroken(piece);
    assert ([piece + "\\"] + raw)[1..] == raw;
  }

  lemma JoinLast(last: string, raw: seq<string>, pending: string)
    requires TrimEnd(last) == last && !Continues(last)
    ensures Joined([last] + raw, pending) == [pending + last] + Joined(raw, "")
  {
    hide TrimEnd, TrimEndWhere;
    assert ([last] + raw)[1..] == raw;
  }

  /** Breaking a line with backslashes joins back to one logical line, its pieces set apart by blanks. */
  lemma {:induction false} BrokenLineJoins(pieces: seq<string>, last: string, rest: seq<string>, pending: string)
    requires forall i :: 0 <= i < |pieces| ==> !Continues(pieces[i])
    requires TrimEnd(last) == last && !Continues(last)
    ensures Joined(Broken(pieces) + ([last] + rest), pending) == [pending + Spaced(pieces) + last] + Joined(rest, "")
    decreases |pieces|
  {
    hide TrimEnd, TrimEndWhere, Joined, Continues;
    var raw := Broken(pieces) + ([last] + rest);
    if pieces == [] {
      assert raw == [last] + rest;
      JoinLast(last, rest, pending);
      assert pending + "" + last == pending + last;
    } else {
      var more := pending + pieces[0] + " ";
      assert raw == [pieces[0] + "\\"] + (Broken(pieces[1..]) + ([last] + rest));
      JoinPiece(pieces[0], Broken(pieces[1..]) + ([last] + rest), pending);
      BrokenLineJoins(pieces[1..], last, rest, more);
      assert more + Spaced(pieces[1..]) + last == pending + Spaced(pieces) + last;
    }
  }

  /** One raw line further, behind the logical lines already found. */
  lemma JoinedFrom(raw: seq<string>, i: nat, pending: string, found: seq<string>)
    requires i < |raw|
    ensures
      var line := TrimEnd(raw[i]);
      found + Joined(raw[i..], pending) ==
      if Continues(line) then found + Joined(raw[i + 1..], pending + TrimEndWhere(line, Backslash) + " ")
      else (found + [pending + line]) + Joined(raw[i + 1..], "")
  {
    hide TrimEnd, TrimEndWhere;
    assert raw[i..][0] == raw[i] && raw[i..][1..] == raw[i + 1..];
  }

  method JoinContinuations(raw: seq<string>) returns (lines: seq<string>)
    ensures lines == Joined(raw, "")
  {
    hide TrimEnd, TrimEndWhere;
    lines := [];
    var continuation := "";
    for i := 0 to |raw|
      invariant lines + Joined(raw[i..], continuation) == Joined(raw, "")
    {
      var trimmed := TrimEnd(raw[i]);
      JoinedFrom(raw, i, continuation, lines);
      if Continues(trimmed) {
        continuation := continuation + TrimEndWhere(trimmed, Backslash);
        continuation := continuation + " ";
      } else {
        assert continuation == "" ==> continuation + trimmed == trimmed;
        if continuation != "" {
          continuation := continuation + trimmed;
          lines := lines + [continuation];
          continuation := "";
        } else {
          lines := lines + [trimmed];
        }
      }
    }
    if continuation != "" {
      lines := lines + [continuation];
    }
  }

  // ----- directives -----

  /** The directive a line stands for. */
  function Classify(line: string): Line {
    var l := Trim(line);
    if l == "" then Skipped
    else if l[0] != '%' then Command(l)
    else if "%if " <= l || "%if\t" <= l then If(Unquote(l[3..]))
    else if "%elif " <= l || "%elif\t" <= l then Elif(Unquote(l[5..]))
    else if l == "%else" then Else
    else if l == "%endif" then Endif
    else if "%hidden " <= l then HiddenLine(Trim(l[8..]))
    else Skipped
  }

  /** The variables set by %hidden, and everything else a command may change. */
  datatype App<!R> = App(environment: map<string, string>, rest: R)

  /** `expand` is format expansion; `run` expands $NAME references and executes one command. */
  datatype Interpreter<!R> = Interpreter(
    expand: (string, App<R>) -> string,
    run: (string, App<R>) -> App<R>)
  {
    predicate Truthy(condition: string, app: App<R>) {
      var value := Trim(expand(condition, app));
      value != "" && value != "0"
    }

    function Execute(line: Line, app: App<R>): App<R> {
      match line
      case Hidden(name, value) => app.(environment := app.environment[name := value])
      case Command(text) => run(text, app)
      case _ => app
    }
  }

  // ----- the flat machine -----

  datatype Frame = Frame(active: bool, satisfied: bool, parentActive: bool)

  predicate Active(stack: seq<Frame>) {
    stack == [] || stack[|stack| - 1].active
  }

  datatype Machine<!R> = Machine(stack: seq<Frame>, app: App<R>)

  function ElifFrame<R>(h: Interpreter<R>, f: Frame, condition: string, app: App<R>): Frame {
    if f.parentActive && !f.satisfied then
      var result := h.Truthy(condition, app);
      Frame(result, result, true)
    else f.(active := false)
  }

  function Step<R>(h: Interpreter<R>, m: Machine<R>, line: Line): Machine<R> {
    var n := |m.stack|;
    match line
    case If(condition) =>
      var parent := Active(m.stack);
      var result := parent && h.Truthy(condition, m.app);
      m.(stack := m.stack + [Frame(parent && result, result, parent)])
    case Elif(condition) =>
      if n == 0 then m
      else m.(stack := m.stack[..n - 1] + [ElifFrame(h, m.stack[n - 1], condition, m.app)])
    case Else =>
      if n == 0 then m
      else
        var f := m.stack[n - 1];
        m.(stack := m.stack[..n - 1] + [Frame(f.parentActive && !f.satisfied, true, f.parentActive)])
    case Endif => if n == 0 then m else m.(stack := m.stack[..n - 1])
    case _ => if Active(m.stack) then m.(app := h.Execute(line, m.app)) else m
  }

  function Run<R>(h: Interpreter<R>, m: Machine<R>, lines: seq<Line>): Machine<R>
    decreases |lines|
  {
    if lines == [] then m else Run(h, Step(h, m, lines[0]), lines[1..])
  }

  function ClassifyAll(lines: seq<string>): (r: seq<Line>)
    ensures |r| == |lines| && forall i :: 0 <= i < |lines| ==> r[i] == Classify(lines[i])
  {
    seq(|lines|, i requires 0 <= i < |lines| => Classify(lines[i]))
  }

  lemma RunFrom<R>(h: Interpreter<R>, m: Machine<R>, lines: seq<Line>, i: nat)
    requires i < |lines|
    ensures Run(h, m, lines[i..]) == Run(h, Step(h, m, lines[i]), lines[i + 1..])
  {
    hide Step;
    assert lines[i..][1..] == lines[i + 1..];
  }

  class Loader<R> {
    var app: App<R>
    const host: Interpreter<R>

    constructor (host: Interpreter<R>, app: App<R>)
      ensures this.host == host && this.app == app
    {
      this.host := host;
      this.app := app;
    }

    /** One logical line: the stack of open blocks before and after it. */
    method ParseLine(line: Line, before: seq<Frame>) returns (ifStack: seq<Frame>)
      modifies this
      ensures Machine(ifStack, app) == Step(host, Machine(before, old(app)), line)
    {
      ifStack := before;
      var top := |ifStack| - 1;
      match line {
        case If(condition) =>
          var parentActive := if ifStack == [] then true else ifStack[top].active;
          var result := false;
          if parentActive {
            result := host.Truthy(condition, app);
          }
          ifStack := ifStack + [Frame(parentActive && result, result, parentActive)];
        case Elif(condition) =>
          if ifStack != [] {
            var state := ifStack[top];
            if state.parentActive && !state.satisfied {
              var result := host.Truthy(condition, app);
              state := state.(active := result);
              if result { state := state.(satisfied := true); }
            } else {
              state := state.(active := false);
            }
            ifStack := ifStack[..top] + [state];
          }
        case Else =>
          if ifStack != [] {
            var state := ifStack[top];
            state := state.(active := state.parentActive && !state.satisfied);
            state := state.(satisfied := true);
            ifStack := ifStack[..top] + [state];
          }
        case Endif =>
          if ifStack != [] {
            ifStack := ifStack[..top];
          }
        case Hidden(name, value) =>
          var active := if ifStack == [] then true else ifStack[top].active;
          if active {
            app := app.(environment := app.environment[name := value]);
          }
        case Command(text) =>
          var active := if ifStack == [] then true else ifStack[top].active;
          if active {
            app := host.run(text, app);
          }
        case Skipped =>
      }
    }

    /** A configuration file, given by its lines. */
    method ParseConfigContent(raw: seq<string>)
      modifies this
      ensures app == Run(host, Machine([], old(app)), ClassifyAll(Joined(raw, ""))).app
    {
      var lines := JoinContinuations(raw);
      var ifStack: seq<Frame> := [];
      ghost var all := ClassifyAll(lines);
      ghost var whole := Run(host, Machine([], app), all);
      for i := 0 to |lines|
        invariant Run(host, Machine(ifStack, app), all[i..]) == whole
      {
        RunFrom(host, Machine(ifStack, app), all, i);
        ifStack := ParseLine(Classify(lines[i]), ifStack);
      }
    }
  }

  // ----- testing the top frame is testing every enclosing block -----

  /** The frame remembers whether the one below it is active, and is active only if that is. */
  ghost predicate Linked(stack: seq<Frame>, i: nat)
    requires i < |stack|
  {
    stack[i].parentActive == Active(stack[..i]) && (stack[i].active ==> stack[i].parentActive)
  }

  ghost predicate Chained(stack: seq<Frame>) {
    forall i :: 0 <= i < |stack| ==> Linked(stack, i)
  }

  lemma PopChained(stack: seq<Frame>)
    requires Chained(stack) && stack != []
    ensures Chained(stack[..|stack| - 1])
  {
    var below := stack[..|stack| - 1];
    forall i | 0 <= i < |below|
      ensures Linked(below, i)
    {
      assert Linked(stack, i) && below[..i] == stack[..i];
    }
  }

  lemma PushChained(stack: seq<Frame>, f: Frame)
    requires Chained(stack) && f.parentActive == Active(stack) && (f.active ==> f.parentActive)
    ensures Chained(stack + [f])
  {
    var next := stack + [f];
    forall i | 0 <= i < |next|
      ensures Linked(next, i)
    {
      assert next[..i] == stack[..i];
      if i < |stack| {
        assert Linked(stack, i);
      } else {
        assert stack[..i] == stack;
      }
    }
  }

  lemma StepKeepsChain<R>(h: Interpreter<R>, m: Machine<R>, line: Line)
    requires Chained(m.stack)
    ensures Chained(Step(h, m, line).stack)
  {
    var n := |m.stack|;
    if n > 0 {
      PopChained(m.stack);
      assert Linked(m.stack, n - 1);
    }
    hide Chained;
    match line {
      case If(condition) => PushChained(m.stack, Step(h, m, line).stack[n]);
      case Elif(condition) => if n > 0 { PushChained(m.stack[..n - 1], ElifFrame(h, m.stack[n - 1], condition, m.app)); }
      case Else => if n > 0 { PushChained(m.stack[..n - 1], Step(h, m, line).stack[n - 1]); }
      case _ =>
    }
  }

  lemma {:induction false} RunKeepsChain<R>(h: Interpreter<R>, m: Machine<R>, lines: seq<Line>)
    requires Chained(m.stack)
    ensures Chained(Run(h, m, lines).stack)
    decreases |lines|
  {
    if lines != [] {
      hide Step, Chained;
      StepKeepsChain(h, m, lines[0]);
      RunKeepsChain(h, Step(h, m, lines[0]), lines[1..]);
    }
  }

  lemma {:induction false} ChainTop(stack: seq<Frame>)
    requires Chained(stack)
    ensures Active(stack) <==> forall i :: 0 <= i < |stack| ==> stack[i].active
    decreases |stack|
  {
    if stack != [] {
      var below := stack[..|stack| - 1];
      PopChained(stack);
      ChainTop(below);
      assert Linked(stack, |stack| - 1);
      assert forall i :: 0 <= i < |below| ==> below[i] == stack[i];
      assert (forall i :: 0 <= i < |stack| ==> stack[i].active)
        <==> stack[|stack| - 1].active && forall i :: 0 <= i < |below| ==> below[i].active;
    }
  }

  /** After any lines whatever, the top frame is active exactly when all frames are. */
  lemma TopFrameSpeaksForAll<R>(h: Interpreter<R>, app: App<R>, lines: seq<Line>)
    ensures
      var stack := Run(h, Machine([], app), lines).stack;
      && Chained(stack)
      && (Active(stack) <==> forall i :: 0 <= i < |stack| ==> stack[i].active)
  {
    RunKeepsChain(h, Machine([], app), lines);
    ChainTop(Run(h, Machine([], app), lines).stack);
  }

  // ----- the nested program -----

  datatype Program = Done | Then(first: Item, rest: Program)

  datatype Item = Plain(line: Line) | Block(condition: string, body: Program, branches: Branches)

  datatype Branches =
    | NoMore
    | ElifBranch(condition: string, body: Program, rest: Branches)
    | ElseBranch(body: Program, rest: Branches)

  predicate Directive(line: Line) {
    line.If? || line.Elif? || line.Else? || line.Endif?
  }

  /** Only commands and hidden variables stand as plain items. */
  predicate WellFormed(p: Program) {
    match p
    case Done => true
    case Then(Plain(line), rest) => !Directive(line) && WellFormed(rest)
    case Then(Block(_, body, branches), rest) => WellFormed(body) && BranchesWellFormed(branches) && WellFormed(rest)
  }

  predicate BranchesWellFormed(b: Branches) {
    match b
    case NoMore => true
    case ElifBranch(_, body, rest) => WellFormed(body) && BranchesWellFormed(rest)
    case ElseBranch(body, rest) => WellFormed(body) && BranchesWellFormed(rest)
  }

  /** Take the first branch whose condition holds; conditions read the state left so far. */
  function Eval<R>(h: Interpreter<R>, p: Program, app: App<R>): App<R> {
    match p
    case Done => app
    case Then(Plain(line), rest) => Eval(h, rest, h.Execute(line, app))
    case Then(Block(condition, body, branches), rest) =>
      var after := if h.Truthy(condition, app) then Eval(h, body, app) else EvalBranches(h, branches, app);
      Eval(h, rest, after)
  }

  function EvalBranches<R>(h: Interpreter<R>, b: Branches, app: App<R>): App<R> {
    match b
    case NoMore => app
    case ElifBranch(condition, body, rest) =>
      if h.Truthy(condition, app) then Eval(h, body, app) else EvalBranches(h, rest, app)
    case ElseBranch(body, _) => Eval(h, body, app)
  }

  function Print(p: Program): seq<Line> {
    match p
    case Done => []
    case Then(Plain(line), rest) => [line] + Print(rest)
    case Then(Block(condition, body, branches), rest) =>
      [If(condition)] + (Print(body) + (PrintBranches(branches) + ([Endif] + Print(rest))))
  }

  function PrintBranches(b: Branches): seq<Line> {
    match b
    case NoMore => []
    case ElifBranch(condition, body, rest) => [Elif(condition)] + (Print(body) + PrintBranches(rest))
    case ElseBranch(body, rest) => [Else] + (Print(body) + PrintBranches(rest))
  }

  lemma {:induction false} RunAppend<R>(h: Interpreter<R>, m: Machine<R>, a: seq<Line>, b: seq<Line>)
    ensures Run(h, m, a + b) == Run(h, Run(h, m, a), b)
    decreases |a|
  {
    hide Step;
    if a == [] {
      assert a + b == b;
    } else {
      assert (a + b)[1..] == a[1..] + b;
      RunAppend(h, Step(h, m, a[0]), a[1..], b);
    }
  }

  lemma RunCons<R>(h: Interpreter<R>, m: Machine<R>, line: Line, lines: seq<Line>)
    ensures Run(h, m, [line] + lines) == Run(h, Step(h, m, line), lines)
  {
    assert ([line] + lines)[1..] == lines;
  }

  /** Inside an inactive block a program changes nothing. */
  lemma {:induction false} SkipProgram<R>(h: Interpreter<R>, p: Program, m: Machine<R>)
    requires WellFormed(p) && !Active(m.stack)
    ensures Run(h, m, Print(p)) == m
    decreases p
  {
    match p {
      case Done =>
      case Then(Plain(line), rest) =>
        RunCons(h, m, line, Print(rest));
        SkipProgram(h, rest, m);
      case Then(Block(condition, body, branches), rest) =>
        var inner := m.stack + [Frame(false, false, false)];
        SkipProgram(h, body, Machine(inner, m.app));
        SkipBranches(h, branches, m.stack, Frame(false, false, false), m.app);
        RunBlock(h, m, condition, body, branches, rest);
        SkipProgram(h, rest, m);
    }
  }

  /** A block, line by line: open, body, branches, close, and what follows. */
  lemma RunBlock<R>(h: Interpreter<R>, m: Machine<R>, condition: string, body: Program, branches: Branches, rest: Program)
    ensures
      var entered := Step(h, m, If(condition));
      var tried := Run(h, Run(h, entered, Print(body)), PrintBranches(branches));
      Run(h, m, Print(Then(Block(condition, body, branches), rest))) == Run(h, Step(h, tried, Endif), Print(rest))
  {
    hide Step;
    var ending := [Endif] + Print(rest);
    var entered := Step(h, m, If(condition));
    RunCons(h, m, If(condition), Print(body) + (PrintBranches(branches) + ending));
    RunAppend(h, entered, Print(body), PrintBranches(branches) + ending);
    RunAppend(h, Run(h, entered, Print(body)), PrintBranches(branches), ending);
    RunCons(h, Run(h, Run(h, entered, Print(body)), PrintBranches(branches)), Endif, Print(rest));
  }

  /** Branches that cannot be taken any more: the block was never live, or one was taken. */
  lemma {:induction false} SkipBranches<R>(h: Interpreter<R>, b: Branches, below: seq<Frame>, f: Frame, app: App<R>)
    requires BranchesWellFormed(b) && (f.parentActive ==> f.satisfied)
    ensures
      var after := Run(h, Machine(below + [f], app), PrintBranches(b));
      after.app == app && |after.stack| == |below| + 1 && after.stack[..|below|] == below
    decreases b
  {
    var m := Machine(below + [f], app);
    match b {
      case NoMore =>
      case ElifBranch(condition, body, rest) =>
        var g := f.(active := false);
        assert (below + [f])[..|below|] == below;
        SkipProgram(h, body, Machine(below + [g], app));
        SkipBranches(h, rest, below, g, app);
        RunCons(h, m, Elif(condition), Print(body) + PrintBranches(rest));
        RunAppend(h, Machine(below + [g], app), Print(body), PrintBranches(rest));
      case ElseBranch(body, rest) =>
        var g := Frame(false, true, f.parentActive);
        assert (below + [f])[..|below|] == below;
        SkipProgram(h, body, Machine(below + [g], app));
        SkipBranches(h, rest, below, g, app);
        RunCons(h, m, Else, Print(body) + PrintBranches(rest));
        RunAppend(h, Machine(below + [g], app), Print(body), PrintBranches(rest));
    }
  }

  lemma {:induction false} TryBranches<R>(h: Interpreter<R>, b: Branches, below: seq<Frame>, app: App<R>)
    requires BranchesWellFormed(b)
    ensures
      var after := Run(h, Machine(below + [Frame(false, false, true)], app), PrintBranches(b));
      after.app == EvalBranches(h, b, app) && |after.stack| == |below| + 1 && after.stack[..|below|] == below
    decreases b
  {
    var f := Frame(false, false, true);
    var m := Machine(below + [f], app);
    match b {
      case NoMore =>
      case ElifBranch(condition, body, rest) =>
        var taken := h.Truthy(condition, app);
        var g := Frame(taken, taken, true);
        assert (below + [f])[..|below|] == below;
        RunCons(h, m, Elif(condition), Print(body) + PrintBranches(rest));
        RunAppend(h, Machine(below + [g], app), Print(body), PrintBranches(rest));
        if taken {
          RunProgram(h, body, Machine(below + [g], app));
          SkipBranches(h, rest, below, g, Eval(h, body, app));
        } else {
          SkipProgram(h, body, Machine(below + [g], app));
          TryBranches(h, rest, below, app);
        }
      case ElseBranch(body, rest) =>
        var g := Frame(true, true, true);
        assert (below + [f])[..|below|] == below;
        RunCons(h, m, Else, Print(body) + PrintBranches(rest));
        RunAppend(h, Machine(below + [g], app), Print(body), PrintBranches(rest));
        RunProgram(h, body, Machine(below + [g], app));
        SkipBranches(h, rest, below, g, Eval(h, body, app));
    }
  }

  /** The flat machine on the printed lines of a program is the recursive evaluator. */
  lemma {:induction false} RunProgram<R>(h: Interpreter<R>, p: Program, m: Machine<R>)
    requires WellFormed(p) && Active(m.stack)
    ensures Run(h, m, Print(p)) == m.(app := Eval(h, p, m.app))
    decreases p
  {
    match p {
      case Done =>
      case Then(Plain(line), rest) =>
        RunCons(h, m, line, Print(rest));
        RunProgram(h, rest, m.(app := h.Execute(line, m.app)));
      case Then(Block(condition, body, branches), rest) =>
        var taken := h.Truthy(condition, m.app);
        var entered := Machine(m.stack + [Frame(taken, taken, true)], m.app);
        if taken {
          RunProgram(h, body, entered);
          SkipBranches(h, branches, m.stack, Frame(true, true, true), Eval(h, body, m.app));
        } else {
          SkipProgram(h, body, entered);
          TryBranches(h, branches, m.stack, m.app);
        }
        var after := if taken then Eval(h, body, m.app) else EvalBranches(h, branches, m.app);
        RunProgram(h, rest, Machine(m.stack, after));
        RunBlock(h, m, condition, body, branches, rest);
        LeaveBlock(h, m, entered, Run(h, Run(h, entered, Print(body)), PrintBranches(branches)), condition);
    }
  }

  lemma LeaveBlock<R>(h: Interpreter<R>, m: Machine<R>, entered: Machine<R>, tried: Machine<R>, condition: string)
    requires Active(m.stack)
    requires var taken := h.Truthy(condition, m.app); entered == Machine(m.stack + [Frame(taken, taken, true)], m.app)
    requires |tried.stack| == |m.stack| + 1 && tried.stack[..|m.stack|] == m.stack
    ensures Step(h, m, If(condition)) == entered && Step(h, tried, Endif) == Machine(m.stack, tried.app)
  {
  }

  // ----- every line sequence denotes a program -----

  /** `lines` closes `depth` open blocks and otherwise nests properly. */
  predicate Balanced(lines: seq<Line>, depth: nat) {
    if lines == [] then depth == 0
    else
      match lines[0]
      case If(_) => Balanced(lines[1..], depth + 1)
      case Elif(_) => depth > 0 && Balanced(lines[1..], depth)
      case Else => depth > 0 && Balanced(lines[1..], depth)
      case Endif => depth > 0 && Balanced(lines[1..], depth - 1)
      case _ => Balanced(lines[1..], depth)
  }

  /** Drop directives that belong to no block and close the blocks left open at the end. */
  function Repair(lines: seq<Line>, depth: nat): seq<Line>
    decreases |lines|, depth
  {
    if lines == [] then (if depth == 0 then [] else [Endif] + Repair(lines, depth - 1))
    else
      match lines[0]
      case If(_) => [lines[0]] + Repair(lines[1..], depth + 1)
      case Endif => if depth == 0 then Repair(lines[1..], 0) else [Endif] + Repair(lines[1..], depth - 1)
      case Elif(_) => if depth == 0 then Repair(lines[1..], 0) else [lines[0]] + Repair(lines[1..], depth)
      case Else => if depth == 0 then Repair(lines[1..], 0) else [lines[0]] + Repair(lines[1..], depth)
      case _ => [lines[0]] + Repair(lines[1..], depth)
  }

  predicate ClosesBlock(lines: seq<Line>) {
    lines != [] && (lines[0].Elif? || lines[0].Else? || lines[0].Endif?)
  }

  /** Recursive descent: items up to the next line that belongs to an enclosing block. */
  function ParseProgram(lines: seq<Line>): (r: (Program, seq<Line>))
    ensures |r.1| <= |lines|
    decreases |lines|, 1
  {
    if lines == [] || ClosesBlock(lines) then (Done, lines)
    else if lines[0].If? then
      var (body, afterBody) := ParseProgram(lines[1..]);
      var (branches, afterBlock) := ParseBranches(afterBody);
      var (rest, left) := ParseProgram(afterBlock);
      (Then(Block(lines[0].condition, body, branches), rest), left)
    else
      var (rest, left) := ParseProgram(lines[1..]);
      (Then(Plain(lines[0]), rest), left)
  }

  function ParseBranches(lines: seq<Line>): (r: (Branches, seq<Line>))
    ensures |r.1| <= |lines|
    decreases |lines|, 0
  {
    if !ClosesBlock(lines) then (NoMore, lines)
    else if lines[0].Endif? then (NoMore, lines[1..])
    else
      var (body, afterBody) := ParseProgram(lines[1..]);
      var (rest, left) := ParseBranches(afterBody);
      (if lines[0].Elif? then ElifBranch(lines[0].condition, body, rest) else ElseBranch(body, rest), left)
  }

  lemma {:induction false} RepairBalances(lines: seq<Line>, depth: nat)
    ensures Balanced(Repair(lines, depth), depth)
    decreases |lines|, depth
  {
    var r := Repair(lines, depth);
    if lines == [] {
      if depth > 0 {
        RepairBalances(lines, depth - 1);
        assert r[1..] == Repair(lines, depth - 1);
      }
    } else if depth == 0 && ClosesBlock(lines) {
      RepairBalances(lines[1..], 0);
    } else {
      var next := if lines[0].If? then depth + 1 else if lines[0].Endif? then depth - 1 else depth;
      RepairBalances(lines[1..], next);
      assert r[0] == lines[0] && r[1..] == Repair(lines[1..], next);
    }
  }

  lemma {:induction false} RepairRuns<R>(h: Interpreter<R>, m: Machine<R>, lines: seq<Line>)
    ensures Run(h, m, Repair(lines, |m.stack|)).app == Run(h, m, lines).app
    decreases |lines|, |m.stack|
  {
    var depth := |m.stack|;
    if lines == [] {
      if depth > 0 {
        RunCons(h, m, Endif, Repair(lines, depth - 1));
        RepairRuns(h, Step(h, m, Endif), lines);
      }
    } else {
      var next := Step(h, m, lines[0]);
      RepairRuns(h, next, lines[1..]);
      if depth > 0 || !ClosesBlock(lines) {
        RunCons(h, m, lines[0], Repair(lines[1..], |next.stack|));
      }
    }
  }

  /** The program parsed from `lines` prints back to what was read, and the rest closes `depth` blocks. */
  ghost predicate ProgramExact(lines: seq<Line>, depth: nat) {
    var (p, left) := ParseProgram(lines);
    && WellFormed(p) && lines == Print(p) + left && Balanced(left, depth)
    && (if depth == 0 then left == [] else ClosesBlock(left))
  }

  ghost predicate BranchesExact(lines: seq<Line>, depth: nat)
    requires depth > 0
  {
    var (b, left) := ParseBranches(lines);
    BranchesWellFormed(b) && lines == PrintBranches(b) + ([Endif] + left) && Balanced(left, depth - 1)
  }

  lemma EmptyExact(lines: seq<Line>, depth: nat)
    requires Balanced(lines, depth) && (lines == [] || ClosesBlock(lines))
    ensures ProgramExact(lines, depth)
  {
    PrintOfPlain(Skipped, Done);
  }

  lemma BlockExact(lines: seq<Line>, depth: nat)
    requires lines != [] && lines[0].If? && ProgramExact(lines[1..], depth + 1)
    requires
      var afterBody := ParseProgram(lines[1..]).1;
      BranchesExact(afterBody, depth + 1) && ProgramExact(ParseBranches(afterBody).1, depth)
    ensures ProgramExact(lines, depth)
  {
    hide Print, PrintBranches, Balanced;
    var (body, afterBody) := ParseProgram(lines[1..]);
    var (branches, afterBlock) := ParseBranches(afterBody);
    var (rest, left) := ParseProgram(afterBlock);
    PrintBlock(lines, body, afterBody, branches, afterBlock, rest, left);
  }

  lemma Regroup<T>(a: seq<T>, b: seq<T>, c: seq<T>, d: seq<T>)
    ensures a + (b + (c + d)) == (a + (b + c)) + d
  {
  }

  lemma PlainExact(lines: seq<Line>, depth: nat)
    requires lines != [] && !ClosesBlock(lines) && !lines[0].If? && ProgramExact(lines[1..], depth)
    ensures ProgramExact(lines, depth)
  {
    hide Print, Balanced;
    var (rest, left) := ParseProgram(lines[1..]);
    PrintOfPlain(lines[0], rest);
    assert lines == [lines[0]] + lines[1..];
    Regroup([lines[0]], Print(rest), [], left);
    assert Print(rest) + [] == Print(rest) && [] + left == left;
  }

  lemma {:induction false} ParseProgramExact(lines: seq<Line>, depth: nat)
    requires Balanced(lines, depth)
    ensures ProgramExact(lines, depth)
    decreases |lines|, 1
  {
    hide Print, PrintBranches, WellFormed, BranchesWellFormed;
    if lines == [] || ClosesBlock(lines) {
      EmptyExact(lines, depth);
    } else if lines[0].If? {
      ParseProgramExact(lines[1..], depth + 1);
      var afterBody := ParseProgram(lines[1..]).1;
      ParseBranchesExact(afterBody, depth + 1);
      ParseProgramExact(ParseBranches(afterBody).1, depth);
      BlockExact(lines, depth);
    } else {
      ParseProgramExact(lines[1..], depth);
      PlainExact(lines, depth);
    }
  }

  lemma PrintOfPlain(line: Line, rest: Program)
    ensures Print(Done) == [] && Print(Then(Plain(line), rest)) == [line] + Print(rest)
  {
  }

  lemma PrintBlock(lines: seq<Line>, body: Program, afterBody: seq<Line>, branches: Branches, afterBlock: seq<Line>, rest: Program, left: seq<Line>)
    requires lines != [] && lines[0].If? && lines[1..] == Print(body) + afterBody
    requires afterBody == PrintBranches(branches) + ([Endif] + afterBlock) && afterBlock == Print(rest) + left
    ensures lines == Print(Then(Block(lines[0].condition, body, branches), rest)) + left
  {
    hide Print, PrintBranches;
    var b, c, r := Print(body), PrintBranches(branches), Print(rest);
    assert lines == [lines[0]] + (b + (c + ([Endif] + (r + left))));
    assert lines == [lines[0]] + (b + (c + ([Endif] + r))) + left;
    PrintOfBlock(lines[0].condition, body, branches, rest);
  }

  lemma PrintOfBlock(condition: string, body: Program, branches: Branches, rest: Program)
    ensures Print(Then(Block(condition, body, branches), rest))
         == [If(condition)] + (Print(body) + (PrintBranches(branches) + ([Endif] + Print(rest))))
  {
  }

  function BranchOf(line: Line, body: Program, rest: Branches): Branches
    requires line.Elif? || line.Else?
  {
    if line.Elif? then ElifBranch(line.condition, body, rest) else ElseBranch(body, rest)
  }

  lemma ParseBranchStep(lines: seq<Line>)
    requires ClosesBlock(lines) && !lines[0].Endif?
    ensures
      var (body, afterBody) := ParseProgram(lines[1..]);
      var (rest, left) := ParseBranches(afterBody);
      ParseBranches(lines) == (BranchOf(lines[0], body, rest), left)
  {
    hide ParseProgram;
  }

  lemma PrintOfBranch(line: Line, body: Program, rest: Branches)
    requires line.Elif? || line.Else?
    ensures PrintBranches(BranchOf(line, body, rest)) == [line] + (Print(body) + PrintBranches(rest))
    ensures BranchesWellFormed(BranchOf(line, body, rest)) <==> WellFormed(body) && BranchesWellFormed(rest)
  {
    hide Print, WellFormed;
  }

  lemma BranchExact(lines: seq<Line>, depth: nat)
    requires depth > 0 && ClosesBlock(lines) && !lines[0].Endif? && ProgramExact(lines[1..], depth)
    requires BranchesExact(ParseProgram(lines[1..]).1, depth)
    ensures BranchesExact(lines, depth)
  {
    hide Print, PrintBranches, Balanced, WellFormed, BranchesWellFormed, ParseProgram, ParseBranches, BranchOf;
    ParseBranchStep(lines);
    var (body, afterBody) := ParseProgram(lines[1..]);
    var (rest, left) := ParseBranches(afterBody);
    assert lines == [lines[0]] + lines[1..];
    Regroup([lines[0]], Print(body), PrintBranches(rest), [Endif] + left);
    PrintOfBranch(lines[0], body, rest);
  }

  lemma EndifExact(lines: seq<Line>, depth: nat)
    requires depth > 0 && lines != [] && lines[0].Endif? && Balanced(lines, depth)
    ensures BranchesExact(lines, depth)
  {
    assert lines == [] + ([Endif] + lines[1..]);
  }

  lemma {:induction false} ParseBranchesExact(lines: seq<Line>, depth: nat)
    requires Balanced(lines, depth) && depth > 0 && ClosesBlock(lines)
    ensures BranchesExact(lines, depth)
    decreases |lines|, 0
  {
    hide Print, PrintBranches, WellFormed, BranchesWellFormed;
    if lines[0].Endif? {
      EndifExact(lines, depth);
    } else {
      ParseProgramExact(lines[1..], depth);
      ParseBranchesExact(ParseProgram(lines[1..]).1, depth);
      BranchExact(lines, depth);
    }
  }

  function Tree(lines: seq<Line>): Program {
    ParseProgram(Repair(lines, 0)).0
  }

  /** A properly nested sequence is left alone by the repair, so its tree prints back to it. */
  lemma {:induction false} RepairBalanced(lines: seq<Line>, depth: nat)
    requires Balanced(lines, depth)
    ensures Repair(lines, depth) == lines
    decreases |lines|
  {
    if lines != [] {
      var next := if lines[0].If? then depth + 1 else if lines[0].Endif? then depth - 1 else depth;
      RepairBalanced(lines[1..], next);
      assert lines == [lines[0]] + lines[1..];
      assert Repair(lines, depth) == [lines[0]] + Repair(lines[1..], next);
    }
  }

  lemma TreePrintsBack(lines: seq<Line>)
    ensures WellFormed(Tree(lines)) && Print(Tree(lines)) == Repair(lines, 0)
    ensures Balanced(lines, 0) ==> Print(Tree(lines)) == lines
  {
    RepairBalances(lines, 0);
    ParseProgramExact(Repair(lines, 0), 0);
    if Balanced(lines, 0) {
      RepairBalanced(lines, 0);
    }
  }

  /** For every sequence of lines, nested or not, the flat machine leaves the state that recursive
      evaluation of its tree leaves. */
  lemma FlatMachineIsRecursive<R>(h: Interpreter<R>, app: App<R>, lines: seq<Line>)
    ensures Run(h, Machine([], app), lines).app == Eval(h, Tree(lines), app)
  {
    var m := Machine([], app);
    TreePrintsBack(lines);
    RepairRuns(h, m, lines);
    RunProgram(h, Tree(lines), m);
  }

  /** After any lines, a %hidden line sets its variable and a command runs exactly when all enclosing
      blocks are active; otherwise nothing changes. */
  lemma LineTakesEffectIff<R>(h: Interpreter<R>, app: App<R>, lines: seq<Line>, line: Line)
    requires line.Hidden? || line.Command?
    ensures
      var m := Run(h, Machine([], app), lines);
      Run(h, Machine([], app), lines + [line]) ==
      if exists i :: 0 <= i < |m.stack| && !m.stack[i].active then m
      else if line.Hidden? then m.(app := App(m.app.environment[line.name := line.value], m.app.rest))
      else m.(app := h.run(line.text, m.app))
  {
    hide Step;
    RunAppend(h, Machine([], app), lines, [line]);
    var m := Run(h, Machine([], app), lines);
    RunOne(h, m, line);
    TopFrameSpeaksForAll(h, app, lines);
    EffectOf(h, m, line);
  }

  lemma RunOne<R>(h: Interpreter<R>, m: Machine<R>, line: Line)
    ensures Run(h, m, [line]) == Step(h, m, line)
  {
    assert [line][1..] == [];
  }

  lemma EffectOf<R>(h: Interpreter<R>, m: Machine<R>, line: Line)
    requires line.Hidden? || line.Command?
    ensures
      Step(h, m, line) ==
      if !Active(m.stack) then m
      else if line.Hidden? then m.(app := App(m.app.environment[line.name := line.value], m.app.rest))
      else m.(app := h.run(line.text, m.app))
  {
  }

  // ----- printing lines as text -----

  /** No quote of either kind at its ends. */
  predicate Unquoted(s: string) {
    Snug(s, DoubleQuote) && Snug(s, SingleQuote)
  }

  function Quoted(s: string): string {
    "\"" + s + "\""
  }

  /** A quoted string is read back exactly when it has no quotes of its own at its ends. */
  lemma UnquoteQuotedIff(s: string)
    ensures Unquote(" " + Quoted(s)) == s <==> Unquoted(s)
    ensures Unquote(Quoted(s)) == s <==> Unquoted(s)
  {
    hide TrimWhere, Snug;
    TrimBeforeQuoted(s);
    TrimPadded(s, '"', DoubleQuote);
    assert Quoted(s) == ['"'] + s + ['"'];
    var once := TrimWhere(s, DoubleQuote);
    TrimShortens(s, DoubleQuote);
    TrimShortens(once, SingleQuote);
    if Snug(s, DoubleQuote) {
      TrimSnug(s, DoubleQuote);
      if Snug(s, SingleQuote) { TrimSnug(s, SingleQuote); }
    }
  }

  lemma TrimBeforeQuoted(s: string)
    ensures Trim(" " + Quoted(s)) == Quoted(s) && Trim(Quoted(s)) == Quoted(s)
  {
    var padded := " " + Quoted(s);
    assert padded[1..] == Quoted(s);
    assert TrimStartWhere(padded, IsWhitespace) == Quoted(s);
    TrimSnug(Quoted(s), IsWhitespace);
  }

  /** The text of a conditional directive. */
  function LineText(line: Line): string
    requires Directive(line)
  {
    match line
    case If(condition) => "%if " + Quoted(condition)
    case Elif(condition) => "%elif " + Quoted(condition)
    case Else => "%else"
    case Endif => "%endif"
  }

  lemma TextIsTrimmed(line: Line)
    requires Directive(line)
    ensures Trim(LineText(line)) == LineText(line)
  {
    TrimSnug(LineText(line), IsWhitespace);
  }

  lemma ConditionReadsBackIff(line: Line)
    requires line.If? || line.Elif?
    ensures Classify(LineText(line)) == line <==> Unquoted(line.condition)
  {
    hide Unquote, HiddenLine, Unquoted, Trim;
    var text := LineText(line);
    TextIsTrimmed(line);
    UnquoteQuotedIff(line.condition);
    if line.If? {
      assert text[3..] == " " + Quoted(line.condition);
    } else {
      assert text[5..] == " " + Quoted(line.condition);
      assert text[2] == 'l';
    }
  }

  /** A printed directive is read back as itself, unless it has a condition that begins or ends with
      a quote: all quotes at the ends are taken off, not just one pair. */
  lemma DirectiveReadsBackIff(line: Line)
    requires Directive(line)
    ensures Classify(LineText(line)) == line <==> (line.If? || line.Elif? ==> Unquoted(line.condition))
  {
    if line.If? || line.Elif? {
      ConditionReadsBackIff(line);
    } else {
      hide Unquote, HiddenLine, Trim;
      var text := LineText(line);
      TextIsTrimmed(line);
      assert text[1] == 'e' && text[2] == if line.Else? then 'l' else 'n';
    }
  }

  lemma {:induction false} IndexOfFirst(front: string, c: char, back: string)
    requires c !in front
    ensures IndexOf(front + ([c] + back), c) == |front|
    decreases |front|
  {
    if front != "" {
      assert (front + ([c] + back))[1..] == front[1..] + ([c] + back);
      IndexOfFirst(front[1..], c, back);
    }
  }

  lemma HiddenParts(name: string, value: string)
    requires Snug(name, IsWhitespace) && '=' !in name
    ensures
      var rest := name + ("=" + Quoted(value));
      Trim(rest) == rest && HiddenLine(rest) == Hidden(name, Unquote(Quoted(value)))
  {
    hide Unquote;
    var rest := name + ("=" + Quoted(value));
    assert rest[|rest| - 1] == '"' && (name != "" ==> rest[0] == name[0]);
    TrimSnug(rest, IsWhitespace);
    TrimSnug(name, IsWhitespace);
    IndexOfFirst(name, '=', Quoted(value));
    assert rest[..|name|] == name && rest[|name| + 1..] == Quoted(value);
  }

  /** A %hidden line with its value in double quotes defines that name with that value exactly when the
      value neither begins nor ends with a quote. */
  lemma HiddenReadsBackIff(name: string, value: string)
    requires Snug(name, IsWhitespace) && '=' !in name
    ensures Classify("%hidden " + (name + ("=" + Quoted(value)))) == Hidden(name, value) <==> Unquoted(value)
  {
    hide Unquote, HiddenLine, Unquoted, Trim, Quoted;
    var rest := name + ("=" + Quoted(value));
    var line := "%hidden " + rest;
    HiddenParts(name, value);
    UnquoteQuotedIff(value);
    HiddenIsTrimmed(name, value);
    assert line[8..] == rest && line[0] == '%' && line[1] == 'h' && "%hidden " <= line;
  }

  lemma HiddenIsTrimmed(name: string, value: string)
    ensures var line := "%hidden " + (name + ("=" + Quoted(value))); Trim(line) == line
  {
    var line := "%hidden " + (name + ("=" + Quoted(value)));
    assert line[|line| - 1] == '"';
    TrimSnug(line, IsWhitespace);
  }

  /** A line that is no directive is the command written on it, without the blanks around it. */
  lemma CommandReadsBack(front: string, text: string, back: string)
    requires White(front) && White(back) && Snug(text, IsWhitespace) && text != "" && text[0] != '%'
    ensures Classify(front + (text + back)) == Command(text)
  {
    TrimOf(front, text, back);
  }

  lemma {:induction false} TrimSplits(s: string) returns (front: string, back: string)
    ensures White(front) && White(back) && s == front + (Trim(s) + back) && Snug(Trim(s), IsWhitespace)
  {
    var kept: string;
    front, kept := SplitStart(s);
    back := SplitEnd(kept);
    assert front + (Trim(s) + back) == s;
    if Trim(s) != "" {
      assert kept[0] == Trim(s)[0];
    }
  }

  lemma {:induction false} SplitStart(s: string) returns (front: string, kept: string)
    ensures White(front) && s == front + kept && kept == TrimStartWhere(s, IsWhitespace)
    ensures kept != "" ==> !IsWhitespace(kept[0])
    decreases |s|
  {
    if s == "" || !IsWhitespace(s[0]) {
      front, kept := "", s;
      assert s == "" + s;
    } else {
      front, kept := SplitStart(s[1..]);
      assert s == [s[0]] + s[1..];
      assert s == ([s[0]] + front) + kept;
      front := [s[0]] + front;
    }
  }

  lemma {:induction false} SplitEnd(s: string) returns (back: string)
    ensures White(back) && s == TrimEndWhere(s, IsWhitespace) + back
    ensures TrimEndWhere(s, IsWhitespace) != "" ==>
      !IsWhitespace(TrimEndWhere(s, IsWhitespace)[|TrimEndWhere(s, IsWhitespace)| - 1])
    decreases |s|
  {
    if s == "" || !IsWhitespace(s[|s| - 1]) {
      back := "";
      assert s == s + "";
    } else {
      var m := |s| - 1;
      back := SplitEnd(s[..m]);
      assert s == s[..m] + [s[m]];
      assert s == TrimEndWhere(s, IsWhitespace) + (back + [s[m]]);
      back := back + [s[m]];
    }
  }

  /** A condition is false exactly when it expands to nothing or to a single 0, blanks aside. */
  ghost predicate FalseText(value: string) {
    exists front, core, back :: White(front) && White(back) && (core == "" || core == "0") && value == front + (core + back)
  }

  lemma TruthyIff<R>(h: Interpreter<R>, condition: string, app: App<R>)
    ensures h.Truthy(condition, app) <==> !FalseText(h.expand(condition, app))
  {
    var value := h.expand(condition, app);
    if FalseText(value) {
      var front, core, back :| White(front) && White(back) && (core == "" || core == "0") && value == front + (core + back);
      TrimOf(front, core, back);
    }
    if !h.Truthy(condition, app) {
      var front, back := TrimSplits(value);
      assert White(front) && White(back) && value == front + (Trim(value) + back);
    }
  }

  /** Pieces at the end of a file whose last one is broken too still make one line. */
  lemma {:induction false} DanglingJoins(pieces: seq<string>, pending: string)
    requires forall i :: 0 <= i < |pieces| ==> !Continues(pieces[i])
    requires pending != "" || pieces != []
    ensures Joined(Broken(pieces), pending) == [pending + Spaced(pieces)]
    decreases |pieces|
  {
    hide TrimEnd, TrimEndWhere, Continues;
    if pieces == [] {
      assert pending + "" == pending;
    } else {
      assert Broken(pieces) == [pieces[0] + "\\"] + Broken(pieces[1..]);
      JoinPiece(pieces[0], Broken(pieces[1..]), pending);
      DanglingJoins(pieces[1..], pending + pieces[0] + " ");
      assert pending + pieces[0] + " " + Spaced(pieces[1..]) == pending + Spaced(pieces);
    }
  }
}
