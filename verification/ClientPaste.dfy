/** The client's paste buffer (core/src/client.rs).

Characters are held for a moment to tell typing from a paste: 20 ms to see a burst, then
up to 300 ms for the release of Ctrl+V.  `PasteBuffer` is the state as the event loop keeps
it; the lemmas follow every run of loop turns. */
module ClientPaste {
  import opened Text
  import CommandLine

  const BURST_MS: int := 20
  const STAGE2_MS: int := 300
  const STAGE2_EXTENSION_MS: int := 280
  const BURST_BYTES: nat := 3
  const LARGE_BURST_BYTES: nat := 20
  const SUPPRESS_MS: int := 2000

  /** Commands that carry buffered text, and commands that do not come from the buffer. */
  datatype Command = SendPaste(text: string) | SendText(c: char) | SendKey(name: string) | Direct(line: string)

  function Carried(cmd: Command): string {
    match cmd
    case SendPaste(text) => text
    case SendText(c) => [c]
    case SendKey(name) => if name == "enter" then "\n" else if name == "tab" then "\t" else " "
    case Direct(_) => ""
  }

  function Sent(cmds: seq<Command>): string {
    if cmds == [] then "" else Sent(cmds[..|cmds| - 1]) + Carried(cmds[|cmds| - 1])
  }

  function Keystroke(c: char): Command {
    match c
    case '\n' => SendKey("enter")
    case '\t' => SendKey("tab")
    case ' ' => SendKey("space")
    case _ => SendText(c)
  }

  function Typed(text: string): seq<Command> {
    seq(|text|, i requires 0 <= i < |text| => Keystroke(text[i]))
  }

  function CharBytes(c: char): nat {
    if c as int < 0x80 then 1 else if c as int < 0x800 then 2 else if c as int < 0x10000 then 3 else 4
  }

  /** Length in bytes, which is what the thresholds compare. */
  function Bytes(text: string): nat {
    if text == "" then 0 else Bytes(text[..|text| - 1]) + CharBytes(text[|text| - 1])
  }

  predicate NonAscii(text: string) {
    exists i :: 0 <= i < |text| && text[i] as int >= 128
  }

  /** Whether `size` makes the text a burst; the program passes its length in bytes. */
  predicate IsBurst(size: nat, text: string) {
    (size >= BURST_BYTES && !NonAscii(text)) || (size >= LARGE_BURST_BYTES && NonAscii(text))
  }

  datatype State = State(
    pend: string,
    start: Option<int>,
    stage2: bool,
    confirmed: bool,
    stage2LastLen: nat,
    suppressUntil: Option<int>)

  const EMPTY := State("", None, false, false, 0, None)

  /** The buffer given up, by whatever path. */
  function Cleared(s: State): State {
    s.(pend := "", start := None, stage2 := false)
  }

  function Pushed(s: State, c: char, now: int): State {
    s.(pend := s.pend + [c], start := if s.start.None? then Some(now) else s.start)
  }

  datatype Event =
    | Printable(c: char, now: int)       // a space, or a character typed with AltGr
    | Plain(c: char, now: int)           // any other printable character
    | Enter(direct: string)
    | Tab
    | NotBufferable(line: string)        // a key that interrupts a burst
    | RightClickCopy(now: int)
    | CtrlVRelease
    | Other(line: string)                // events that leave the buffer alone

  predicate Suppressed(s: State, now: int) {
    s.suppressUntil.Some? && now < s.suppressUntil.value
  }

  /** What an event adds to the buffer. */
  function Added(s: State, e: Event): string {
    match e
    case Printable(c, _) => [c]
    case Plain(c, now) => if Suppressed(s, now) then "" else [c]
    case Enter(_) => if s.pend == "" then "" else "\n"
    case Tab => if s.pend == "" then "" else "\t"
    case _ => ""
  }

  /** The buffer flushed because a key interrupts it. */
  function FlushAsText(s: State): (State, seq<Command>) {
    if s.pend == "" then (s, [])
    else (Cleared(s), if (s.stage2 || Bytes(s.pend) >= BURST_BYTES) && !NonAscii(s.pend) then [SendPaste(s.pend)] else Typed(s.pend))
  }

  function OnEvent(s: State, e: Event): (State, seq<Command>) {
    match e
    case Printable(c, now) => (Pushed(s, c, now), [])
    case Plain(c, now) => if Suppressed(s, now) then (s, []) else (Pushed(s.(suppressUntil := None), c, now), [])
    case Enter(direct) => if s.pend == "" then (s, [Direct(direct)]) else (s.(pend := s.pend + "\n"), [])
    case Tab => if s.pend == "" then (s, [Direct("send-key tab\n")]) else (s.(pend := s.pend + "\t"), [])
    case NotBufferable(line) => var (t, cmds) := FlushAsText(s); (t, cmds + [Direct(line)])
    case RightClickCopy(now) => (s.(suppressUntil := Some(now + SUPPRESS_MS)), [])
    case CtrlVRelease => (s.(confirmed := true), [])
    case Other(line) => (s, [Direct(line)])
  }

  /** The timers at the top of a loop turn. */
  function AtTop(s: State, now: int): (State, seq<Command>) {
    if s.start.None? then (s, [])
    else
      var elapsed := now - s.start.value;
      if s.confirmed then (Cleared(s).(confirmed := false), if s.pend == "" then [] else [SendPaste(s.pend)])
      else if !s.stage2 && elapsed > BURST_MS then
        if IsBurst(Bytes(s.pend), s.pend)
        then (s.(stage2 := true, stage2LastLen := Bytes(s.pend)), [])
        else (s.(pend := "", start := None), Typed(s.pend))
      else if s.stage2 && elapsed > STAGE2_MS then
        if Bytes(s.pend) > s.stage2LastLen
        then (s.(stage2LastLen := Bytes(s.pend), start := Some(now - STAGE2_EXTENSION_MS)), [])
        else (Cleared(s).(stage2LastLen := 0), [SendPaste(s.pend)])
      else (s, [])
  }

  /** After the events of the turn: a seen Ctrl+V release sends the buffer, or the clipboard. */
  function AtBottom(s: State, clipboard: Option<string>): (State, seq<Command>) {
    if !s.confirmed then (s, [])
    else if s.pend != "" then (Cleared(s).(confirmed := false), [SendPaste(s.pend)])
    else (s.(confirmed := false),
          if clipboard.Some? && clipboard.value != "" then [Direct("send-paste " + clipboard.value)] else [])
  }

  class PasteBuffer {
    var pend: string
    var start: Option<int>
    var stage2: bool
    var confirmed: bool
    var stage2LastLen: nat
    var suppressUntil: Option<int>
    var batch: seq<Command>

    function Model(): State
      reads this
    {
      State(pend, start, stage2, confirmed, stage2LastLen, suppressUntil)
    }

    constructor ()
      ensures Model() == EMPTY && batch == []
    {
      pend, start, stage2, confirmed, stage2LastLen, suppressUntil, batch := "", None, false, false, 0, None, [];
    }

    method SendTyped()
      modifies this`batch
      ensures batch == old(batch) + Typed(pend)
    {
      for i := 0 to |pend|
        invariant batch == old(batch) + Typed(pend)[..i]
      {
        var c := pend[i];
        match c {
          case '\n' => batch := batch + [SendKey("enter")];
          case '\t' => batch := batch + [SendKey("tab")];
          case ' ' => batch := batch + [SendKey("space")];
          case _ => batch := batch + [SendText(c)];
        }
        assert Typed(pend)[..i + 1] == Typed(pend)[..i] + [Keystroke(pend[i])];
      }
      assert Typed(pend)[..|pend|] == Typed(pend);
    }

    method FlushPastePendAsText()
      modifies this
      ensures
        var (s, cmds) := FlushAsText(old(Model()));
        Model() == s && batch == old(batch) + cmds
    {
      if pend == "" {
        return;
      }
      if (stage2 || Bytes(pend) >= BURST_BYTES) && !NonAscii(pend) {
        batch := batch + [SendPaste(pend)];
      } else {
        SendTyped();
      }
      pend, start, stage2 := "", None, false;
    }

    /** The batch of the previous turn has been written out by now. */
    method TopOfLoop(now: int)
      modifies this
      ensures
        var (s, cmds) := AtTop(old(Model()), now);
        Model() == s && batch == cmds
    {
      batch := [];
      if start.Some? {
        var elapsed := now - start.value;
        if confirmed {
          if pend != "" {
            batch := batch + [SendPaste(pend)];
          }
          pend, start, stage2, confirmed := "", None, false, false;
        } else if !stage2 && elapsed > BURST_MS {
          var hasNonAscii := NonAscii(pend);
          if Bytes(pend) >= BURST_BYTES && !hasNonAscii {
            stage2, stage2LastLen := true, Bytes(pend);
          } else if Bytes(pend) >= LARGE_BURST_BYTES && hasNonAscii {
            stage2, stage2LastLen := true, Bytes(pend);
          } else {
            SendTyped();
            pend, start := "", None;
          }
        } else if stage2 && elapsed > STAGE2_MS {
          if Bytes(pend) > stage2LastLen {
            stage2LastLen := Bytes(pend);
            start := Some(now - STAGE2_EXTENSION_MS);
          } else {
            batch := batch + [SendPaste(pend)];
            pend, start, stage2, stage2LastLen := "", None, false, 0;
          }
        }
      }
    }

    method Push(c: char, now: int)
      modifies this`pend, this`start
      ensures Model() == Pushed(old(Model()), c, now)
    {
      pend := pend + [c];
      if start.None? {
        start := Some(now);
      }
    }

    method HandleEvent(e: Event)
      modifies this
      ensures
        var (s, cmds) := OnEvent(old(Model()), e);
        Model() == s && batch == old(batch) + cmds
    {
      match e {
        case Printable(c, now) => Push(c, now);
        case Plain(c, now) =>
          var suppressed := suppressUntil.Some? && now < suppressUntil.value;
          if !suppressed {
            suppressUntil := None;
            Push(c, now);
          }
        case Enter(direct) =>
          if pend != "" { pend := pend + "\n"; } else { batch := batch + [Direct(direct)]; }
        case Tab =>
          if pend != "" { pend := pend + "\t"; } else { batch := batch + [Direct("send-key tab\n")]; }
        case NotBufferable(line) =>
          FlushPastePendAsText();
          batch := batch + [Direct(line)];
        case RightClickCopy(now) => suppressUntil := Some(now + SUPPRESS_MS);
        case CtrlVRelease => confirmed := true;
        case Other(line) => batch := batch + [Direct(line)];
      }
    }

    method BottomOfLoop(clipboard: Option<string>)
      modifies this
      ensures
        var (s, cmds) := AtBottom(old(Model()), clipboard);
        Model() == s && batch == old(batch) + cmds
    {
      if confirmed && pend != "" {
        batch := batch + [SendPaste(pend)];
        pend, start, stage2, confirmed := "", None, false, false;
      } else if confirmed && pend == "" {
        if clipboard.Some? && clipboard.value != "" {
          batch := batch + [Direct("send-paste " + clipboard.value)];
        }
        confirmed := false;
      }
    }
  }

  // ----- runs -----

  /** One move of the loop, oldest innermost in a `Trace`. */
  datatype Move = Top(now: int) | On(e: Event) | Bottom(clipboard: Option<string>)

  datatype Trace = Start | After(past: Trace, move: Move)

  function Do(s: State, m: Move): (State, seq<Command>) {
    match m
    case Top(now) => AtTop(s, now)
    case On(e) => OnEvent(s, e)
    case Bottom(clipboard) => AtBottom(s, clipboard)
  }

  function Run(s: State, t: Trace): State {
    match t
    case Start => s
    case After(past, m) => Do(Run(s, past), m).0
  }

  function Commands(s: State, t: Trace): seq<Command> {
    match t
    case Start => []
    case After(past, m) => Commands(s, past) + Do(Run(s, past), m).1
  }

  function AllPushed(s: State, t: Trace): string {
    match t
    case Start => ""
    case After(past, m) => AllPushed(s, past) + (if m.On? then Added(Run(s, past), m.e) else "")
  }

  /** Moves come in turns: top, events, bottom. */
  predicate InTurns(t: Trace) {
    match t
    case Start => true
    case After(past, m) =>
      && InTurns(past)
      && (if m.Top? then past.Start? || past.move.Bottom? else past.After? && !past.move.Bottom?)
  }

  lemma {:induction false} SentAppend(a: seq<Command>, b: seq<Command>)
    ensures Sent(a + b) == Sent(a) + Sent(b)
    decreases |b|
  {
    hide Carried;
    if b == [] {
      assert a + b == a;
    } else {
      var m := |b| - 1;
      assert (a + b)[..|a + b| - 1] == a + b[..m];
      SentAppend(a, b[..m]);
      assert Sent(a) + (Sent(b[..m]) + Carried(b[m])) == Sent(a) + Sent(b[..m]) + Carried(b[m]);
    }
  }

  lemma {:induction false} SentTyped(text: string)
    ensures Sent(Typed(text)) == text
    decreases |text|
  {
    if text != "" {
      var m := |text| - 1;
      assert Typed(text)[..m] == Typed(text[..m]);
      SentTyped(text[..m]);
    }
  }

  lemma SentNothing()
    ensures Sent([]) == ""
  {
  }

  lemma SentOne(cmd: Command)
    ensures Sent([cmd]) == Carried(cmd)
  {
    assert [cmd][..0] == [];
  }

  /** One move sends a front part of what is pending or added, and keeps the rest. */
  lemma MoveConserves(s: State, m: Move)
    ensures Sent(Do(s, m).1) + Do(s, m).0.pend == s.pend + (if m.On? then Added(s, m.e) else "")
  {
    hide Typed, Bytes, NonAscii, Sent;
    SentTyped(s.pend);
    SentOne(SendPaste(s.pend));
    SentNothing();
    if m.Bottom? && m.clipboard.Some? { SentOne(Direct("send-paste " + m.clipboard.value)); }
    if m.On? {
      match m.e {
        case NotBufferable(line) =>
          SentOne(Direct(line));
          SentAppend(FlushAsText(s).1, [Direct(line)]);
        case Enter(direct) => SentOne(Direct(direct));
        case Tab => SentOne(Direct("send-key tab\n"));
        case Other(line) => SentOne(Direct(line));
        case _ =>
      }
    }
  }

  /** Text sent followed by text pending is always the text pending at first and the text pushed
      since, in order, whatever the timers and flush paths did. */
  lemma {:induction false} TextConserved(s: State, t: Trace)
    ensures Sent(Commands(s, t)) + Run(s, t).pend == s.pend + AllPushed(s, t)
  {
    hide Do, Added, Sent;
    match t {
      case Start =>
        SentNothing();
        assert "" + s.pend == s.pend + "";
      case After(past, m) =>
        TextConserved(s, past);
        var u := Run(s, past);
        var added := if m.On? then Added(u, m.e) else "";
        MoveConserves(u, m);
        SentAppend(Commands(s, past), Do(u, m).1);
        Regroup(Sent(Commands(s, past)), Sent(Do(u, m).1), Run(s, t).pend, u.pend, added, s.pend + AllPushed(s, past));
        assert s.pend + AllPushed(s, past) + added == s.pend + (AllPushed(s, past) + added);
    }
  }

  lemma Regroup(sent: string, now: string, left: string, before: string, added: string, pushed: string)
    requires sent + before == pushed && now + left == before + added
    ensures (sent + now) + left == pushed + added
  {
    assert (sent + now) + left == sent + (now + left);
    assert sent + (before + added) == (sent + before) + added;
  }

  /** A start time exactly while text is pending; stage 2 only while text is pending, and never
      with a remembered length beyond the buffer. */
  predicate Consistent(s: State) {
    && (s.start.Some? <==> s.pend != "")
    && (s.stage2 ==> s.pend != "" && s.stage2LastLen <= Bytes(s.pend))
  }

  lemma BytesGrow(text: string, c: char)
    ensures Bytes(text) < Bytes(text + [c])
  {
    assert (text + [c])[..|text|] == text;
  }

  lemma MoveKeepsConsistent(s: State, m: Move)
    requires Consistent(s)
    ensures Consistent(Do(s, m).0)
  {
    hide NonAscii, Typed, Bytes;
    if m.On? && Added(s, m.e) != "" {
      BytesGrow(s.pend, Added(s, m.e)[0]);
    }
  }

  lemma {:induction false} AlwaysConsistent(s: State, t: Trace)
    requires Consistent(s)
    ensures Consistent(Run(s, t))
  {
    match t {
      case Start =>
      case After(past, m) =>
        AlwaysConsistent(s, past);
        MoveKeepsConsistent(Run(s, past), m);
    }
  }

  /** At the top of every turn no confirmation is pending, so the timer's first branch never fires. */
  lemma NeverConfirmedAtTop(t: Trace, now: int)
    requires InTurns(After(t, Top(now)))
    ensures !Run(EMPTY, t).confirmed
  {
    match t {
      case Start =>
      case After(past, m) => assert m.Bottom?;
    }
  }

  // ----- a burst leaves in one piece, or is split -----

  function FromBuffer(cmds: seq<Command>): seq<Command> {
    if cmds == [] then []
    else FromBuffer(cmds[..|cmds| - 1]) + (if cmds[|cmds| - 1].Direct? then [] else [cmds[|cmds| - 1]])
  }

  lemma {:induction false} FromBufferAppend(a: seq<Command>, b: seq<Command>)
    ensures FromBuffer(a + b) == FromBuffer(a) + FromBuffer(b)
    decreases |b|
  {
    if b == [] {
      assert a + b == a;
    } else {
      var m := |b| - 1;
      assert (a + b)[..|a + b| - 1] == a + b[..m];
      FromBufferAppend(a, b[..m]);
    }
  }

  lemma {:induction false} FromBufferAll(cmds: seq<Command>)
    requires forall i :: 0 <= i < |cmds| ==> !cmds[i].Direct?
    ensures FromBuffer(cmds) == cmds
    decreases |cmds|
  {
    if cmds != [] {
      FromBufferAll(cmds[..|cmds| - 1]);
    }
  }

  lemma FromBufferDirect(cmds: seq<Command>)
    requires |cmds| <= 1 && forall i :: 0 <= i < |cmds| ==> cmds[i].Direct?
    ensures FromBuffer(cmds) == []
  {
    if |cmds| == 1 {
      assert cmds[..0] == [];
    }
  }

  /** A key that interrupts the burst, or the end of its first 20 ms with fewer than 20 bytes. */
  predicate Interrupts(s: State, m: Move) {
    || (m.On? && m.e.NotBufferable?)
    || (m.Top? && s.start.Some? && !s.confirmed && !s.stage2
        && m.now - s.start.value > 20 && Bytes(s.pend) < 20)
  }

  /** Three bytes or more in the buffer after one move: still there, sent whole, or split. */
  lemma BurstMove(s: State, m: Move)
    requires Bytes(s.pend) >= BURST_BYTES
    ensures
      var (t, cmds) := Do(s, m);
      && (t.pend != "" ==> s.pend <= t.pend)
      && (NonAscii(s.pend) && Interrupts(s, m) ==> t.pend == "")
      && FromBuffer(cmds) ==
         if t.pend != "" then []
         else if NonAscii(s.pend) && Interrupts(s, m) then Typed(s.pend)
         else [SendPaste(s.pend)]
  {
    hide Bytes, NonAscii, FromBuffer;
    assert s.pend != "" by { if s.pend == "" { NoBytes(); } }
    FromBufferAll([SendPaste(s.pend)]);
    FromBufferAll(Typed(s.pend));
    FromBufferDirect([]);
    if m.Bottom? && m.clipboard.Some? { FromBufferDirect([Direct("send-paste " + m.clipboard.value)]); }
    if m.On? {
      match m.e {
        case NotBufferable(line) =>
          FromBufferDirect([Direct(line)]);
          FromBufferAppend(FlushAsText(s).1, [Direct(line)]);
        case Other(line) => FromBufferDirect([Direct(line)]);
        case _ =>
      }
    }
  }

  lemma NoBytes()
    ensures Bytes("") == 0
  {
  }

  lemma {:induction false} BytesOfPrefix(a: string, b: string)
    requires a <= b
    ensures Bytes(a) <= Bytes(b)
    decreases |b|
  {
    if a == b {
      assert Bytes(a) == Bytes(b);
    } else {
      BytesOfPrefix(a, b[..|b| - 1]);
    }
  }

  /** What was pending at first has left the buffer. */
  predicate Gone(s: State, t: Trace) {
    Run(s, t).pend == "" || (t.After? && Gone(s, t.past))
  }

  /** Before anything has left, an interruption finds a non-ASCII character pending. */
  predicate SplitUp(s: State, t: Trace) {
    match t
    case Start => false
    case After(past, m) =>
      if Gone(s, past) then SplitUp(s, past)
      else NonAscii(Run(s, past).pend) && Interrupts(Run(s, past), m)
  }

  /** All that the first move that sends from the buffer sends from it. */
  function FirstSent(s: State, t: Trace): seq<Command> {
    match t
    case Start => []
    case After(past, m) =>
      if FirstSent(s, past) != [] then FirstSent(s, past) else FromBuffer(Do(Run(s, past), m).1)
  }

  /** `text` is still pending and nothing has been sent from the buffer, or one move has sent exactly
      `text`, before anything else: as keystrokes, or as one paste. */
  ghost predicate LeftAs(s: State, t: Trace, text: string) {
    && FirstSent(s, t) <= FromBuffer(Commands(s, t))
    && if !Gone(s, t) then text == Run(s, t).pend && FromBuffer(Commands(s, t)) == [] && !SplitUp(s, t)
       else FirstSent(s, t) == (if SplitUp(s, t) then Typed(text) else [SendPaste(text)]) != []
  }

  /** Over every run three or more pending bytes either stay, or are the front of a text that one move
      sends: as keystrokes exactly when the run splits it, as one paste otherwise. */
  lemma {:induction false} BurstLeavesIff(s: State, t: Trace)
    requires Bytes(s.pend) >= 3
    ensures exists text :: s.pend <= text && LeftAs(s, t, text)
  {
    hide Do, Interrupts, NonAscii, FromBuffer, Bytes, Typed;
    match t {
      case Start =>
        FromBufferDirect([]);
        NoBytes();
        assert LeftAs(s, t, s.pend);
      case After(past, m) =>
        BurstLeavesIff(s, past);
        var text :| s.pend <= text && LeftAs(s, past, text);
        var u := Run(s, past);
        FromBufferAppend(Commands(s, past), Do(u, m).1);
        if Gone(s, past) {
          assert LeftAs(s, t, text);
        } else {
          FromBufferDirect([]);
          BytesOfPrefix(s.pend, text);
          BurstMove(u, m);
          TypedNotEmpty(u.pend);
          assert LeftAs(s, t, if Gone(s, t) then u.pend else Run(s, t).pend);
        }
    }
  }

  lemma TypedNotEmpty(text: string)
    requires Bytes(text) >= BURST_BYTES
    ensures Typed(text) != []
  {
  }

  lemma NonAsciiPart(a: string, b: string)
    ensures NonAscii(a + b) <==> NonAscii(a) || NonAscii(b)
  {
    var all := a + b;
    if i :| 0 <= i < |a| && a[i] as int >= 128 {
      assert all[i] == a[i];
    }
    if j :| 0 <= j < |b| && b[j] as int >= 128 {
      assert all[|a| + j] == b[j];
    }
  }

  lemma {:induction false} AsciiNeverSplits(s: State, t: Trace)
    requires !NonAscii(s.pend + AllPushed(s, t))
    ensures !SplitUp(s, t)
  {
    hide Do, Interrupts, FromBuffer, NonAscii;
    match t {
      case Start =>
      case After(past, m) =>
        var added := if m.On? then Added(Run(s, past), m.e) else "";
        assert s.pend + AllPushed(s, t) == (s.pend + AllPushed(s, past)) + added;
        NonAsciiPart(s.pend + AllPushed(s, past), added);
        AsciiNeverSplits(s, past);
        TextConserved(s, past);
        NonAsciiPart(Sent(Commands(s, past)), Run(s, past).pend);
    }
  }

  /** A burst of ASCII to which only ASCII is added is never split into keystrokes: over every run it
      stays pending until it goes out at the front of one paste. */
  lemma AsciiBurstSentWhole(s: State, t: Trace)
    requires Bytes(s.pend) >= BURST_BYTES && !NonAscii(s.pend + AllPushed(s, t))
    ensures
      var out := FromBuffer(Commands(s, t));
      if out == [] then s.pend <= Run(s, t).pend
      else out[0].SendPaste? && s.pend <= out[0].text
  {
    BurstLeavesIff(s, t);
    AsciiNeverSplits(s, t);
    var text :| s.pend <= text && LeftAs(s, t, text);
  }

  lemma CommandsAfter(s: State, t: Trace, m: Move)
    ensures Run(s, After(t, m)) == Do(Run(s, t), m).0
    ensures Commands(s, After(t, m)) == Commands(s, t) + Do(Run(s, t), m).1
  {
  }

  lemma BytesSnoc(text: string, c: char)
    ensures Bytes(text + [c]) == Bytes(text) + CharBytes(c)
  {
    assert (text + [c])[..|text|] == text;
  }

  lemma BytesOfThree(a: char, b: char, c: char)
    ensures Bytes([a, b, c]) == CharBytes(a) + CharBytes(b) + CharBytes(c)
  {
    NoBytes();
    BytesSnoc([], a);
    BytesSnoc([a], b);
    BytesSnoc([a, b], c);
    assert [] + [a] == [a] && [a] + [b] == [a, b] && [a, b] + [c] == [a, b, c];
  }

  const ABC: string := ['a', 'b', 'c']

  const ACCENT: char := '\U{e9}'

  const SPLIT := [SendText('a'), SendText('b'), SendText('c'), SendText(ACCENT)]

  /** Three ASCII characters, a burst, and the same with an accented one, to be typed. */
  lemma AbcIsBurst()
    ensures Bytes(ABC) == 3 && !NonAscii(ABC)
    ensures Bytes(ABC + [ACCENT]) == 5 && NonAscii(ABC + [ACCENT]) && Typed(ABC + [ACCENT]) == SPLIT
  {
    BytesOfThree('a', 'b', 'c');
    BytesSnoc(ABC, ACCENT);
    assert (ABC + [ACCENT])[3] == ACCENT;
  }

  /** The three characters typed into the empty buffer at 0. */
  function AbcTyped(): Trace {
    After(After(After(Start, On(Plain('a', 0))), On(Plain('b', 0))), On(Plain('c', 0)))
  }

  lemma AbcPending()
    ensures Run(EMPTY, AbcTyped()) == EMPTY.(pend := ABC, start := Some(0)) && Commands(EMPTY, AbcTyped()) == []
  {
    var a := After(Start, On(Plain('a', 0)));
    var b := After(a, On(Plain('b', 0)));
    CommandsAfter(EMPTY, Start, On(Plain('a', 0)));
    CommandsAfter(EMPTY, a, On(Plain('b', 0)));
    CommandsAfter(EMPTY, b, On(Plain('c', 0)));
    assert Run(EMPTY, a).pend == ['a'] && Run(EMPTY, b).pend == ['a', 'b'];
  }

  /** Three pasted ASCII characters and an accented one within 20 ms leave as four keystrokes. */
  lemma AccentSplitsBurst()
    ensures Bytes(Run(EMPTY, AbcTyped()).pend) >= BURST_BYTES && !NonAscii(Run(EMPTY, AbcTyped()).pend)
    ensures Commands(EMPTY, After(After(AbcTyped(), On(Plain(ACCENT, 1))), Top(21))) == SPLIT
  {
    AbcIsBurst();
    AbcPending();
    hide Typed, Bytes, NonAscii, AbcTyped;
    var t := After(AbcTyped(), On(Plain(ACCENT, 1)));
    CommandsAfter(EMPTY, AbcTyped(), On(Plain(ACCENT, 1)));
    CommandsAfter(EMPTY, t, Top(21));
    assert Run(EMPTY, t) == EMPTY.(pend := ABC + [ACCENT], start := Some(0)) && Commands(EMPTY, t) == [];
  }

  /** The same in stage 2, entered at 21, when a key interrupts. */
  lemma AccentSplitsStage2(line: string)
    ensures
      var staged := After(AbcTyped(), Top(21));
      var t := After(After(staged, On(Plain(ACCENT, 30))), On(NotBufferable(line)));
      && Run(EMPTY, staged).stage2 && Run(EMPTY, staged).pend == ABC && Commands(EMPTY, staged) == []
      && Commands(EMPTY, t) == SPLIT + [Direct(line)]
  {
    AbcIsBurst();
    AbcPending();
    hide Typed, Bytes, NonAscii, AbcTyped;
    var staged := After(AbcTyped(), Top(21));
    var t := After(staged, On(Plain(ACCENT, 30)));
    CommandsAfter(EMPTY, AbcTyped(), Top(21));
    CommandsAfter(EMPTY, staged, On(Plain(ACCENT, 30)));
    CommandsAfter(EMPTY, t, On(NotBufferable(line)));
    assert Run(EMPTY, t).pend == ABC + [ACCENT] && Commands(EMPTY, t) == [];
  }

  /** Any text that leaves does so in one move and whole: as keystrokes when a key interrupts it or its
      first 20 ms end while it is short or holds a non-ASCII character, as one paste otherwise. */
  predicate AsKeys(s: State, m: Move) {
    || (m.On? && m.e.NotBufferable? && (NonAscii(s.pend) || (!s.stage2 && Bytes(s.pend) < 3)))
    || (m.Top? && s.start.Some? && !s.confirmed && !s.stage2 && m.now - s.start.value > 20
        && (Bytes(s.pend) < 3 || (NonAscii(s.pend) && Bytes(s.pend) < 20)))
  }

  lemma LeavesAs(s: State, m: Move)
    requires Consistent(s)
    ensures
      var (t, cmds) := Do(s, m);
      && (t.pend != "" ==> s.pend <= t.pend)
      && (AsKeys(s, m) ==> t.pend == "")
      && FromBuffer(cmds) ==
         if s.pend == "" || t.pend != "" then [] else if AsKeys(s, m) then Typed(s.pend) else [SendPaste(s.pend)]
  {
    hide Bytes, NonAscii, FromBuffer;
    FromBufferAll([SendPaste(s.pend)]);
    FromBufferAll(Typed(s.pend));
    FromBufferDirect([]);
    if m.Bottom? && m.clipboard.Some? { FromBufferDirect([Direct("send-paste " + m.clipboard.value)]); }
    if m.On? {
      match m.e {
        case NotBufferable(line) =>
          FromBufferDirect([Direct(line)]);
          FromBufferAppend(FlushAsText(s).1, [Direct(line)]);
        case Enter(direct) => FromBufferDirect([Direct(direct)]);
        case Tab => FromBufferDirect([Direct("send-key tab\n")]);
        case Other(line) => FromBufferDirect([Direct(line)]);
        case _ =>
      }
    }
  }

  // ----- a burst waits for its release -----

  /** No interruption, no release of Ctrl+V, and no turn later than `last`. */
  predicate Undisturbed(t: Trace, last: int) {
    match t
    case Start => true
    case After(past, m) =>
      && Undisturbed(past, last)
      && (m.On? ==> !m.e.NotBufferable? && !m.e.CtrlVRelease?)
      && (m.Top? ==> m.now <= last)
  }

  lemma WaitingMove(s: State, u: State, m: Move)
    requires Consistent(u) && !u.confirmed && u.start == s.start && s.start.Some? && s.pend <= u.pend
    requires IsBurst(Bytes(u.pend), u.pend)
    requires m.On? ==> !m.e.NotBufferable? && !m.e.CtrlVRelease?
    requires m.Top? ==> m.now <= s.start.value + STAGE2_MS
    ensures
      var (t, cmds) := Do(u, m);
      !t.confirmed && t.start == s.start && s.pend <= t.pend && FromBuffer(cmds) == []
  {
    hide Bytes, NonAscii, FromBuffer, IsBurst, Typed;
    FromBufferDirect([]);
    if m.On? {
      match m.e {
        case Enter(direct) => FromBufferDirect([Direct(direct)]);
        case Tab => FromBufferDirect([Direct("send-key tab\n")]);
        case Other(line) => FromBufferDirect([Direct(line)]);
        case _ =>
      }
    }
  }

  /** Over every run a burst, ASCII throughout or of at least 20 bytes, waits for 300 ms after its start:
      nothing of it is sent before, unless a key interrupts or Ctrl+V is released. */
  lemma {:induction false} BurstWaits(s: State, t: Trace)
    requires Consistent(s) && !s.confirmed && s.start.Some? && Undisturbed(t, s.start.value + 300)
    requires Bytes(s.pend) >= 20 || (Bytes(s.pend) >= 3 && !NonAscii(s.pend + AllPushed(s, t)))
    ensures !Run(s, t).confirmed && Run(s, t).start == s.start && s.pend <= Run(s, t).pend
    ensures FromBuffer(Commands(s, t)) == []
  {
    hide Do, NonAscii, FromBuffer, Bytes, IsBurst;
    match t {
      case Start => FromBufferDirect([]);
      case After(past, m) =>
        var u := Run(s, past);
        var added := if m.On? then Added(u, m.e) else "";
        assert s.pend + AllPushed(s, t) == (s.pend + AllPushed(s, past)) + added;
        NonAsciiPart(s.pend + AllPushed(s, past), added);
        BurstWaits(s, past);
        AlwaysConsistent(s, past);
        StillBurst(s, past);
        WaitingMove(s, u, m);
        FromBufferAppend(Commands(s, past), Do(u, m).1);
    }
  }

  lemma StillBurst(s: State, t: Trace)
    requires s.pend <= Run(s, t).pend
    requires Bytes(s.pend) >= LARGE_BURST_BYTES || (Bytes(s.pend) >= BURST_BYTES && !NonAscii(s.pend + AllPushed(s, t)))
    ensures IsBurst(Bytes(Run(s, t).pend), Run(s, t).pend)
  {
    hide Bytes, NonAscii, Run;
    BytesOfPrefix(s.pend, Run(s, t).pend);
    TextConserved(s, t);
    NonAsciiPart(Sent(Commands(s, t)), Run(s, t).pend);
  }

  /** Only typing: no timer, interruption or release. */
  predicate OnlyTyping(t: Trace) {
    match t
    case Start => true
    case After(past, m) => OnlyTyping(past) && !m.Top? && (m.On? ==> !m.e.NotBufferable? && !m.e.CtrlVRelease?)
  }

  lemma {:induction false} TypingKeeps(u: State, t: Trace)
    requires Consistent(u) && !u.confirmed && u.stage2 && OnlyTyping(t)
    ensures
      var r := Run(u, t);
      (r.start, r.stage2, r.confirmed, r.stage2LastLen) == (u.start, true, false, u.stage2LastLen) && r.pend == u.pend + AllPushed(u, t)
  {
    hide Bytes;
    match t {
      case Start => assert u.pend + "" == u.pend;
      case After(past, m) =>
        TypingKeeps(u, past);
        var added := if m.On? then Added(Run(u, past), m.e) else "";
        assert u.pend + (AllPushed(u, past) + added) == u.pend + AllPushed(u, past) + added;
    }
  }

  /** A burst that has grown since a timer last looked at it is not sent at the next timeout: the timer
      gives it 20 ms more. */
  lemma GrownBurstIsExtended(s: State, first: int, t: Trace, second: int)
    requires Consistent(s) && !s.confirmed && s.start.Some? && first > Deadline(s) && AtTop(s, first).0.pend != ""
    requires OnlyTyping(t) && AllPushed(AtTop(s, first).0, t) != ""
    requires second > Deadline(AtTop(s, first).0)
    ensures
      var grown := Run(AtTop(s, first).0, t);
      AtTop(grown, second) == (AtTop(grown, second).0, []) && AtTop(grown, second).0.pend == grown.pend
      && AtTop(grown, second).0.start.Some? && Deadline(AtTop(grown, second).0) == second + 20
  {
    hide Bytes, NonAscii, Typed, Run, AllPushed;
    var u := AtTop(s, first).0;
    MoveKeepsConsistent(s, Top(first));
    TypingKeeps(u, t);
    BytesLonger(u.pend, AllPushed(u, t));
  }

  lemma BytesLonger(a: string, b: string)
    requires b != ""
    ensures Bytes(a) < Bytes(a + b)
  {
    hide Bytes;
    assert a + b == (a + b[..|b| - 1]) + [b[|b| - 1]];
    BytesOfPrefix(a, a + b[..|b| - 1]);
    BytesGrow(a + b[..|b| - 1], b[|b| - 1]);
  }

  // ----- commands that do not come from the buffer -----

  function Directs(cmds: seq<Command>): seq<string> {
    if cmds == [] then []
    else Directs(cmds[..|cmds| - 1]) + (if cmds[|cmds| - 1].Direct? then [cmds[|cmds| - 1].line] else [])
  }

  /** The line an event sends by itself, given the text pending. */
  function OwnLine(pend: string, e: Event): seq<string> {
    match e
    case Enter(direct) => if pend == "" then [direct] else []
    case Tab => if pend == "" then ["send-key tab\n"] else []
    case NotBufferable(line) => [line]
    case Other(line) => [line]
    case _ => []
  }

  /** A release of Ctrl+V has been seen since the last bottom of a turn, and has sent nothing yet. */
  predicate Released(s: State, t: Trace) {
    match t
    case Start => s.confirmed
    case After(past, m) =>
      match m
      case On(e) => e.CtrlVRelease? || Released(s, past)
      case Top(_) => Released(s, past) && Run(s, past).pend == ""
      case Bottom(_) => false
  }

  /** Every line that does not come from the buffer, in order: one per event with a line of its own, and
      the clipboard once per release that finds the buffer empty and the clipboard not. */
  function OwnLines(s: State, t: Trace): seq<string> {
    match t
    case Start => []
    case After(past, m) =>
      OwnLines(s, past)
      + match m
        case On(e) => OwnLine(Run(s, past).pend, e)
        case Top(_) => []
        case Bottom(clipboard) =>
          if Released(s, past) && Run(s, past).pend == "" && clipboard.Some? && clipboard.value != ""
          then ["send-paste " + clipboard.value] else []
  }

  lemma {:induction false} DirectsAppend(a: seq<Command>, b: seq<Command>)
    ensures Directs(a + b) == Directs(a) + Directs(b)
    decreases |b|
  {
    if b == [] {
      assert a + b == a;
    } else {
      var m := |b| - 1;
      assert (a + b)[..|a + b| - 1] == a + b[..m];
      DirectsAppend(a, b[..m]);
    }
  }

  lemma {:induction false} NoDirects(cmds: seq<Command>)
    requires forall i :: 0 <= i < |cmds| ==> !cmds[i].Direct?
    ensures Directs(cmds) == []
    decreases |cmds|
  {
    if cmds != [] {
      NoDirects(cmds[..|cmds| - 1]);
    }
  }

  lemma OneDirect(line: string)
    ensures Directs([Direct(line)]) == [line]
  {
    assert [Direct(line)][..0] == [];
  }

  lemma DirectsOfMove(s: State, m: Move)
    requires Consistent(s)
    ensures Directs(Do(s, m).1) ==
      match m
      case On(e) => OwnLine(s.pend, e)
      case Top(_) => []
      case Bottom(clipboard) =>
        if s.confirmed && s.pend == "" && clipboard.Some? && clipboard.value != "" then ["send-paste " + clipboard.value] else []
    ensures Do(s, m).0.confirmed <==>
      match m
      case On(e) => e.CtrlVRelease? || s.confirmed
      case Top(_) => s.confirmed && s.pend == ""
      case Bottom(_) => false
  {
    hide Bytes, NonAscii, Directs;
    NoDirects([SendPaste(s.pend)]);
    NoDirects(Typed(s.pend));
    NoDirects([]);
    if m.Bottom? && m.clipboard.Some? { OneDirect("send-paste " + m.clipboard.value); }
    if m.On? {
      match m.e {
        case NotBufferable(line) => OneDirect(line); DirectsAppend(FlushAsText(s).1, [Direct(line)]);
        case Enter(direct) => OneDirect(direct);
        case Tab => OneDirect("send-key tab\n");
        case Other(line) => OneDirect(line);
        case _ =>
      }
    }
  }

  /** Over every run the lines that do not come from the buffer are exactly those, in order. */
  lemma {:induction false} OwnLinesSent(s: State, t: Trace)
    requires Consistent(s)
    ensures Directs(Commands(s, t)) == OwnLines(s, t) && (Run(s, t).confirmed <==> Released(s, t))
  {
    hide Do, Directs, OwnLine;
    match t {
      case Start => NoDirects([]);
      case After(past, m) =>
        OwnLinesSent(s, past);
        AlwaysConsistent(s, past);
        DirectsOfMove(Run(s, past), m);
        DirectsAppend(Commands(s, past), Do(Run(s, past), m).1);
    }
  }

  /** When an interrupting key, Enter or Tab sends its own line, all text pending at first and pushed
      before it has been sent before that line. */
  lemma OwnLineBehindText(s: State, past: Trace, e: Event)
    requires (e.NotBufferable? || e.Enter? || e.Tab?) && OwnLine(Run(s, past).pend, e) != []
    ensures
      var cmds := Do(Run(s, past), On(e)).1;
      && cmds != [] && cmds[|cmds| - 1] == Direct(OwnLine(Run(s, past).pend, e)[0])
      && Sent(Commands(s, past) + cmds[..|cmds| - 1]) == s.pend + AllPushed(s, past)
  {
    hide Sent, Typed, Bytes, NonAscii;
    var u := Run(s, past);
    var cmds := Do(u, On(e)).1;
    var front := cmds[..|cmds| - 1];
    TextConserved(s, past);
    SentAppend(Commands(s, past), front);
    FrontSendsPending(u, e);
  }

  lemma FrontSendsPending(u: State, e: Event)
    requires (e.NotBufferable? || e.Enter? || e.Tab?) && OwnLine(u.pend, e) != []
    ensures
      var cmds := OnEvent(u, e).1;
      cmds != [] && Sent(cmds[..|cmds| - 1]) == u.pend
  {
    hide Sent;
    SentTyped(u.pend);
    SentOne(SendPaste(u.pend));
    SentNothing();
    if e.NotBufferable? {
      var flushed := FlushAsText(u).1;
      assert (flushed + [Direct(e.line)])[..|flushed|] == flushed;
    } else {
      assert OnEvent(u, e).1[..0] == [];
    }
  }

  /** At the bottom of a turn in which Ctrl+V was released the whole buffer goes out as one paste. */
  lemma ReleaseSendsBuffer(s: State, t: Trace, clipboard: Option<string>)
    requires Consistent(s) && Released(s, t) && Run(s, t).pend != ""
    ensures
      var (r, cmds) := Do(Run(s, t), Bottom(clipboard));
      cmds == [SendPaste(Run(s, t).pend)] && r.pend == "" && !r.confirmed
  {
    OwnLinesSent(s, t);
  }

  // ----- characters suppressed after a right click -----

  /** Until when plain characters are dropped: 2000 ms from the last right click that copied, unless a
      plain character has been taken since. */
  function Window(s: State, t: Trace): Option<int> {
    match t
    case Start => s.suppressUntil
    case After(past, m) =>
      if m.On? && m.e.RightClickCopy? then Some(m.e.now + 2000)
      else if m.On? && m.e.Plain? && !(Window(s, past).Some? && m.e.now < Window(s, past).value) then None
      else Window(s, past)
  }

  lemma {:induction false} WindowKept(s: State, t: Trace)
    ensures Run(s, t).suppressUntil == Window(s, t)
  {
    hide Do;
    match t {
      case Start =>
      case After(past, m) =>
        WindowKept(s, past);
        WindowMove(Run(s, past), m);
    }
  }

  lemma WindowMove(u: State, m: Move)
    ensures Do(u, m).0.suppressUntil ==
      if m.On? && m.e.RightClickCopy? then Some(m.e.now + 2000)
      else if m.On? && m.e.Plain? && !(u.suppressUntil.Some? && m.e.now < u.suppressUntil.value) then None
      else u.suppressUntil
  {
    hide Bytes, NonAscii, Typed, IsBurst;
  }

  /** A plain character is dropped exactly inside that window. */
  lemma DroppedIffInWindow(s: State, t: Trace, c: char, now: int)
    ensures
      var u := Run(s, t);
      Run(s, After(t, On(Plain(c, now)))).pend == (if Window(s, t).Some? && now < Window(s, t).value then u.pend else u.pend + [c])
  {
    WindowKept(s, t);
  }

  /** What the events type, one after the other: characters typed with AltGr and spaces always, plain
      characters outside the window, Enter and Tab as text only behind other text. */
  function Characters(s: State, t: Trace): string {
    match t
    case Start => ""
    case After(past, m) =>
      var behind := Run(s, past).pend != "";
      Characters(s, past)
      + if !m.On? then ""
        else
          match m.e
          case Printable(c, _) => [c]
          case Plain(c, now) => if Window(s, past).Some? && now < Window(s, past).value then "" else [c]
          case Enter(_) => if behind then "\n" else ""
          case Tab => if behind then "\t" else ""
          case _ => ""
  }

  /** Everything typed is sent or pending, in order, and nothing else. */
  lemma TypedIsSentOrPending(s: State, t: Trace)
    ensures Sent(Commands(s, t)) + Run(s, t).pend == s.pend + Characters(s, t)
  {
    hide Sent;
    TextConserved(s, t);
    PushedIsTyped(s, t);
  }

  lemma {:induction false} PushedIsTyped(s: State, t: Trace)
    ensures AllPushed(s, t) == Characters(s, t)
  {
    hide Do, Run;
    match t {
      case Start =>
      case After(past, m) =>
        PushedIsTyped(s, past);
        WindowKept(s, past);
    }
  }

  /** Line ends, tabs and spaces never go out as text, only as the keys of those names. */
  predicate NamedKey(cmd: Command) {
    && (cmd.SendText? ==> cmd.c != '\n' && cmd.c != '\t' && cmd.c != ' ')
    && (cmd.SendKey? ==> cmd.name == "enter" || cmd.name == "tab" || cmd.name == "space")
  }

  lemma {:induction false} BlanksGoAsKeys(s: State, t: Trace)
    ensures forall i :: 0 <= i < |Commands(s, t)| ==> NamedKey(Commands(s, t)[i])
  {
    hide Do, NamedKey;
    match t {
      case Start =>
      case After(past, m) =>
        BlanksGoAsKeys(s, past);
        MoveNamesKeys(Run(s, past), m);
    }
  }

  lemma MoveNamesKeys(u: State, m: Move)
    ensures forall i :: 0 <= i < |Do(u, m).1| ==> NamedKey(Do(u, m).1[i])
  {
    hide Bytes, NonAscii, IsBurst, Typed;
    TypedNamesKeys(u.pend);
  }

  lemma TypedNamesKeys(text: string)
    ensures forall i :: 0 <= i < |Typed(text)| ==> NamedKey(Typed(text)[i])
  {
  }

  // ----- bytes and characters -----

  lemma {:induction false} BytesAndCharacters(text: string)
    ensures Bytes(text) >= |text|
    ensures Bytes(text) == |text| <==> !NonAscii(text)
    decreases |text|
  {
    if text != "" {
      var m := |text| - 1;
      BytesAndCharacters(text[..m]);
      NonAsciiPart(text[..m], [text[m]]);
      assert text[..m] + [text[m]] == text;
      assert NonAscii([text[m]]) <==> text[m] as int >= 128 by {
        assert [text[m]][0] == text[m];
      }
    }
  }

  /** Comparing bytes decides as comparing characters would, except for a text with a non-ASCII
      character that has fewer than 20 characters but 20 bytes or more. */
  lemma ByteTestIsCharacterTestIff(text: string)
    ensures (IsBurst(Bytes(text), text) <==> IsBurst(|text|, text))
      <==> !(NonAscii(text) && |text| < LARGE_BURST_BYTES <= Bytes(text))
  {
    BytesAndCharacters(text);
  }

  /** Seven characters of three bytes each count as a large burst. */
  lemma SevenWideCharactersAreABurst()
    ensures
      var text := "\U{4e2d}\U{4e2d}\U{4e2d}\U{4e2d}\U{4e2d}\U{4e2d}\U{4e2d}";
      |text| < LARGE_BURST_BYTES && AtTop(State(text, Some(0), false, false, 0, None), 21).0.stage2
  {
    var text := "\U{4e2d}\U{4e2d}\U{4e2d}\U{4e2d}\U{4e2d}\U{4e2d}\U{4e2d}";
    WideBytes(text);
    assert NonAscii(text) by { assert text[0] as int >= 128; }
  }

  lemma {:induction false} WideBytes(text: string)
    requires forall i :: 0 <= i < |text| ==> text[i] == '\U{4e2d}'
    ensures Bytes(text) == 3 * |text|
    decreases |text|
  {
    if text != "" {
      WideBytes(text[..|text| - 1]);
    }
  }

  /** A key that interrupts the buffer finds it empty when its own command goes out. */
  lemma InterruptingKeyFlushes(s: State, line: string)
    ensures
      var (t, cmds) := OnEvent(s, NotBufferable(line));
      t.pend == "" && cmds != [] && cmds[|cmds| - 1] == Direct(line) && Sent(cmds) == s.pend
  {
    MoveConserves(s, On(NotBufferable(line)));
    assert Sent(OnEvent(s, NotBufferable(line)).1) + "" == Sent(OnEvent(s, NotBufferable(line)).1);
    assert s.pend + "" == s.pend;
  }

  // ----- the buffer empties -----

  /** Turns without events, at the given times. */
  function QuietTurns(times: seq<int>): Trace {
    if times == [] then Start
    else After(After(QuietTurns(times[..|times| - 1]), Top(times[|times| - 1])), Bottom(None))
  }

  /** The last moment at which the timer lets the buffer be. */
  function Deadline(s: State): int
    requires s.start.Some?
  {
    s.start.value + (if s.stage2 then 300 else 20)
  }

  /** How many of the turns change the state. */
  function Fired(s: State, times: seq<int>): nat {
    if times == [] then 0
    else
      Fired(s, times[..|times| - 1])
      + (if Run(s, QuietTurns(times)) != Run(s, QuietTurns(times[..|times| - 1])) then 1 else 0)
  }

  lemma QuietTurn(s: State, times: seq<int>, now: int)
    requires !Run(s, QuietTurns(times)).confirmed
    ensures
      var u := Run(s, QuietTurns(times));
      Run(s, QuietTurns(times + [now])) == AtTop(u, now).0 && !AtTop(u, now).0.confirmed
    ensures Fired(s, times + [now]) == Fired(s, times)
      + (if AtTop(Run(s, QuietTurns(times)), now).0 != Run(s, QuietTurns(times)) then 1 else 0)
    ensures AllPushed(s, QuietTurns(times + [now])) == AllPushed(s, QuietTurns(times))
  {
    hide AtTop;
    assert (times + [now])[..|times|] == times;
    var t := QuietTurns(times);
    assert Run(s, After(t, Top(now))) == AtTop(Run(s, t), now).0;
    assert AllPushed(s, t) + "" == AllPushed(s, t);
    TopKeepsUnconfirmed(Run(s, t), now);
  }

  lemma TopKeepsUnconfirmed(s: State, now: int)
    requires !s.confirmed
    ensures !AtTop(s, now).0.confirmed
  {
  }

  /** The timer acts exactly when its deadline has passed. */
  lemma TimerFiresIffPastDeadline(s: State, now: int)
    requires Consistent(s) && !s.confirmed
    ensures AtTop(s, now).0 != s <==> s.start.Some? && now > Deadline(s)
  {
  }

  /** After one firing the text has gone, or waits in stage 2 for a second one that will send it. */
  ghost predicate FiredOnce(s: State, r: State, times: seq<int>, k: nat) {
    && k < |times| && s.start.Some? && times[k] > Deadline(s)
    && (forall i :: 0 <= i < k ==> times[i] <= Deadline(s))
    && r.pend == s.pend && r.stage2 && r.stage2LastLen == Bytes(r.pend)
    && r.start == Some(if s.stage2 then times[k] - STAGE2_EXTENSION_MS else s.start.value)
    && (forall i :: k < i < |times| ==> times[i] <= r.start.value + STAGE2_MS)
  }

  ghost predicate Phase(s: State, r: State, times: seq<int>, fired: nat) {
    || (fired == 0 && r == s && (s.start.Some? ==> forall i :: 0 <= i < |times| ==> times[i] <= Deadline(s)))
    || (fired == 1 && exists k :: FiredOnce(s, r, times, k))
    || (1 <= fired <= 2 && r.pend == "")
  }

  lemma PhaseStep(s: State, r: State, times: seq<int>, fired: nat, now: int)
    requires Consistent(s) && !s.confirmed && Consistent(r) && !r.confirmed && Phase(s, r, times, fired)
    ensures
      var next := AtTop(r, now).0;
      Phase(s, next, times + [now], fired + if next != r then 1 else 0)
  {
    hide Bytes, NonAscii, Typed;
    var next := AtTop(r, now).0;
    var later := times + [now];
    if fired == 0 {
      if next != r && next.pend != "" {
        assert later[|times|] == now;
        assert FiredOnce(s, next, later, |times|);
      }
    } else if fired == 1 && exists k :: FiredOnce(s, r, times, k) {
      var k: nat :| FiredOnce(s, r, times, k);
      if next == r {
        assert later[k] == times[k];
        assert FiredOnce(s, r, later, k);
      }
    }
  }

  lemma {:induction false} QuietPhase(s: State, times: seq<int>)
    requires Consistent(s) && !s.confirmed
    ensures
      var r := Run(s, QuietTurns(times));
      && Consistent(r) && !r.confirmed && Phase(s, r, times, Fired(s, times))
      && AllPushed(s, QuietTurns(times)) == ""
    decreases |times|
  {
    hide AtTop, Phase, Consistent;
    if times == [] {
      assert QuietTurns(times) == Start;
      PhaseStart(s);
    } else {
      var before, now := times[..|times| - 1], times[|times| - 1];
      assert times == before + [now];
      QuietPhase(s, before);
      AlwaysConsistent(s, QuietTurns(times));
      QuietTurn(s, before, now);
      PhaseStep(s, Run(s, QuietTurns(before)), before, Fired(s, before), now);
    }
  }

  lemma PhaseStart(s: State)
    ensures Phase(s, s, [], 0)
  {
  }

  predicate ActsIffPastDeadline(s: State, times: seq<int>, i: nat)
    requires i < |times|
  {
    var found := Run(s, QuietTurns(times[..i]));
    Run(s, QuietTurns(times[..i + 1])) != found <==> found.start.Some? && times[i] > Deadline(found)
  }

  lemma TurnActs(s: State, times: seq<int>, i: nat)
    requires Consistent(s) && !s.confirmed && i < |times|
    ensures ActsIffPastDeadline(s, times, i)
  {
    hide Run, QuietTurns, AtTop;
    var before := times[..i];
    QuietPhase(s, before);
    assert times[..i + 1] == before + [times[i]];
    QuietTurn(s, before, times[i]);
    TimerFiresIffPastDeadline(Run(s, QuietTurns(before)), times[i]);
  }

  /** Once no more characters arrive, whatever the times of the turns, a turn changes something
      exactly when it comes after the deadline of the state it finds; at most two of them do, and with
      the second the buffer is empty.  Nothing pending at first is lost. */
  lemma TwoTimersEmptyTheBuffer(s: State, times: seq<int>)
    requires Consistent(s) && !s.confirmed
    ensures
      var t := QuietTurns(times);
      && Fired(s, times) <= 2
      && (Fired(s, times) == 2 ==> Run(s, t).pend == "")
      && Sent(Commands(s, t)) + Run(s, t).pend == s.pend
    ensures forall i :: 0 <= i < |times| ==> ActsIffPastDeadline(s, times, i)
  {
    hide Sent, Commands, Run, QuietTurns, ActsIffPastDeadline, Consistent;
    forall i | 0 <= i < |times|
      ensures ActsIffPastDeadline(s, times, i)
    {
      TurnActs(s, times, i);
    }
    QuietPhase(s, times);
    TextConserved(s, QuietTurns(times));
    assert s.pend + "" == s.pend;
  }

  /** It empties in time: one turn more than 300 ms after the start of the burst and one more than
      20 ms after that suffice, whatever turns come before, between and behind them. */
  lemma BufferEmptiesInTime(s: State, times: seq<int>, i: nat, j: nat)
    requires Consistent(s) && !s.confirmed
    requires forall a, b :: 0 <= a < b < |times| ==> times[a] <= times[b]
    requires i < j < |times|
    requires s.start.Some? ==> times[i] > s.start.value + 300 && times[j] > times[i] + 20
    ensures Run(s, QuietTurns(times)).pend == "" && Sent(Commands(s, QuietTurns(times))) == s.pend
  {
    hide Run, QuietTurns, Commands, Sent, Fired, Bytes;
    TwoTimersEmptyTheBuffer(s, times);
    QuietPhase(s, times);
    var sent := Sent(Commands(s, QuietTurns(times)));
    assert sent + "" == sent;
  }

  /** So after any run of turns everything ever pushed is sent in time, in order. */
  lemma EverythingPushedIsSent(t: Trace, times: seq<int>, i: nat, j: nat)
    requires forall a, b :: 0 <= a < b < |times| ==> times[a] <= times[b]
    requires i < j < |times| && InTurns(After(t, Top(times[0])))
    requires Run(EMPTY, t).start.Some? ==>
      times[i] > Run(EMPTY, t).start.value + 300 && times[j] > times[i] + 20
    ensures Sent(Commands(EMPTY, t)) + Sent(Commands(Run(EMPTY, t), QuietTurns(times))) == AllPushed(EMPTY, t)
  {
    hide Sent, Run, Commands, QuietTurns, AllPushed;
    AlwaysConsistent(EMPTY, t);
    NeverConfirmedAtTop(t, times[0]);
    BufferEmptiesInTime(Run(EMPTY, t), times, i, j);
    TextConserved(EMPTY, t);
    assert "" + AllPushed(EMPTY, t) == AllPushed(EMPTY, t);
  }

  /** The line sent for one typed character reads back as that character. */
  lemma TypedCharacterParsesBack(c: char)
    ensures CommandLine.Parse("send-text" + (" " + (CommandLine.Quote([c]) + "\n"))) == ["send-text", [c]]
  {
    CommandLine.SentTextParsesBack("send-text", [c]);
  }
}
