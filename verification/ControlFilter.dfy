/** The client-side filter of control-mode lines (core/src/control.rs).

Blocks whose %begin carries the safe bit may show only one decoded frame; everything
else in them is held back, dropped or replaced by a fixed error. */
module ControlFilter {
  import opened Text
  import ControlWire

  const SAFE_ENVIRONMENT_FLAG: nat := 2
  const FRAME_PREFIX: string := "\0winsmux-safe-environment-response-v1 "
  const INCOMPATIBLE: string :=
    "the running server does not support " + "safe show-environment responses; restart the server and retry"

  datatype Response = Good(payload: string) | Failed(payload: string)

  /** The JSON text of a response and its reader. */
  datatype Codec = Codec(encode: Response -> string, decode: string -> Option<Response>)
  {
    /** Encoding is undone by decoding, has no raw line ends (RFC 8259, section 7), and a decoded
        payload is no longer than the text that carried it. */
    ghost predicate Sound() {
      && (forall r :: decode(encode(r)) == Some(r))
      && (forall r :: '\n' !in encode(r) && '\r' !in encode(r))
      && (forall s :: decode(s).Some? ==> |decode(s).value.payload| <= |s|)
    }
  }

  function EncodeFrame(codec: Codec, r: Response): string {
    FRAME_PREFIX + codec.encode(r) + "\n"
  }

  predicate EndsWith(s: string, suffix: string) {
    |suffix| <= |s| && s[|s| - |suffix|..] == suffix
  }

  function DecodeFrame(codec: Codec, line: string): Option<Response> {
    if !(FRAME_PREFIX <= line) then None
    else
      var rest := line[|FRAME_PREFIX|..];
      if !EndsWith(rest, "\n") then None
      else
        var frame := if EndsWith(rest, "\r\n") then rest[..|rest| - 2] else rest[..|rest| - 1];
        if '\r' in frame || '\n' in frame then None else codec.decode(frame)
  }

  lemma FrameRoundTrip(codec: Codec, r: Response)
    requires codec.Sound()
    ensures DecodeFrame(codec, EncodeFrame(codec, r)) == Some(r)
  {
    var json := codec.encode(r);
    var line := EncodeFrame(codec, r);
    assert line[|FRAME_PREFIX|..] == json + "\n";
    assert (json + "\n")[|json|..] == "\n" && (json + "\n")[..|json|] == json;
    if json != "" {
      assert (json + "\n")[|json| - 1..][0] == json[|json| - 1];
      assert json[|json| - 1] in json;
    }
  }

  // ----- one line -----

  datatype Active = Active(number: nat, safe: bool, handled: bool)

  datatype State = State(active: Option<Active>, deferred: string)

  const IDLE := State(None, "")

  function BeginOf(line: string): Option<(nat, nat)> { ControlWire.Metadata(line, "%begin") }

  /** The command number closed by an end or error marker. */
  function ClosedBy(line: string): Option<nat> {
    match ControlWire.Metadata(line, "%end")
    case Some((number, _)) => Some(number)
    case None =>
      match ControlWire.Metadata(line, "%error")
      case Some((number, _)) => Some(number)
      case None => None
  }

  predicate Notification(line: string) { "%" <= line }

  predicate SafeBit(flags: nat) { flags / SAFE_ENVIRONMENT_FLAG % 2 == 1 }

  /** What the first payload line of a safe block shows, behind the notifications held back. */
  function Rendered(codec: Codec, line: string, deferred: string): string {
    match DecodeFrame(codec, line)
    case Some(Good(output)) => deferred + output
    case Some(Failed(error)) => deferred + error + "\n"
    case None => INCOMPATIBLE + "\n"
  }

  function Step(codec: Codec, s: State, line: string): (State, string) {
    match s.active
    case None =>
      (match BeginOf(line)
       case None => (s, line)
       case Some((number, flags)) => (State(Some(Active(number, SafeBit(flags), false)), ""), line))
    case Some(a) =>
      match ClosedBy(line)
      case Some(number) =>
        var closes := number == a.number;
        (State(if closes then None else s.active, ""),
         if closes && a.safe && !a.handled then INCOMPATIBLE + "\n" + line else line)
      case None =>
        if !a.safe then (s, line)
        else if a.handled then (s, if Notification(line) then line else "")
        else if Notification(line) then (s.(deferred := s.deferred + line), "")
        else (State(Some(a.(handled := true)), ""), Rendered(codec, line, s.deferred))
  }

  class ControlClientResponseFilter {
    const codec: Codec
    var activeResponse: Option<Active>
    var deferredNotifications: string

    function Model(): State
      reads this
    {
      State(activeResponse, deferredNotifications)
    }

    constructor (codec: Codec)
      ensures this.codec == codec && Model() == IDLE
    {
      this.codec, activeResponse, deferredNotifications := codec, None, "";
    }

    method FilterServerLine(line: string) returns (out: string)
      modifies this
      ensures (Model(), out) == Step(codec, old(Model()), line)
    {
      hide ControlWire.Metadata;
      if activeResponse.None? {
        var begin := ControlWire.Metadata(line, "%begin");
        if begin.None? {
          return line;
        }
        deferredNotifications := "";
        activeResponse := Some(Active(begin.value.0, SafeBit(begin.value.1), false));
        return line;
      }
      var closing := ControlWire.Metadata(line, "%end");
      if closing.None? {
        closing := ControlWire.Metadata(line, "%error");
      }
      var response := activeResponse.value;
      if closing.Some? {
        var missing := response.number == closing.value.0 && response.safe && !response.handled;
        if response.number == closing.value.0 {
          activeResponse := None;
        }
        deferredNotifications := "";
        if missing {
          return INCOMPATIBLE + "\n" + line;
        }
        return line;
      }
      if !response.safe {
        return line;
      }
      if !response.handled && Notification(line) {
        deferredNotifications := deferredNotifications + line;
        return "";
      }
      if response.handled {
        return if Notification(line) then line else "";
      }
      activeResponse := Some(response.(handled := true));
      match DecodeFrame(codec, line) {
        case Some(Good(output)) =>
          out := deferredNotifications + output;
          deferredNotifications := "";
        case Some(Failed(error)) =>
          out := deferredNotifications + error + "\n";
          deferredNotifications := "";
        case None =>
          deferredNotifications := "";
          out := INCOMPATIBLE + "\n";
      }
    }
  }

  // ----- streams -----

  function Run(codec: Codec, s: State, lines: seq<string>): State {
    if lines == [] then s else Step(codec, Run(codec, s, lines[..|lines| - 1]), lines[|lines| - 1]).0
  }

  /** What line i of the stream is turned into. */
  function Output(codec: Codec, s: State, lines: seq<string>, i: nat): string
    requires i < |lines|
  {
    Step(codec, Run(codec, s, lines[..i]), lines[i]).1
  }

  lemma RunOneMore(codec: Codec, s: State, lines: seq<string>, i: nat)
    requires i < |lines|
    ensures Run(codec, s, lines[..i + 1]) == Step(codec, Run(codec, s, lines[..i]), lines[i]).0
  {
    assert lines[..i + 1][..i] == lines[..i];
  }

  predicate SafeBegin(line: string) {
    BeginOf(line).Some? && SafeBit(BeginOf(line).value.1)
  }

  lemma {:induction false} NeverSafe(codec: Codec, lines: seq<string>, i: nat)
    requires i <= |lines| && forall k :: 0 <= k < |lines| ==> !SafeBegin(lines[k])
    ensures var s := Run(codec, IDLE, lines[..i]); s.active.Some? ==> !s.active.value.safe
    decreases i
  {
    hide ControlWire.Metadata;
    if i > 0 {
      NeverSafe(codec, lines, i - 1);
      RunOneMore(codec, IDLE, lines, i - 1);
    }
  }

  /** Without a safe %begin the filter passes every line through unchanged. */
  lemma IdentityWithoutSafeBit(codec: Codec, lines: seq<string>, i: nat)
    requires i < |lines| && forall k :: 0 <= k < |lines| ==> !SafeBegin(lines[k])
    ensures Output(codec, IDLE, lines, i) == lines[i]
  {
    hide ControlWire.Metadata;
    NeverSafe(codec, lines, i);
  }

  // ----- one safe block, line by line -----

  predicate Payload(line: string) {
    ClosedBy(line).None? && !Notification(line)
  }

  /** The first payload line among the first n, or n. */
  function FirstPayload(body: seq<string>, n: nat): (p: nat)
    requires n <= |body|
    ensures p <= n
    ensures p < n ==> Payload(body[p])
    ensures forall k :: 0 <= k < p ==> !Payload(body[k])
  {
    if n == 0 then 0
    else
      var p := FirstPayload(body, n - 1);
      if p < n - 1 || Payload(body[n - 1]) then p else n
  }

  /** Notifications among the first n lines since the last end or error marker. */
  function Waiting(body: seq<string>, n: nat): string
    requires n <= |body|
  {
    if n == 0 || ClosedBy(body[n - 1]).Some? then ""
    else Waiting(body, n - 1) + (if Notification(body[n - 1]) then body[n - 1] else "")
  }

  /** What a line inside a safe block becomes, from its place in the block alone: one payload line
      is rendered, the notifications before it wait for it, later ones pass, the rest is dropped. */
  function InBlock(codec: Codec, body: seq<string>, i: nat): string
    requires i < |body|
  {
    var p := FirstPayload(body, |body|);
    if ClosedBy(body[i]).Some? then body[i]
    else if i == p then
      match DecodeFrame(codec, body[i])
      case Some(Good(output)) => Waiting(body, i) + output
      case Some(Failed(error)) => Waiting(body, i) + error + "\n"
      case None => INCOMPATIBLE + "\n"
    else if i > p && Notification(body[i]) then body[i]
    else ""
  }

  /** The block's own number is not closed before the end. */
  predicate OpenBody(body: seq<string>, number: nat) {
    forall k :: 0 <= k < |body| ==> ClosedBy(body[k]) != Some(number)
  }

  lemma {:induction false} BlockState(codec: Codec, number: nat, body: seq<string>, i: nat)
    requires OpenBody(body, number) && i <= |body|
    ensures
      var p := FirstPayload(body, i);
      Run(codec, State(Some(Active(number, true, false)), ""), body[..i])
      == State(Some(Active(number, true, p < i)), if p < i then "" else Waiting(body, i))
    decreases i
  {
    hide ControlWire.Metadata, DecodeFrame, ClosedBy;
    if i > 0 {
      BlockState(codec, number, body, i - 1);
      RunOneMore(codec, State(Some(Active(number, true, false)), ""), body, i - 1);
    }
  }

  /** Each line of a safe block shows exactly what its place in the block says. */
  lemma BlockOutput(codec: Codec, number: nat, body: seq<string>, i: nat)
    requires OpenBody(body, number) && i < |body|
    ensures Output(codec, State(Some(Active(number, true, false)), ""), body, i) == InBlock(codec, body, i)
  {
    hide ControlWire.Metadata, DecodeFrame, ClosedBy;
    BlockState(codec, number, body, i);
    assert FirstPayload(body, i) < i <==> FirstPayload(body, |body|) < i;
  }

  /** When the block closes without a payload line, the fixed error stands in for the frame;
      otherwise the footer passes alone.  Either way the filter is idle again. */
  lemma BlockCloses(codec: Codec, number: nat, body: seq<string>, end: string)
    requires OpenBody(body, number) && ClosedBy(end) == Some(number)
    ensures
      var (s, out) := Step(codec, Run(codec, State(Some(Active(number, true, false)), ""), body), end);
      s == IDLE && out == if FirstPayload(body, |body|) < |body| then end else INCOMPATIBLE + "\n" + end
  {
    BlockState(codec, number, body, |body|);
    assert body[..|body|] == body;
  }

  lemma {:induction false} RunAppend(codec: Codec, s: State, a: seq<string>, b: seq<string>)
    ensures Run(codec, s, a + b) == Run(codec, Run(codec, s, a), b)
    decreases |b|
  {
    hide Step;
    if b == [] {
      assert a + b == a;
    } else {
      assert (a + b)[..|a + b| - 1] == a + b[..|b| - 1];
      RunAppend(codec, s, a, b[..|b| - 1]);
    }
  }

  lemma OpenedBySafeBegin(codec: Codec, begin: string)
    requires SafeBegin(begin)
    ensures Run(codec, IDLE, [begin]) == State(Some(Active(BeginOf(begin).value.0, true, false)), "")
    ensures Step(codec, IDLE, begin).1 == begin
  {
    assert [begin][..0] == [];
  }

  /** The whole transcript of a completed safe block: header, one rendered payload or the fixed
      error before the footer, nothing else but markers and notifications, and back to idle. */
  lemma SafeBlockTranscript(codec: Codec, begin: string, body: seq<string>, end: string)
    requires SafeBegin(begin) && OpenBody(body, BeginOf(begin).value.0) && ClosedBy(end) == Some(BeginOf(begin).value.0)
    ensures
      var lines := [begin] + body + [end];
      && Output(codec, IDLE, lines, 0) == begin
      && (forall i :: 0 <= i < |body| ==> Output(codec, IDLE, lines, 1 + i) == InBlock(codec, body, i))
      && Output(codec, IDLE, lines, 1 + |body|)
         == (if FirstPayload(body, |body|) < |body| then end else INCOMPATIBLE + "\n" + end)
      && Run(codec, IDLE, lines) == IDLE
  {
    hide Step, BeginOf, ClosedBy, InBlock, FirstPayload;
    var lines := [begin] + body + [end];
    var number := BeginOf(begin).value.0;
    OpenedBySafeBegin(codec, begin);
    var open := Run(codec, IDLE, [begin]);
    assert lines[..0] == [];
    forall i | 0 <= i < |body|
      ensures Output(codec, IDLE, lines, 1 + i) == InBlock(codec, body, i)
    {
      assert lines[..1 + i] == [begin] + body[..i];
      RunAppend(codec, IDLE, [begin], body[..i]);
      BlockOutput(codec, number, body, i);
    }
    assert lines[..1 + |body|] == [begin] + body;
    RunAppend(codec, IDLE, [begin], body);
    BlockCloses(codec, number, body, end);
    assert lines[..|lines| - 1] == [begin] + body;
  }

  // ----- blocks as the server writes them -----

  /** A block of formatted lines: header, body, and an end or error footer of the same number. */
  datatype Block = Block(timestamp: int, number: nat, flags: nat, body: seq<string>, failed: bool, closed: int, closeFlags: nat)
  {
    function Header(): string { ControlWire.FormatBegin(timestamp, number, flags) + "\n" }

    function Footer(): string {
      (if failed then ControlWire.FormatError(closed, number, closeFlags) else ControlWire.FormatEnd(closed, number, closeFlags))
      + "\n"
    }

    function Lines(): seq<string> { [Header()] + body + [Footer()] }

    /** Bit 1 of the flags. */
    predicate Safe() { flags % 4 >= 2 }

    /** The numbers fit the machine, and no line of the body is an end or error line of this number. */
    predicate Valid() {
      && ControlWire.MinI64() <= timestamp <= ControlWire.MAX_I64 && ControlWire.MinI64() <= closed <= ControlWire.MAX_I64
      && number <= ControlWire.MAX_U64 && flags <= ControlWire.MAX_U64 && closeFlags <= ControlWire.MAX_U64
      && forall k :: 0 <= k < |body| ==> !Names(body[k], "%end", number) && !Names(body[k], "%error", number)
    }
  }

  /** The line is such a marker of this command number. */
  predicate Names(line: string, marker: string, number: nat) {
    ControlWire.Metadata(line, marker).Some? && ControlWire.Metadata(line, marker).value.0 == number
  }

  lemma HeaderOpens(b: Block)
    requires b.Valid()
    ensures BeginOf(b.Header()) == Some((b.number, b.flags)) && (SafeBit(b.flags) <==> b.Safe())
  {
    hide ControlWire.Metadata, ControlWire.FormatMarker, SafeBit, Names;
    ControlWire.MarkerKindsApart(b.timestamp, b.number, b.flags, "\n");
    BitOne(b.flags);
  }

  lemma BitOne(flags: nat)
    ensures SafeBit(flags) <==> flags % 4 >= 2
  {
    assert flags == 4 * (flags / 4) + flags % 4;
    assert flags / 2 == 2 * (flags / 4) + flags % 4 / 2;
  }

  lemma FooterCloses(b: Block)
    requires b.Valid()
    ensures ClosedBy(b.Footer()) == Some(b.number)
  {
    hide ControlWire.Metadata, ControlWire.FormatMarker, Names;
    ControlWire.MarkerKindsApart(b.closed, b.number, b.closeFlags, "\n");
  }

  lemma BodyStaysOpen(b: Block)
    requires b.Valid()
    ensures OpenBody(b.body, b.number)
  {
    hide ControlWire.Metadata;
  }

  lemma {:induction false} OrdinaryState(codec: Codec, number: nat, body: seq<string>, i: nat)
    requires OpenBody(body, number) && i <= |body|
    ensures Run(codec, State(Some(Active(number, false, false)), ""), body[..i]) == State(Some(Active(number, false, false)), "")
    decreases i
  {
    hide ClosedBy, Step, Run;
    var open := State(Some(Active(number, false, false)), "");
    if i == 0 {
      assert body[..0] == [];
      NothingRun(codec, open);
    } else {
      OrdinaryState(codec, number, body, i - 1);
      RunOneMore(codec, open, body, i - 1);
      OrdinaryBodyLine(codec, number, body[i - 1]);
    }
  }

  lemma OrdinaryBodyLine(codec: Codec, number: nat, line: string)
    requires ClosedBy(line) != Some(number)
    ensures Step(codec, State(Some(Active(number, false, false)), ""), line).0 == State(Some(Active(number, false, false)), "")
  {
    hide ClosedBy, Rendered;
  }

  lemma OpenedByHeader(codec: Codec, b: Block)
    requires b.Valid()
    ensures Run(codec, IDLE, [b.Header()]) == State(Some(Active(b.number, b.Safe(), false)), "")
    ensures Step(codec, IDLE, b.Header()).1 == b.Header()
  {
    hide ControlWire.Metadata, Block.Header;
    HeaderOpens(b);
    assert [b.Header()][..0] == [];
  }

  lemma RunBody(codec: Codec, b: Block, i: nat)
    requires i <= |b.body|
    ensures b.Lines()[..1 + i] == [b.Header()] + b.body[..i]
    ensures Run(codec, IDLE, b.Lines()[..1 + i]) == Run(codec, Run(codec, IDLE, [b.Header()]), b.body[..i])
  {
    hide Step, Run, Block.Header, Block.Footer;
    assert b.Lines()[..1 + i] == [b.Header()] + b.body[..i];
    RunAppend(codec, IDLE, [b.Header()], b.body[..i]);
  }

  lemma InsideOrdinary(codec: Codec, b: Block, i: nat)
    requires b.Valid() && !b.Safe() && i <= |b.body|
    ensures Run(codec, IDLE, b.Lines()[..1 + i]) == State(Some(Active(b.number, false, false)), "")
  {
    hide Step, Run, Block.Header, Block.Footer, Block.Valid;
    OpenedByHeader(codec, b);
    BodyStaysOpen(b);
    RunBody(codec, b, i);
    OrdinaryState(codec, b.number, b.body, i);
  }

  lemma OrdinaryLine(codec: Codec, number: nat, line: string)
    ensures Step(codec, State(Some(Active(number, false, false)), ""), line).1 == line
    ensures ClosedBy(line) == Some(number) ==> Step(codec, State(Some(Active(number, false, false)), ""), line).0 == IDLE
  {
    hide ClosedBy;
  }

  /** An ordinary block passes line for line, its footer of either kind included. */
  lemma OrdinaryBlockPasses(codec: Codec, b: Block)
    requires b.Valid() && !b.Safe()
    ensures Run(codec, IDLE, b.Lines()) == IDLE
    ensures forall i :: 0 <= i < |b.Lines()| ==> Output(codec, IDLE, b.Lines(), i) == b.Lines()[i]
  {
    hide ClosedBy, Step, Run, Block.Header, Block.Footer, Block.Valid;
    var n := |b.body|;
    FooterCloses(b);
    InsideOrdinary(codec, b, n);
    OrdinaryLine(codec, b.number, b.Footer());
    RunOneMore(codec, IDLE, b.Lines(), n + 1);
    assert b.Lines()[..n + 2] == b.Lines();
    forall i | 0 <= i < |b.Lines()|
      ensures Output(codec, IDLE, b.Lines(), i) == b.Lines()[i]
    {
      if i == 0 {
        OpenedByHeader(codec, b);
        assert b.Lines()[..0] == [];
        NothingRun(codec, IDLE);
      } else {
        InsideOrdinary(codec, b, i - 1);
        OrdinaryLine(codec, b.number, b.Lines()[i]);
      }
    }
  }

  lemma NothingRun(codec: Codec, s: State)
    ensures Run(codec, s, []) == s
  {
  }

  /** A block with bit 1 set ends idle too, whether its footer is an end or an error line. */
  lemma SafeBlockEndsIdle(codec: Codec, b: Block)
    requires b.Valid() && b.Safe()
    ensures Run(codec, IDLE, b.Lines()) == IDLE && Output(codec, IDLE, b.Lines(), 0) == b.Header()
  {
    hide Step, Run, ClosedBy, InBlock, FirstPayload, ControlWire.Metadata, Block.Header, Block.Footer;
    HeaderOpens(b);
    BodyStaysOpen(b);
    FooterCloses(b);
    SafeBlockTranscript(codec, b.Header(), b.body, b.Footer());
  }

  function StreamLines(blocks: seq<Block>): seq<string> {
    if blocks == [] then [] else StreamLines(blocks[..|blocks| - 1]) + blocks[|blocks| - 1].Lines()
  }

  /** After any complete blocks, safe or not, ended or failed, the filter is idle. */
  lemma {:induction false} StreamEndsIdle(codec: Codec, blocks: seq<Block>)
    requires forall k :: 0 <= k < |blocks| ==> blocks[k].Valid()
    ensures Run(codec, IDLE, StreamLines(blocks)) == IDLE
    decreases |blocks|
  {
    hide Run, Block.Lines, Block.Valid, Block.Safe;
    if blocks == [] {
      NothingRun(codec, IDLE);
    } else {
      var past, b := blocks[..|blocks| - 1], blocks[|blocks| - 1];
      StreamEndsIdle(codec, past);
      RunAppend(codec, IDLE, StreamLines(past), b.Lines());
      if b.Safe() {
        SafeBlockEndsIdle(codec, b);
      } else {
        OrdinaryBlockPasses(codec, b);
      }
    }
  }

  /** So behind any complete blocks, failed safe ones included, an ordinary block comes out unchanged. */
  lemma OrdinaryBlockBehindAny(codec: Codec, blocks: seq<Block>, b: Block, i: nat)
    requires (forall k :: 0 <= k < |blocks| ==> blocks[k].Valid()) && b.Valid() && !b.Safe() && i < |b.Lines()|
    ensures Output(codec, IDLE, StreamLines(blocks) + b.Lines(), |StreamLines(blocks)| + i) == b.Lines()[i]
  {
    hide Run, Block.Lines, Block.Valid, Block.Safe, Step;
    var before := StreamLines(blocks);
    StreamEndsIdle(codec, blocks);
    OrdinaryBlockPasses(codec, b);
    assert (before + b.Lines())[..|before| + i] == before + b.Lines()[..i];
    RunAppend(codec, IDLE, before, b.Lines()[..i]);
    assert Output(codec, IDLE, b.Lines(), i) == b.Lines()[i];
  }

  // ----- what a safe block shows of its frame -----

  function Joined(lines: seq<string>): string {
    if lines == [] then "" else Joined(lines[..|lines| - 1]) + lines[|lines| - 1]
  }

  /** Starts with a percent sign and is no end or error line. */
  predicate Note(line: string) {
    line != "" && line[0] == '%' && ControlWire.Metadata(line, "%end").None? && ControlWire.Metadata(line, "%error").None?
  }

  lemma {:induction false} NotesWait(body: seq<string>, n: nat)
    requires n <= |body| && forall k :: 0 <= k < n ==> Note(body[k])
    ensures Waiting(body, n) == Joined(body[..n])
    decreases n
  {
    hide ControlWire.Metadata;
    if n > 0 {
      NotesWait(body, n - 1);
      assert body[..n][..n - 1] == body[..n - 1];
    }
  }

  /** What line k becomes when line p is the frame of r: notes before it wait, later ones pass. */
  function Shown(body: seq<string>, p: nat, r: Response, k: nat): string
    requires k < |body| && p < |body|
  {
    if k < p then ""
    else if k == p then Joined(body[..p]) + (if r.Good? then r.payload else r.payload + "\n")
    else if body[k] != "" && body[k][0] == '%' then body[k] else ""
  }

  /** A frame in a safe block, behind any notes and before any other lines: the notes and the frame's
      payload come out in its place, later notes pass, everything else vanishes. */
  lemma SafeBlockShowsFrame(codec: Codec, b: Block, p: nat, r: Response)
    requires codec.Sound() && b.Valid() && b.Safe() && p < |b.body|
    requires b.body[p] == "\0winsmux-safe-environment-response-v1 " + codec.encode(r) + "\n"
    requires (forall k :: 0 <= k < p ==> Note(b.body[k]))
    requires forall k :: p < k < |b.body| ==>
      ControlWire.Metadata(b.body[k], "%end").None? && ControlWire.Metadata(b.body[k], "%error").None?
    ensures forall k :: 0 <= k < |b.body| ==> Output(codec, IDLE, b.Lines(), 1 + k) == Shown(b.body, p, r, k)
    ensures Output(codec, IDLE, b.Lines(), 1 + |b.body|) == b.Footer()
  {
    hide Step, Run, ControlWire.Metadata, Block.Header, Block.Footer, DecodeFrame, EncodeFrame;
    FrameText(codec, r);
    HeaderOpens(b);
    BodyStaysOpen(b);
    FooterCloses(b);
    SafeBlockTranscript(codec, b.Header(), b.body, b.Footer());
    FrameRoundTrip(codec, r);
    FrameIsPayload(codec, r);
    NotesWait(b.body, p);
    FirstIs(b.body, p);
    assert b.Lines() == [b.Header()] + b.body + [b.Footer()];
    forall k | 0 <= k < |b.body|
      ensures Output(codec, IDLE, b.Lines(), 1 + k) == Shown(b.body, p, r, k)
    {
      InBlockShows(codec, b.body, p, r, k);
    }
  }

  lemma FirstIs(body: seq<string>, p: nat)
    requires p < |body| && Payload(body[p]) && forall k :: 0 <= k < p ==> Note(body[k])
    ensures FirstPayload(body, |body|) == p
  {
    hide ControlWire.Metadata;
    forall k | 0 <= k < p
      ensures !Payload(body[k])
    {
    }
  }

  lemma InBlockShows(codec: Codec, body: seq<string>, p: nat, r: Response, k: nat)
    requires k < |body| && p < |body| && FirstPayload(body, |body|) == p && Waiting(body, p) == Joined(body[..p])
    requires DecodeFrame(codec, body[p]) == Some(r)
    requires ControlWire.Metadata(body[k], "%end").None? && ControlWire.Metadata(body[k], "%error").None?
    ensures InBlock(codec, body, k) == Shown(body, p, r, k)
  {
    hide ControlWire.Metadata, DecodeFrame, FirstPayload, Waiting, Joined;
    assert r.Failed? ==> Joined(body[..p]) + r.payload + "\n" == Joined(body[..p]) + (r.payload + "\n");
  }

  lemma FrameText(codec: Codec, r: Response)
    ensures EncodeFrame(codec, r) == "\0winsmux-safe-environment-response-v1 " + codec.encode(r) + "\n"
  {
  }

  lemma FrameIsPayload(codec: Codec, r: Response)
    ensures Payload(EncodeFrame(codec, r))
  {
    var line := EncodeFrame(codec, r);
    assert line[0] == '\0';
    ControlWire.NotAMarker(line, "%end");
    ControlWire.NotAMarker(line, "%error");
  }

  /** A safe block with notes but no frame shows the fixed error before its footer, of either kind. */
  lemma SafeBlockWithoutFrame(codec: Codec, b: Block)
    requires b.Valid() && b.Safe() && forall k :: 0 <= k < |b.body| ==> Note(b.body[k])
    ensures Output(codec, IDLE, b.Lines(), 1 + |b.body|)
         == "the running server does not support " + "safe show-environment responses; restart the server and retry"
          + "\n" + b.Footer()
  {
    hide Step, Run, InBlock, ControlWire.Metadata, Block.Header, Block.Footer;
    HeaderOpens(b);
    BodyStaysOpen(b);
    FooterCloses(b);
    SafeBlockTranscript(codec, b.Header(), b.body, b.Footer());
    forall k | 0 <= k < |b.body|
      ensures !Payload(b.body[k])
    {
    }
  }

  // ----- nothing unsafe is echoed -----

  predicate DeferredOk(s: State) {
    s.deferred == "" || s.deferred[0] == '%'
  }

  lemma {:induction false} DeferredAreNotifications(codec: Codec, lines: seq<string>)
    ensures DeferredOk(Run(codec, IDLE, lines))
    decreases |lines|
  {
    hide ControlWire.Metadata;
    if lines != [] {
      DeferredAreNotifications(codec, lines[..|lines| - 1]);
    }
  }

  lemma DecodedIsShorter(codec: Codec, line: string)
    requires codec.Sound() && DecodeFrame(codec, line).Some?
    ensures line[0] == '\0' && |DecodeFrame(codec, line).value.payload| + 1 < |line|
  {
    assert FRAME_PREFIX[0] == '\0';
  }

  /** After any stream, a payload line inside a safe block comes out verbatim only if it is the
      first one and already reads exactly like the fixed error. */
  lemma PayloadEchoedIff(codec: Codec, lines: seq<string>, line: string)
    requires codec.Sound() && Payload(line)
    requires var s := Run(codec, IDLE, lines); s.active.Some? && s.active.value.safe
    ensures
      var s := Run(codec, IDLE, lines);
      Step(codec, s, line).1 == line <==>
        (s.active.value.handled && line == "") || (!s.active.value.handled && line == INCOMPATIBLE + "\n")
  {
    hide ControlWire.Metadata, DecodeFrame, ClosedBy;
    var s := Run(codec, IDLE, lines);
    DeferredAreNotifications(codec, lines);
    if !s.active.value.handled && DecodeFrame(codec, line).Some? {
      DecodedIsShorter(codec, line);
      var r := DecodeFrame(codec, line).value;
      var out := Rendered(codec, line, s.deferred);
      if s.deferred == "" {
        assert |out| <= |r.payload| + 1;
      } else {
        assert out[0] == '%';
      }
      assert line != INCOMPATIBLE + "\n" by { assert INCOMPATIBLE[0] == 't'; }
    }
  }
}
