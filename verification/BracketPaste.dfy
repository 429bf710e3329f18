/** The bracketed-paste detector of the local input path (core/src/app.rs).

Keys arrive one at a time; the detector recognises ESC[200~ ... ESC[201~ in the
key stream and turns what lies between into one paste.  `Detector` is the state
machine as the program runs it; `Step` and `Expire` are its specification, and
the lemmas below speak about every run of them. */
module BracketPaste {

  import opened Text

  datatype KeyCode = Esc | Enter | Tab | Char(c: char) | NonText(id: nat)

  /** `detail` stands for the modifiers and kind of the event, which the detector
      never inspects but must hand back unchanged. */
  datatype Key = Key(code: KeyCode, detail: nat)

  const OPEN: string := "\U{1b}[200~"
  const CLOSE: string := "\U{1b}[201~"
  const ESCAPE_TIMEOUT_MS: nat := 5

  datatype State =
    | Idle
    | MatchOpen(idx: nat, pending: seq<Key>, started: nat)
    | Pasting(buf: string)
    | MatchClose(idx: nat, buf: string)

  datatype Action =
    | Forward(key: Key)
    | Replay(pending: seq<Key>, current: Key)
    | Consumed
    | Paste(text: string)

  datatype TimeoutAction = Nothing | ReplayPending(pending: seq<Key>)

  function KeyByte(key: Key): Option<char> {
    match key.code
    case Esc => Some('\U{1b}')
    case Char(c) => if c as int < 128 then Some(c) else None
    case Enter => Some('\r')
    case _ => None
  }

  /** What one key contributes to the text of a paste. */
  function KeyText(key: Key): string {
    match key.code
    case Char(c) => [c]
    case Enter => "\r"
    case Tab => "\t"
    case Esc => "\U{1b}"
    case NonText(_) => ""
  }

  function TextOf(keys: seq<Key>): string {
    if keys == [] then "" else TextOf(keys[..|keys| - 1]) + KeyText(keys[|keys| - 1])
  }

  ghost predicate Spells(keys: seq<Key>, word: string) {
    |keys| == |word| && forall i :: 0 <= i < |keys| ==> KeyByte(keys[i]) == Some(word[i])
  }

  ghost predicate WellFormed(s: State) {
    match s
    case MatchOpen(idx, pending, _) => 1 <= idx < |OPEN| && Spells(pending, OPEN[..idx])
    case MatchClose(idx, _) => 1 <= idx < |CLOSE|
    case _ => true
  }

  // ----- specification of one feed and one timeout check -----

  function PasteKey(buf: string, key: Key): State {
    if KeyByte(key) == Some(CLOSE[0]) then MatchClose(1, buf) else Pasting(buf + KeyText(key))
  }

  function Step(s: State, key: Key, now: nat): (State, Action)
    requires WellFormed(s)
  {
    match s
    case Idle =>
      if KeyByte(key) == Some(OPEN[0]) then (MatchOpen(1, [key], now), Consumed) else (Idle, Forward(key))
    case MatchOpen(idx, pending, _) =>
      if KeyByte(key) != Some(OPEN[idx]) then (Idle, Replay(pending, key))
      else if idx + 1 == |OPEN| then (Pasting(""), Consumed)
      else (MatchOpen(idx + 1, pending + [key], now), Consumed)
    case Pasting(buf) => (PasteKey(buf, key), Consumed)
    case MatchClose(idx, buf) =>
      if KeyByte(key) != Some(CLOSE[idx]) then (PasteKey(buf + CLOSE[..idx], key), Consumed)
      else if idx + 1 == |CLOSE| then (Idle, Paste(buf))
      else (MatchClose(idx + 1, buf), Consumed)
  }

  function Expire(s: State, now: nat): (State, TimeoutAction) {
    if s.MatchOpen? && now >= s.started + ESCAPE_TIMEOUT_MS then (Idle, ReplayPending(s.pending)) else (s, Nothing)
  }

  // ----- the detector itself -----

  class Detector {
    var state: State

    ghost predicate Valid()
      reads this
    {
      WellFormed(state)
    }

    constructor ()
      ensures Valid() && state == Idle
    {
      state := Idle;
    }

    method FlushTimeout(now: nat) returns (action: TimeoutAction)
      requires Valid()
      modifies this
      ensures Valid() && (state, action) == Expire(old(state), now)
    {
      action := Nothing;
      var expired := state.MatchOpen? && now >= state.started + ESCAPE_TIMEOUT_MS;
      if expired {
        var pending := state.pending;
        state := Idle;
        action := ReplayPending(pending);
      }
    }

    method Feed(key: Key, now: nat) returns (action: Action)
      requires Valid()
      modifies this
      ensures Valid() && (state, action) == Step(old(state), key, now)
      decreases if state.MatchClose? then 1 else 0
    {
      var previous := state;
      state := Idle;
      match previous {
        case Idle =>
          if KeyByte(key) == Some(OPEN[0]) {
            state := MatchOpen(1, [key], now);
            return Consumed;
          }
          return Forward(key);
        case MatchOpen(idx, pending, _) =>
          if KeyByte(key) == Some(OPEN[idx]) {
            var next := idx + 1;
            if next >= |OPEN| {
              state := Pasting("");
              return Consumed;
            }
            state := MatchOpen(next, pending + [key], now);
            return Consumed;
          }
          return Replay(pending, key);
        case Pasting(buf) =>
          if KeyByte(key) == Some(CLOSE[0]) {
            state := MatchClose(1, buf);
            return Consumed;
          }
          state := Pasting(buf + KeyText(key));
          return Consumed;
        case MatchClose(idx, buf) =>
          if KeyByte(key) == Some(CLOSE[idx]) {
            var next := idx + 1;
            if next >= |CLOSE| {
              return Paste(buf);
            }
            state := MatchClose(next, buf);
            return Consumed;
          }
          var flushed := buf;
          for i := 0 to idx
            invariant flushed == buf + CLOSE[..i]
            invariant state == Idle
          {
            flushed := flushed + [CLOSE[i]];
          }
          state := Pasting(flushed);
          action := Feed(key, now);
      }
    }
  }

  // ----- runs -----

  datatype Event = Fed(key: Key, now: nat) | Polled(now: nat)

  /** A run, oldest event innermost. */
  datatype Trace = Start | After(past: Trace, last: Event)

  /** What the rest of the program sees: a key delivered to the key handler, or a paste. */
  datatype Output = Deliver(key: Key) | Pasted(text: string)

  function Delivered(keys: seq<Key>): (out: seq<Output>)
    ensures |out| == |keys| && forall i :: 0 <= i < |keys| ==> out[i] == Deliver(keys[i])
  {
    seq(|keys|, i requires 0 <= i < |keys| => Deliver(keys[i]))
  }

  function ActionOutput(a: Action): seq<Output> {
    match a
    case Forward(key) => [Deliver(key)]
    case Replay(pending, current) => Delivered(pending + [current])
    case Consumed => []
    case Paste(text) => [Pasted(text)]
  }

  function TimeoutOutput(a: TimeoutAction): seq<Output> {
    match a
    case Nothing => []
    case ReplayPending(pending) => Delivered(pending)
  }

  function Handle(s: State, e: Event): (r: (State, seq<Output>))
    requires WellFormed(s)
    ensures WellFormed(r.0)
  {
    match e
    case Fed(key, now) =>
      var (t, a) := Step(s, key, now);
      (t, ActionOutput(a))
    case Polled(now) =>
      var (t, a) := Expire(s, now);
      (t, TimeoutOutput(a))
  }

  function Run(s: State, t: Trace): (r: State)
    requires WellFormed(s)
    ensures WellFormed(r)
  {
    match t
    case Start => s
    case After(past, e) => Handle(Run(s, past), e).0
  }

  function Out(s: State, t: Trace): seq<Output>
    requires WellFormed(s)
  {
    match t
    case Start => []
    case After(past, e) => Out(s, past) + Handle(Run(s, past), e).1
  }

  function EventKey(e: Event): seq<Key> {
    match e
    case Fed(key, _) => [key]
    case Polled(_) => []
  }

  /** The key stream of a run. */
  function Keys(t: Trace): seq<Key> {
    match t
    case Start => []
    case After(past, e) => Keys(past) + EventKey(e)
  }

  // ----- inside a paste: the close sequence is found exactly where it first occurs -----

  /** The last `k` keys spell the first `k` characters of the close sequence. */
  ghost predicate EndsWithClose(keys: seq<Key>, k: nat) {
    k <= |keys| && k <= |CLOSE| && Spells(keys[|keys| - k..], CLOSE[..k])
  }

  ghost predicate HasClose(keys: seq<Key>) {
    exists i :: 0 <= i <= |keys| && EndsWithClose(keys[..i], |CLOSE|)
  }

  /** State `s` has seen `body` since the open sequence, none of it a close sequence. */
  ghost predicate InPaste(s: State, body: seq<Key>) {
    match s
    case Pasting(buf) =>
      buf == TextOf(body) && forall k :: 1 <= k < |CLOSE| ==> !EndsWithClose(body, k)
    case MatchClose(idx, buf) =>
      1 <= idx < |CLOSE| && EndsWithClose(body, idx) && buf == TextOf(body[..|body| - idx])
    case _ => false
  }

  lemma {:induction false} TextAppend(a: seq<Key>, b: seq<Key>)
    ensures TextOf(a + b) == TextOf(a) + TextOf(b)
    decreases |b|
  {
    hide KeyText;
    if b == [] {
      assert a + b == a;
    } else {
      var m := |b| - 1;
      assert (a + b)[..|a + b| - 1] == a + b[..m];
      TextAppend(a, b[..m]);
      assert TextOf(a) + (TextOf(b[..m]) + KeyText(b[m])) == TextOf(a) + TextOf(b[..m]) + KeyText(b[m]);
    }
  }

  lemma ByteText(key: Key, c: char)
    requires KeyByte(key) == Some(c)
    ensures KeyText(key) == [c]
  {
  }

  lemma {:induction false} TextOfSpelling(keys: seq<Key>, word: string)
    requires Spells(keys, word)
    ensures TextOf(keys) == word
    decreases |keys|
  {
    hide KeyByte, KeyText;
    if keys != [] {
      var m := |keys| - 1;
      ByteText(keys[m], word[m]);
      TextOfSpelling(keys[..m], word[..m]);
      assert word == word[..m] + [word[m]];
    }
  }

  /** ESC occurs in the close sequence only at its front, so at most one partial match is alive. */
  lemma CloseHasNoBorder(keys: seq<Key>, j: nat, k: nat)
    requires EndsWithClose(keys, k) && EndsWithClose(keys, j) && 1 <= j <= k
    ensures j == k
  {
    var p := |keys| - j;
    assert keys[|keys| - j..][0] == keys[p];
    assert keys[|keys| - k..][k - j] == keys[p];
    assert CLOSE[..k][k - j] == CLOSE[k - j];
  }

  lemma EndsWithCloseSnoc(body: seq<Key>, key: Key, k: nat)
    requires 1 <= k <= |CLOSE|
    ensures EndsWithClose(body + [key], k) <==> EndsWithClose(body, k - 1) && KeyByte(key) == Some(CLOSE[k - 1])
  {
    var all := body + [key];
    if k <= |all| {
      var tail := all[|all| - k..];
      var rest := body[|body| - (k - 1)..];
      assert tail == rest + [key];
      assert CLOSE[..k] == CLOSE[..k - 1] + [CLOSE[k - 1]];
      if EndsWithClose(all, k) {
        assert tail[k - 1] == key;
        forall i | 0 <= i < k - 1
          ensures KeyByte(rest[i]) == Some(CLOSE[..k - 1][i])
        {
          assert tail[i] == rest[i];
        }
      }
    }
  }

  /** A key that begins no partial match and continues none. */
  lemma PasteKeyTracks(body: seq<Key>, key: Key)
    requires forall k :: 2 <= k < |CLOSE| ==> !EndsWithClose(body + [key], k)
    ensures InPaste(PasteKey(TextOf(body), key), body + [key])
  {
    var all := body + [key];
    EndsWithCloseSnoc(body, key, 1);
    assert all[..|all| - 1] == body;
    assert EndsWithClose(body, 0);
  }

  lemma PasteStepPlain(s: State, body: seq<Key>, key: Key)
    requires s.Pasting? && InPaste(s, body)
    ensures !EndsWithClose(body + [key], |CLOSE|) && InPaste(PasteKey(s.buf, key), body + [key])
  {
    forall k | 2 <= k <= |CLOSE|
      ensures !EndsWithClose(body + [key], k)
    {
      EndsWithCloseSnoc(body, key, k);
    }
    PasteKeyTracks(body, key);
  }

  /** The characters held back by a partial match are the text of the keys that spelt them. */
  lemma FlushedText(body: seq<Key>, idx: nat)
    requires EndsWithClose(body, idx)
    ensures TextOf(body[..|body| - idx]) + CLOSE[..idx] == TextOf(body)
  {
    assert body[..|body| - idx] + body[|body| - idx..] == body;
    TextAppend(body[..|body| - idx], body[|body| - idx..]);
    TextOfSpelling(body[|body| - idx..], CLOSE[..idx]);
  }

  lemma OnlyMatchGrows(body: seq<Key>, idx: nat, key: Key, k: nat)
    requires 1 <= idx < |CLOSE| && EndsWithClose(body, idx) && 2 <= k <= |CLOSE|
    ensures EndsWithClose(body + [key], k) <==> k == idx + 1 && KeyByte(key) == Some(CLOSE[idx])
  {
    EndsWithCloseSnoc(body, key, k);
    if EndsWithClose(body, k - 1) {
      CloseHasNoBorder(body, if k - 1 < idx then k - 1 else idx, if k - 1 < idx then idx else k - 1);
    }
  }

  lemma PasteStepMatch(s: State, body: seq<Key>, key: Key)
    requires s.MatchClose? && InPaste(s, body) && KeyByte(key) == Some(CLOSE[s.idx])
    ensures EndsWithClose(body + [key], |CLOSE|) <==> s.idx + 1 == |CLOSE|
    ensures s.buf == TextOf((body + [key])[..|body| - s.idx])
    ensures s.idx + 1 < |CLOSE| ==> InPaste(MatchClose(s.idx + 1, s.buf), body + [key])
  {
    hide TextOf, KeyByte, Spells;
    OnlyMatchGrows(body, s.idx, key, |CLOSE|);
    OnlyMatchGrows(body, s.idx, key, s.idx + 1);
    assert (body + [key])[..|body| - s.idx] == body[..|body| - s.idx];
  }

  lemma PasteStepMismatch(s: State, body: seq<Key>, key: Key)
    requires s.MatchClose? && InPaste(s, body) && KeyByte(key) != Some(CLOSE[s.idx])
    ensures !EndsWithClose(body + [key], |CLOSE|)
    ensures InPaste(PasteKey(s.buf + CLOSE[..s.idx], key), body + [key])
  {
    hide TextOf, KeyByte, Spells;
    FlushedText(body, s.idx);
    forall k | 2 <= k <= |CLOSE|
      ensures !EndsWithClose(body + [key], k)
    {
      OnlyMatchGrows(body, s.idx, key, k);
    }
    PasteKeyTracks(body, key);
  }

  lemma PasteStep(s: State, body: seq<Key>, key: Key, now: nat)
    requires InPaste(s, body)
    ensures WellFormed(s)
    ensures
      var all := body + [key];
      if EndsWithClose(all, |CLOSE|)
      then Step(s, key, now) == (Idle, Paste(TextOf(all[..|all| - |CLOSE|])))
      else Step(s, key, now).1 == Consumed && InPaste(Step(s, key, now).0, all)
  {
    hide TextOf, KeyByte, EndsWithClose;
    if s.Pasting? {
      PasteStepPlain(s, body, key);
    } else if KeyByte(key) == Some(CLOSE[s.idx]) {
      PasteStepMatch(s, body, key);
    } else {
      PasteStepMismatch(s, body, key);
    }
  }

  lemma HasClosePrefix(keys: seq<Key>, i: nat)
    requires i <= |keys| && HasClose(keys[..i])
    ensures HasClose(keys)
  {
    var j :| 0 <= j <= i && EndsWithClose(keys[..i][..j], |CLOSE|);
    assert keys[..i][..j] == keys[..j];
  }

  /** As long as no close sequence has arrived, nothing is emitted, whatever the clock does. */
  lemma {:induction false} PasteRunOpen(s: State, body: seq<Key>, t: Trace)
    requires InPaste(s, body) && !HasClose(body + Keys(t))
    ensures WellFormed(s)
    ensures Out(s, t) == [] && InPaste(Run(s, t), body + Keys(t))
  {
    hide TextOf, KeyByte, Spells, Step, EndsWithClose;
    match t {
      case Start =>
        assert body + Keys(t) == body;
      case After(past, e) =>
        var seen := body + Keys(past);
        var all := body + Keys(t);
        assert all == seen + EventKey(e) && all[..|seen|] == seen;
        if HasClose(seen) { HasClosePrefix(all, |seen|); }
        PasteRunOpen(s, body, past);
        match e {
          case Fed(key, now) =>
            PasteStep(Run(s, past), seen, key, now);
            assert all[..|all|] == all;
          case Polled(_) =>
            assert all == seen;
        }
    }
  }

  /** The paste ends with the key that completes the first contiguous close sequence, and its
      text is the projection of every key before that sequence. */
  lemma PasteEndsAtFirstClose(s: State, body: seq<Key>, t: Trace, key: Key, now: nat)
    requires InPaste(s, body) && !HasClose(body + Keys(t))
    requires EndsWithClose(body + Keys(t) + [key], |CLOSE|)
    ensures WellFormed(s)
    ensures Run(s, After(t, Fed(key, now))) == Idle
    ensures
      var all := body + Keys(t) + [key];
      Out(s, After(t, Fed(key, now))) == [Pasted(TextOf(all[..|all| - |CLOSE|]))]
  {
    hide TextOf, KeyByte, Spells, Step, EndsWithClose, HasClose, Keys;
    PasteRunOpen(s, body, t);
    PasteStep(Run(s, t), body + Keys(t), key, now);
  }

  // ----- the open sequence: when it is recognised -----

  /** When the last key of a run came. */
  function LastFed(t: Trace): nat {
    match t
    case Start => 0
    case After(past, e) => if e.Fed? then e.now else LastFed(past)
  }

  /** No timeout check came 5 ms or more after a key while between one and five keys were in. */
  predicate Timely(t: Trace) {
    match t
    case Start => true
    case After(past, e) =>
      && Timely(past)
      && (e.Polled? && 1 <= |Keys(past)| < |OPEN| ==> e.now < LastFed(past) + ESCAPE_TIMEOUT_MS)
  }

  /** A timeout check before the first key gives up what was pending since `started`. */
  predicate GivenUpFirst(t: Trace, started: nat) {
    match t
    case Start => false
    case After(past, e) =>
      GivenUpFirst(past, started) || (e.Polled? && Keys(past) == [] && e.now >= started + ESCAPE_TIMEOUT_MS)
  }

  /** The first key finds nothing pending. */
  predicate StartsClear(s: State, t: Trace) {
    s.MatchOpen? ==> GivenUpFirst(t, s.started)
  }

  function Pending(s: State): seq<Key> {
    if s.MatchOpen? then s.pending else []
  }

  /** The keys so far agree with the open sequence, as far as both go. */
  ghost predicate Opens(keys: seq<Key>) {
    forall i :: 0 <= i < |keys| && i < |OPEN| ==> KeyByte(keys[i]) == Some(OPEN[i])
  }

  /** Where at most six keys of an open sequence leave the detector, and what they emit. */
  ghost predicate OpensTo(s: State, t: Trace, r: State, out: seq<Output>) {
    var keys := Keys(t);
    if keys == [] then
      if StartsClear(s, t) then r == Idle && out == Delivered(Pending(s)) else r == s && out == []
    else if StartsClear(s, t) && Timely(t) then
      r == (if |keys| == |OPEN| then Pasting("") else MatchOpen(|keys|, keys, LastFed(t))) && out == Delivered(Pending(s))
    else
      r == Idle && out == Delivered(Pending(s) + keys)
  }

  lemma OpenKeyStep(keys: seq<Key>, started: nat, now: nat)
    requires 2 <= |keys| <= |OPEN| && Opens(keys)
    ensures
      var m := |keys| - 1;
      var s := MatchOpen(m, keys[..m], started);
      && WellFormed(s)
      && Step(s, keys[m], now) == (if |keys| == |OPEN| then Pasting("") else MatchOpen(|keys|, keys, now), Consumed)
  {
    assert keys == keys[..|keys| - 1] + [keys[|keys| - 1]];
  }

  lemma DeliveredSnoc(keys: seq<Key>, key: Key)
    ensures Delivered(keys + [key]) == Delivered(keys) + [Deliver(key)]
  {
  }

  lemma ReplayOnEscape(s: State, key: Key, now: nat)
    requires WellFormed(s) && s.MatchOpen? && KeyByte(key) == Some(OPEN[0])
    ensures Step(s, key, now) == (Idle, Replay(s.pending, key))
  {
  }

  lemma ForwardWhenIdle(key: Key, now: nat)
    requires KeyByte(key) != Some(OPEN[0])
    ensures Step(Idle, key, now) == (Idle, Forward(key))
  {
  }

  lemma DeliveredAppend(a: seq<Key>, b: seq<Key>)
    ensures Delivered(a + b) == Delivered(a) + Delivered(b)
  {
  }

  lemma EscapeWhenIdle(key: Key, now: nat)
    requires KeyByte(key) == Some(OPEN[0])
    ensures Step(Idle, key, now) == (MatchOpen(1, [key], now), Consumed)
  {
  }

  lemma {:induction false} TimelyBeforeKeys(t: Trace)
    requires Keys(t) == []
    ensures Timely(t)
  {
    if t.After? {
      TimelyBeforeKeys(t.past);
    }
  }

  lemma OpensFirst(s: State, past: Trace, key: Key, now: nat)
    requires WellFormed(s) && (s.Idle? || s.MatchOpen?) && Keys(past) == [] && KeyByte(key) == Some(OPEN[0])
    requires OpensTo(s, past, Run(s, past), Out(s, past))
    ensures var t := After(past, Fed(key, now)); OpensTo(s, t, Run(s, t), Out(s, t))
  {
    hide Step, Delivered, WellFormed;
    TimelyBeforeKeys(past);
    assert [] + [key] == [key];
    if StartsClear(s, past) {
      EscapeWhenIdle(key, now);
    } else {
      ReplayOnEscape(s, key, now);
    }
  }

  lemma OpensOnTime(s: State, past: Trace, key: Key, now: nat)
    requires WellFormed(s) && 1 <= |Keys(past)| < |OPEN| && Opens(Keys(past) + [key])
    requires OpensTo(s, past, Run(s, past), Out(s, past)) && StartsClear(s, past) && Timely(past)
    ensures var t := After(past, Fed(key, now)); OpensTo(s, t, Run(s, t), Out(s, t))
  {
    hide Step, Delivered, WellFormed, Opens;
    var keys := Keys(past) + [key];
    assert keys[..|keys| - 1] == Keys(past) && keys[|keys| - 1] == key;
    OpenKeyStep(keys, LastFed(past), now);
  }

  lemma NotEscape(keys: seq<Key>, key: Key)
    requires 1 <= |keys| < |OPEN| && Opens(keys + [key])
    ensures KeyByte(key) != Some(OPEN[0])
  {
    assert (keys + [key])[|keys|] == key;
  }

  lemma OpensTooLate(s: State, past: Trace, key: Key, now: nat)
    requires WellFormed(s) && 1 <= |Keys(past)| < |OPEN| && Opens(Keys(past) + [key])
    requires OpensTo(s, past, Run(s, past), Out(s, past)) && !(StartsClear(s, past) && Timely(past))
    ensures var t := After(past, Fed(key, now)); OpensTo(s, t, Run(s, t), Out(s, t))
  {
    hide Step, Delivered, WellFormed, Opens, KeyByte;
    NotEscape(Keys(past), key);
    ForwardWhenIdle(key, now);
    DeliveredSnoc(Pending(s) + Keys(past), key);
    assert Pending(s) + (Keys(past) + [key]) == Pending(s) + Keys(past) + [key];
  }

  lemma OpensPoll(s: State, past: Trace, now: nat)
    requires WellFormed(s) && (s.Idle? || s.MatchOpen?) && |Keys(past)| <= |OPEN|
    requires OpensTo(s, past, Run(s, past), Out(s, past))
    ensures var t := After(past, Polled(now)); OpensTo(s, t, Run(s, t), Out(s, t))
  {
    hide Step, Delivered, WellFormed;
    assert Keys(past) + [] == Keys(past);
    DeliveredAppend(Pending(s), Keys(past));
  }

  /** Over every run of keys and timeout checks the keys of an open sequence lead where they should. */
  lemma {:induction false} OpenRun(s: State, t: Trace)
    requires WellFormed(s) && (s.Idle? || s.MatchOpen?) && |Keys(t)| <= |OPEN| && Opens(Keys(t))
    ensures OpensTo(s, t, Run(s, t), Out(s, t))
  {
    hide WellFormed, KeyByte, Step;
    match t {
      case Start =>
      case After(past, e) =>
        assert Keys(past) == Keys(t)[..|Keys(past)|];
        OpenRun(s, past);
        match e {
          case Fed(key, now) =>
            if Keys(past) == [] {
              assert Keys(t)[0] == key;
              OpensFirst(s, past, key, now);
            } else if StartsClear(s, past) && Timely(past) {
              OpensOnTime(s, past, key, now);
            } else {
              OpensTooLate(s, past, key, now);
            }
          case Polled(now) => OpensPoll(s, past, now);
        }
    }
  }

  /** Outside a paste, an open sequence is recognised exactly when its first key finds nothing
      pending and no timeout check comes 5 ms after one of its first five keys.  Otherwise every key
      is delivered: one that breaks a partial match is never reconsidered as the start of a new one. */
  lemma OpenRecognisedIff(s: State, t: Trace)
    requires WellFormed(s) && (s.Idle? || s.MatchOpen?) && Spells(Keys(t), OPEN)
    ensures Run(s, t) == if StartsClear(s, t) && Timely(t) then Pasting("") else Idle
    ensures Out(s, t) == Delivered(if StartsClear(s, t) && Timely(t) then Pending(s) else Pending(s) + Keys(t))
  {
    OpenRun(s, t);
  }

  /** A stray ESC at `pressed`, then an open sequence: every key is delivered, unless a timeout check
      gives the ESC up before the sequence begins and none breaks the sequence itself. */
  lemma StrayEscapeIff(esc: Key, pressed: nat, t: Trace)
    requires KeyByte(esc) == Some(OPEN[0]) && Spells(Keys(t), OPEN)
    ensures Step(Idle, esc, pressed) == (MatchOpen(1, [esc], pressed), Consumed)
    ensures
      var s := Step(Idle, esc, pressed).0;
      var saved := GivenUpFirst(t, pressed) && Timely(t);
      Run(s, t) == (if saved then Pasting("") else Idle)
      && Out(s, t) == Delivered(if saved then [esc] else [esc] + Keys(t))
  {
    EscapeWhenIdle(esc, pressed);
    OpenRecognisedIff(MatchOpen(1, [esc], pressed), t);
  }

  predicate NeverPolled(t: Trace) {
    t.After? ==> t.last.Fed? && NeverPolled(t.past)
  }

  lemma FirstFeed(t: Trace)
    requires NeverPolled(t) && |Keys(t)| == 1
    ensures t.After? && t.past == Start && t.last.Fed? && Keys(t) == [t.last.key]
  {
  }

  /** Two escapes in a row are both handed on, and nothing is pending after them. */
  lemma SecondEscape(t: Trace)
    requires NeverPolled(t) && |Keys(t)| == 2
    requires KeyByte(Keys(t)[0]) == Some(OPEN[0]) && KeyByte(Keys(t)[1]) == Some(OPEN[0])
    ensures Run(Idle, t) == Idle && Out(Idle, t) == Delivered(Keys(t))
  {
    hide Delivered, Step;
    FirstFeed(t.past);
    var esc, key := Keys(t)[0], t.last.key;
    assert Keys(t) == Keys(t.past) + [key];
    assert t.past.last.key == esc && Keys(t) == [esc] + [key];
    EscapeWhenIdle(esc, t.past.last.now);
    var s := Run(Idle, t.past);
    assert Run(Idle, t.past.past) == Idle && Out(Idle, t.past.past) == [];
    assert s == MatchOpen(1, [esc], t.past.last.now) && Out(Idle, t.past) == [];
    ReplayOnEscape(s, key, t.last.now);
  }

  /** Without timeout checks a stray ESC just before the open sequence loses the paste, whenever the
      keys come; no prefix of the sequence is held back either. */
  lemma {:induction false} StrayEscapeLosesPaste(t: Trace, esc: Key)
    requires NeverPolled(t) && |Keys(t)| >= 2 && Keys(t)[0] == esc && KeyByte(esc) == Some(OPEN[0])
    requires |Keys(t)| <= 1 + |OPEN| && Opens(Keys(t)[1..])
    ensures Run(Idle, t) == Idle && Out(Idle, t) == Delivered(Keys(t))
  {
    hide Step, Delivered, WellFormed;
    var past, key, now := t.past, t.last.key, t.last.now;
    var m := |Keys(past)|;
    assert Keys(past) == Keys(t)[..m] && key == Keys(t)[m] && KeyByte(key) == Some(OPEN[m - 1]);
    if m == 1 {
      SecondEscape(t);
    } else {
      StrayEscapeLosesPaste(past, esc);
      ForwardWhenIdle(key, now);
      DeliveredSnoc(Keys(past), key);
    }
  }

  /** `t` begins with the events of `begin`. */
  predicate Extends(t: Trace, begin: Trace) {
    t == begin || (t.After? && Extends(t.past, begin))
  }

  lemma {:induction false} LateStaysLate(t: Trace, begin: Trace)
    requires Extends(t, begin) && !Timely(begin)
    ensures !Timely(t)
  {
    if t != begin {
      LateStaysLate(t.past, begin);
    }
  }

  lemma LateCheck(esc: Key)
    ensures !Timely(After(After(Start, Fed(esc, 0)), Polled(5)))
  {
    var fed := After(Start, Fed(esc, 0));
    assert Keys(fed) == Keys(Start) + [esc] == [esc];
    assert LastFed(fed) == 0;
  }

  /** An idle detector, and no paste either: the ESC comes at 0, a timeout check at 5, and the rest
      of the open sequence whenever it likes. */
  lemma SlowEscapeLosesPaste(esc: Key, t: Trace)
    requires Spells(Keys(t), OPEN) && Extends(t, After(After(Start, Fed(esc, 0)), Polled(5)))
    ensures Run(Idle, t) == Idle && Out(Idle, t) == Delivered(Keys(t))
  {
    var begin := After(After(Start, Fed(esc, 0)), Polled(5));
    LateCheck(esc);
    LateStaysLate(t, begin);
    OpenRecognisedIff(Idle, t);
    assert [] + Keys(t) == Keys(t);
  }

  // ----- the whole sequence -----

  /** No close sequence can end inside the final one before its last key. */
  lemma NoEarlyClose(text: seq<Key>, close: seq<Key>)
    requires !HasClose(text) && Spells(close, CLOSE)
    ensures !HasClose(text + close[..5])
  {
    var all := text + close[..5];
    forall i | 0 <= i <= |all|
      ensures !EndsWithClose(all[..i], |CLOSE|)
    {
      if i <= |text| {
        assert all[..i] == text[..i];
      } else {
        var d := i - |text|;
        assert all[..i][|all[..i]| - d..] == close[..d];
        assert Spells(close[..d], CLOSE[..d]);
        assert EndsWithClose(all[..i], d);
        if EndsWithClose(all[..i], |CLOSE|) {
          CloseHasNoBorder(all[..i], d, |CLOSE|);
        }
      }
    }
  }

  lemma CloseAfterText(text: seq<Key>, close: seq<Key>)
    requires Spells(close, CLOSE)
    ensures |close| == |CLOSE|
    ensures text + close[..5] + [close[5]] == text + close && (text + close)[..|text + close| - |CLOSE|] == text
    ensures EndsWithClose(text + close, |CLOSE|)
  {
    var all := text + close;
    assert CLOSE[..6] == CLOSE;
    assert all[|all| - 6..] == close;
  }

  lemma NothingPastedYet()
    ensures InPaste(Pasting(""), []) && !HasClose([])
  {
  }

  /** After a recognised open sequence the detector is in a paste of the keys behind it. */
  lemma {:induction false} InsideRun(t: Trace)
    requires |Keys(t)| >= |OPEN| && Opens(Keys(t)) && Timely(t) && !HasClose(Keys(t)[|OPEN|..])
    ensures Out(Idle, t) == [] && InPaste(Run(Idle, t), Keys(t)[|OPEN|..])
  {
    hide TextOf, KeyByte, Step, EndsWithClose, HasClose;
    var keys := Keys(t);
    if |keys| == |OPEN| {
      OpenRun(Idle, t);
      NothingPastedYet();
      assert keys[|OPEN|..] == [];
    } else {
      var before := Keys(t.past);
      assert before == keys[..|before|];
      var body := keys[|OPEN|..];
      if t.last.Fed? {
        assert before[|OPEN|..] == body[..|body| - 1] && body == body[..|body| - 1] + [t.last.key];
        if HasClose(body[..|body| - 1]) { HasClosePrefix(body, |body| - 1); }
        InsideRun(t.past);
        NotClosed(body);
        PasteStep(Run(Idle, t.past), body[..|body| - 1], t.last.key, t.last.now);
      } else {
        assert before == keys;
        InsideRun(t.past);
      }
    }
  }

  lemma NotClosed(body: seq<Key>)
    requires !HasClose(body)
    ensures !EndsWithClose(body, |CLOSE|)
  {
    assert body[..|body|] == body;
  }

  lemma {:induction false} RecognisedRoundTrip(t: Trace, open: seq<Key>, text: seq<Key>, close: seq<Key>)
    requires Keys(t) == open + (text + close) && Spells(open, OPEN) && Spells(close, CLOSE) && !HasClose(text)
    requires Timely(t)
    ensures Run(Idle, t) == Idle && Out(Idle, t) == [Pasted(TextOf(text))]
  {
    hide TextOf, KeyByte, Step, EndsWithClose, HasClose, Spells;
    SpelledLength(open, OPEN);
    SpelledLength(close, CLOSE);
    var before := Keys(t.past);
    if t.last.Polled? {
      assert before == Keys(t);
      RecognisedRoundTrip(t.past, open, text, close);
    } else {
      CloseAfterText(text, close);
      NoEarlyClose(text, close);
      var all := text + close;
      assert open + (text + close) == open + (text + close[..5]) + [close[5]];
      SnocInjective(before, t.last.key, open + (text + close[..5]), close[5]);
      assert before == open + (text + close[..5]) && t.last.key == close[5];
      assert before[|OPEN|..] == text + close[..5];
      OpensWhenSpelt(open, text + close[..5]);
      InsideRun(t.past);
      PasteStep(Run(Idle, t.past), text + close[..5], close[5], t.last.now);
    }
  }

  lemma SnocInjective(a: seq<Key>, x: Key, b: seq<Key>, y: Key)
    requires a + [x] == b + [y]
    ensures a == b && x == y
  {
    assert (a + [x])[..|a|] == a && (b + [y])[..|b|] == b;
    assert (a + [x])[|a|] == x;
  }

  lemma SpelledLength(keys: seq<Key>, word: string)
    requires Spells(keys, word)
    ensures |keys| == |word|
  {
  }

  lemma OpensWhenSpelt(open: seq<Key>, rest: seq<Key>)
    requires Spells(open, OPEN)
    ensures Opens(open + rest)
  {
  }

  /** A late timeout check hands the ESC of the open sequence on at once. */
  lemma {:induction false} LateDelivers(t: Trace)
    requires Opens(Keys(t)) && !Timely(t)
    ensures |Out(Idle, t)| > 0 && Out(Idle, t)[0].Deliver?
  {
    var before := Keys(t.past);
    assert before == Keys(t)[..|before|];
    if Timely(t.past) {
      OpenRun(Idle, t);
    } else {
      LateDelivers(t.past);
    }
  }

  /** Open sequence, text, close sequence, with any timing and any timeout checks between the keys:
      the output is one paste of exactly that text exactly when no check broke the open sequence. */
  lemma PasteRoundTrip(t: Trace, open: seq<Key>, text: seq<Key>, close: seq<Key>)
    requires Keys(t) == open + (text + close) && Spells(open, OPEN) && Spells(close, CLOSE) && !HasClose(text)
    ensures Out(Idle, t) == [Pasted(TextOf(text))] <==> Timely(t)
    ensures Timely(t) ==> Run(Idle, t) == Idle
  {
    if Timely(t) {
      RecognisedRoundTrip(t, open, text, close);
    } else {
      OpensWhenSpelt(open, text + close);
      LateDelivers(t);
    }
  }

  // ----- pasted text comes back character by character -----

  /** The key event a character of pasted text arrives as. */
  function CodeFor(c: char): KeyCode {
    if c == '\U{1b}' then Esc else if c == '\r' then Enter else if c == '\t' then Tab else Char(c)
  }

  /** The keys type this text: one key per character, and any number of keys without text. */
  ghost predicate Types(keys: seq<Key>, text: string) {
    if keys == [] then text == ""
    else
      var (front, last) := (keys[..|keys| - 1], keys[|keys| - 1]);
      if last.code.NonText? then Types(front, text)
      else text != "" && last.code == CodeFor(text[|text| - 1]) && Types(front, text[..|text| - 1])
  }

  lemma {:induction false} TypedText(keys: seq<Key>, text: string)
    requires Types(keys, text)
    ensures TextOf(keys) == text
    decreases |keys|
  {
    if keys != [] {
      var m := |keys| - 1;
      if keys[m].code.NonText? {
        TypedText(keys[..m], text);
      } else {
        TypedText(keys[..m], text[..|text| - 1]);
        assert text == text[..|text| - 1] + [text[|text| - 1]];
      }
    }
  }

  function KeysFor(text: string): (keys: seq<Key>)
    ensures |keys| == |text|
  {
    seq(|text|, i requires 0 <= i < |text| => Key(CodeFor(text[i]), 0))
  }

  lemma {:induction false} KeysForType(text: string)
    ensures Types(KeysFor(text), text)
    decreases |text|
  {
    if text != "" {
      KeysForType(text[..|text| - 1]);
      assert KeysFor(text)[..|text| - 1] == KeysFor(text[..|text| - 1]);
    }
  }

  lemma ByteOfCode(c: char, d: char)
    requires d in OPEN || d in CLOSE
    ensures KeyByte(Key(CodeFor(c), 0)) == Some(d) <==> c == d
  {
  }

  predicate CloseEndsAt(text: string, i: nat) {
    |CLOSE| <= i <= |text| && text[i - |CLOSE|..i] == CLOSE
  }

  /** The text holds the close sequence. */
  predicate HoldsClose(text: string) {
    exists i :: 0 <= i <= |text| && CloseEndsAt(text, i)
  }

  lemma SpellsIff(text: string, word: string)
    requires word == OPEN || word == CLOSE
    ensures Spells(KeysFor(text), word) <==> text == word
  {
    forall i | 0 <= i < |text| && |text| == |word|
      ensures KeyByte(KeysFor(text)[i]) == Some(word[i]) <==> text[i] == word[i]
    {
      assert word[i] in word;
      ByteOfCode(text[i], word[i]);
    }
  }

  lemma EndsWithCloseIff(text: string, i: nat)
    requires i <= |text|
    ensures EndsWithClose(KeysFor(text)[..i], |CLOSE|) <==> CloseEndsAt(text, i)
  {
    hide Spells;
    assert CLOSE[..|CLOSE|] == CLOSE;
    if |CLOSE| <= i {
      assert KeysFor(text)[..i][i - |CLOSE|..] == KeysFor(text[i - |CLOSE|..i]);
      SpellsIff(text[i - |CLOSE|..i], CLOSE);
    }
  }

  lemma HasCloseIff(text: string)
    ensures HasClose(KeysFor(text)) <==> HoldsClose(text)
  {
    hide EndsWithClose, CloseEndsAt;
    forall i | 0 <= i <= |text|
      ensures EndsWithClose(KeysFor(text)[..i], |CLOSE|) <==> CloseEndsAt(text, i)
    {
      EndsWithCloseIff(text, i);
    }
  }

  /** Any text without the close sequence, sent between the two sequences key by key, arrives as one
      paste of exactly that text, exactly when no timeout check broke the open sequence. */
  lemma PastedTextArrives(t: Trace, text: string)
    requires Keys(t) == KeysFor("\U{1b}[200~") + (KeysFor(text) + KeysFor("\U{1b}[201~")) && !HoldsClose(text)
    ensures Out(Idle, t) == [Pasted(text)] <==> Timely(t)
  {
    SpellsIff(OPEN, OPEN);
    SpellsIff(CLOSE, CLOSE);
    HasCloseIff(text);
    KeysForType(text);
    TypedText(KeysFor(text), text);
    PasteRoundTrip(t, KeysFor(OPEN), KeysFor(text), KeysFor(CLOSE));
  }

  // ----- every key is accounted for once and in order -----

  /** A stretch of the key stream: one key handed on, or a whole paste. */
  datatype Piece = Handed(key: Key) | Bracketed(open: seq<Key>, body: seq<Key>, close: seq<Key>)

  function PieceKeys(p: Piece): seq<Key> {
    match p
    case Handed(key) => [key]
    case Bracketed(open, body, close) => open + body + close
  }

  function PieceOutput(p: Piece): Output {
    match p
    case Handed(key) => Deliver(key)
    case Bracketed(_, body, _) => Pasted(TextOf(body))
  }

  ghost predicate PieceOk(p: Piece) {
    p.Bracketed? ==> Spells(p.open, OPEN) && Spells(p.close, CLOSE) && !HasClose(p.body + p.close[..5])
  }

  function LedgerKeys(ledger: seq<Piece>): seq<Key> {
    if ledger == [] then [] else LedgerKeys(ledger[..|ledger| - 1]) + PieceKeys(ledger[|ledger| - 1])
  }

  function LedgerOutput(ledger: seq<Piece>): seq<Output> {
    if ledger == [] then [] else LedgerOutput(ledger[..|ledger| - 1]) + [PieceOutput(ledger[|ledger| - 1])]
  }

  /** The keys the detector still holds. */
  ghost predicate Holds(s: State, rest: seq<Key>) {
    match s
    case Idle => rest == []
    case MatchOpen(_, pending, _) => WellFormed(s) && rest == pending
    case _ => |rest| >= |OPEN| && Spells(rest[..|OPEN|], OPEN) && !HasClose(rest[|OPEN|..]) && InPaste(s, rest[|OPEN|..])
  }

  ghost predicate Explains(ledger: seq<Piece>, rest: seq<Key>, keys: seq<Key>, out: seq<Output>, s: State) {
    && keys == LedgerKeys(ledger) + rest
    && out == LedgerOutput(ledger)
    && (forall i :: 0 <= i < |ledger| ==> PieceOk(ledger[i]))
    && Holds(s, rest)
  }

  function HandedAll(keys: seq<Key>): (ledger: seq<Piece>)
    ensures |ledger| == |keys| && forall i :: 0 <= i < |keys| ==> ledger[i] == Handed(keys[i])
  {
    seq(|keys|, i requires 0 <= i < |keys| => Handed(keys[i]))
  }

  lemma {:induction false} LedgerAppend(ledger: seq<Piece>, keys: seq<Key>)
    ensures LedgerKeys(ledger + HandedAll(keys)) == LedgerKeys(ledger) + keys
    ensures LedgerOutput(ledger + HandedAll(keys)) == LedgerOutput(ledger) + Delivered(keys)
    ensures forall i :: 0 <= i < |keys| ==> PieceOk(HandedAll(keys)[i])
    decreases |keys|
  {
    hide LedgerKeys, LedgerOutput;
    if keys == [] {
      assert ledger + HandedAll(keys) == ledger;
    } else {
      var m := |keys| - 1;
      assert ledger + HandedAll(keys) == (ledger + HandedAll(keys[..m])) + [Handed(keys[m])];
      LedgerSnoc(ledger + HandedAll(keys[..m]), Handed(keys[m]));
      LedgerAppend(ledger, keys[..m]);
      assert Delivered(keys) == Delivered(keys[..m]) + [Deliver(keys[m])];
    }
  }

  lemma LedgerSnoc(ledger: seq<Piece>, piece: Piece)
    ensures LedgerKeys(ledger + [piece]) == LedgerKeys(ledger) + PieceKeys(piece)
    ensures LedgerOutput(ledger + [piece]) == LedgerOutput(ledger) + [PieceOutput(piece)]
  {
    assert (ledger + [piece])[..|ledger + [piece]| - 1] == ledger;
  }

  lemma NoCloseSnoc(body: seq<Key>, key: Key)
    requires !HasClose(body) && !EndsWithClose(body + [key], |CLOSE|)
    ensures !HasClose(body + [key])
  {
    var all := body + [key];
    forall i | 0 <= i <= |all|
      ensures !EndsWithClose(all[..i], |CLOSE|)
    {
      assert all[..i] == if i == |all| then all else body[..i];
    }
  }

  /** The piece completed by the last key of a close sequence. */
  lemma CompletedPiece(open: seq<Key>, body: seq<Key>, key: Key) returns (piece: Piece)
    requires Spells(open, OPEN) && !HasClose(body) && EndsWithClose(body + [key], |CLOSE|)
    ensures PieceOk(piece) && PieceKeys(piece) == open + body + [key]
    ensures PieceOutput(piece) == Pasted(TextOf((body + [key])[..|body| + 1 - |CLOSE|]))
  {
    var all := body + [key];
    var n := |all| - 6;
    piece := Bracketed(open, all[..n], all[n..]);
    assert CLOSE[..6] == CLOSE;
    assert all[..n] + all[n..][..5] == body;
    assert open + all[..n] + all[n..] == open + body + [key];
  }

  lemma ExplainCompletedPaste(ledger: seq<Piece>, open: seq<Key>, body: seq<Key>, keys: seq<Key>, out: seq<Output>, key: Key)
    returns (ledger': seq<Piece>)
    requires keys == LedgerKeys(ledger) + (open + body) && out == LedgerOutput(ledger)
    requires forall i :: 0 <= i < |ledger| ==> PieceOk(ledger[i])
    requires Spells(open, OPEN) && !HasClose(body) && EndsWithClose(body + [key], |CLOSE|)
    ensures Explains(ledger', [], keys + [key], out + [Pasted(TextOf((body + [key])[..|body| + 1 - |CLOSE|]))], Idle)
  {
    var piece := CompletedPiece(open, body, key);
    ledger' := ledger + [piece];
    LedgerSnoc(ledger, piece);
    assert keys + [key] == LedgerKeys(ledger) + (open + body + [key]);
  }

  /** A paste in progress takes one more key: either it goes on, or a bracketed piece is complete. */
  lemma ExplainPasteKey(ledger: seq<Piece>, rest: seq<Key>, keys: seq<Key>, out: seq<Output>, s: State, key: Key, now: nat)
    returns (ledger': seq<Piece>, rest': seq<Key>)
    requires Explains(ledger, rest, keys, out, s) && (s.Pasting? || s.MatchClose?)
    ensures WellFormed(s)
    ensures Explains(ledger', rest', keys + [key], out + ActionOutput(Step(s, key, now).1), Step(s, key, now).0)
  {
    hide Step, WellFormed, LedgerKeys, LedgerOutput, PieceOk, EndsWithClose, HasClose, Spells;
    var open, body := rest[..6], rest[6..];
    assert rest == open + body;
    PasteStep(s, body, key, now);
    if EndsWithClose(body + [key], |CLOSE|) {
      ledger' := ExplainCompletedPaste(ledger, open, body, keys, out, key);
      rest' := [];
    } else {
      ledger', rest' := ledger, rest + [key];
      NoCloseSnoc(body, key);
      assert rest'[..6] == open && rest'[6..] == body + [key];
      assert keys + [key] == LedgerKeys(ledger) + rest';
      assert out + [] == out;
    }
  }

  /** Outside a paste a key is either held back or handed on together with all keys held. */
  lemma ExplainOpenKey(ledger: seq<Piece>, rest: seq<Key>, keys: seq<Key>, out: seq<Output>, s: State, key: Key, now: nat)
    returns (ledger': seq<Piece>, rest': seq<Key>)
    requires WellFormed(s) && Explains(ledger, rest, keys, out, s) && (s.Idle? || s.MatchOpen?)
    ensures Explains(ledger', rest', keys + [key], out + ActionOutput(Step(s, key, now).1), Step(s, key, now).0)
  {
    hide LedgerKeys, LedgerOutput, PieceOk, EndsWithClose, HasClose, TextOf;
    var (t, a) := Step(s, key, now);
    if a.Consumed? {
      ledger', rest' := ledger, rest + [key];
      assert keys + [key] == LedgerKeys(ledger) + rest';
      if t.Pasting? {
        assert rest'[..6] == rest' && rest'[6..] == [];
        NothingPastedYet();
      }
    } else {
      ledger', rest' := ledger + HandedAll(rest + [key]), [];
      LedgerAppend(ledger, rest + [key]);
      assert keys + [key] == LedgerKeys(ledger) + (rest + [key]);
      assert ActionOutput(a) == Delivered(rest + [key]);
    }
  }

  lemma ExplainPoll(ledger: seq<Piece>, rest: seq<Key>, keys: seq<Key>, out: seq<Output>, s: State, now: nat)
    returns (ledger': seq<Piece>, rest': seq<Key>)
    requires WellFormed(s) && Explains(ledger, rest, keys, out, s)
    ensures Explains(ledger', rest', keys, out + TimeoutOutput(Expire(s, now).1), Expire(s, now).0)
  {
    hide LedgerKeys, LedgerOutput, PieceOk, HasClose;
    ledger', rest' := ledger, rest;
    if !Expire(s, now).1.Nothing? {
      LedgerAppend(ledger, rest);
      ledger', rest' := ledger + HandedAll(rest), [];
    }
  }

  lemma ExplainFeed(ledger: seq<Piece>, rest: seq<Key>, keys: seq<Key>, out: seq<Output>, s: State, key: Key, now: nat)
    returns (ledger': seq<Piece>, rest': seq<Key>)
    requires WellFormed(s) && Explains(ledger, rest, keys, out, s)
    ensures Explains(ledger', rest', keys + [key], out + ActionOutput(Step(s, key, now).1), Step(s, key, now).0)
  {
    hide Explains, Step;
    if s.Idle? || s.MatchOpen? {
      ledger', rest' := ExplainOpenKey(ledger, rest, keys, out, s, key, now);
    } else {
      ledger', rest' := ExplainPasteKey(ledger, rest, keys, out, s, key, now);
    }
  }

  /** Every key fed is handed on, still held, or inside one complete open-body-close piece; the
      pieces lie in the order of the key stream, and the outputs are exactly theirs. */
  lemma {:induction false} EveryKeyAccountedFor(t: Trace)
    ensures exists ledger, rest :: Explains(ledger, rest, Keys(t), Out(Idle, t), Run(Idle, t))
  {
    hide Step, Expire;
    match t {
      case Start =>
        assert Explains([], [], Keys(t), Out(Idle, t), Run(Idle, t));
      case After(past, e) =>
        EveryKeyAccountedFor(past);
        var s := Run(Idle, past);
        var ledger, rest :| Explains(ledger, rest, Keys(past), Out(Idle, past), s);
        var ledger', rest';
        match e {
          case Fed(key, now) =>
            ledger', rest' := ExplainFeed(ledger, rest, Keys(past), Out(Idle, past), s, key, now);
          case Polled(now) =>
            ledger', rest' := ExplainPoll(ledger, rest, Keys(past), Out(Idle, past), s, now);
            assert Keys(t) == Keys(past);
        }
        assert Explains(ledger', rest', Keys(t), Out(Idle, t), Run(Idle, t));
    }
  }
}
