/** Following the event log (core/src/condensed_events.rs).

The log only grows, in chunks of any size; a poll may see a torn last line.  The
follower's output over all polls is compared with one reading of the final file. */
module EventFollower {
  import opened Text

  datatype Result<+T> = Ok(value: T) | Err(message: string)

  /** Reading one line at an index: an error, nothing to report, or a condensed event. */
  type Mapping<!E> = (string, nat) -> Result<Option<E>>

  datatype Report<+E> = Report(cursor: nat, event: E)

  // ----- lines of the file -----

  function StripCr(line: string): string {
    if line != "" && line[|line| - 1] == '\r' then line[..|line| - 1] else line
  }

  /** Lines as the standard library cuts them: at newlines, without CR LF or LF. */
  function Lines(s: string): seq<string>
    decreases |s|
  {
    if s == "" then []
    else
      var i := IndexOf(s, '\n');
      if i == |s| then [s] else [StripCr(s[..i])] + Lines(s[i + 1..])
  }

  predicate IsBom(c: char) { c == '\U{feff}' }

  predicate Blank(line: string) { Trim(line) == "" }

  function Filled(lines: seq<string>): seq<string> {
    if lines == [] then [] else (if Blank(lines[0]) then [] else [lines[0]]) + Filled(lines[1..])
  }

  /** The non-blank lines; the very first line loses a byte-order mark. */
  function Kept(lines: seq<string>): seq<string> {
    if lines == [] then [] else Filled([TrimStartWhere(lines[0], IsBom)] + lines[1..])
  }

  /** The file up to its last newline. */
  function Complete(raw: string): (body: string)
    ensures body <= raw && (body == "" || body[|body| - 1] == '\n')
    ensures '\n' !in raw[|body|..]
  {
    if raw == "" || raw[|raw| - 1] == '\n' then raw
    else
      var body := Complete(raw[..|raw| - 1]);
      assert raw[|body|..] == raw[..|raw| - 1][|body|..] + [raw[|raw| - 1]];
      body
  }

  /** What a follower reads, and what a single reading reads. */
  function CompleteLines(raw: string): seq<string> { Kept(Lines(Complete(raw))) }

  function AllLines(raw: string): seq<string> { Kept(Lines(raw)) }

  // ----- the two readers -----

  function Reports<E>(read: Mapping<E>, lines: seq<string>, from: nat): seq<Report<E>>
    decreases |lines| - from
  {
    if from >= |lines| then []
    else
      match read(lines[from], from)
      case Err(_) => []
      case Ok(None) => Reports(read, lines, from + 1)
      case Ok(Some(e)) => [Report(from + 1, e)] + Reports(read, lines, from + 1)
  }

  /** The first line at or after `from` that cannot be read, or the number of lines. */
  function FirstBad<E>(read: Mapping<E>, lines: seq<string>, from: nat): (i: nat)
    requires from <= |lines|
    ensures from <= i <= |lines|
    decreases |lines| - from
  {
    if from == |lines| || read(lines[from], from).Err? then from else FirstBad(read, lines, from + 1)
  }

  function Events<E>(reports: seq<Report<E>>): (events: seq<E>)
    ensures |events| == |reports|
  {
    seq(|reports|, i requires 0 <= i < |reports| => reports[i].event)
  }

  lemma AppendOne<T>(done: seq<T>, e: T, after: seq<T>)
    ensures done + ([e] + after) == (done + [e]) + after
  {
  }

  /** One reading of the whole file: everything or an error. */
  method ReadOnce<E>(read: Mapping<E>, raw: string, cursor: nat) returns (r: Result<(nat, seq<E>)>)
    ensures
      var lines := AllLines(raw);
      if cursor > |lines| then r == Ok((|lines|, []))
      else if FirstBad(read, lines, cursor) < |lines| then r.Err?
      else r == Ok((|lines|, Events(Reports(read, lines, cursor))))
  {
    hide AllLines;
    var lines := AllLines(raw);
    var events: seq<E> := [];
    if cursor > |lines| {
      return Ok((|lines|, []));
    }
    ghost var total := Reports(read, lines, cursor);
    for index := cursor to |lines|
      invariant events + Events(Reports(read, lines, index)) == Events(total)
      invariant FirstBad(read, lines, cursor) == FirstBad(read, lines, index)
    {
      ghost var rest := Reports(read, lines, index);
      match read(lines[index], index) {
        case Err(message) =>
          return Err(message);
        case Ok(None) =>
        case Ok(Some(e)) =>
          ghost var after := Events(Reports(read, lines, index + 1));
          assert Events(rest) == [e] + after;
          AppendOne(events, e, after);
          events := events + [e];
      }
    }
    assert events == Events(total);
    r := Ok((|lines|, events));
  }

  datatype Follow<+E> = Follow(cursor: nat, out: seq<Report<E>>, failed: bool)

  function StartAt(cursor: nat, lines: seq<string>): nat {
    if |lines| < cursor then 0 else cursor
  }

  function PollStep<E>(read: Mapping<E>, f: Follow<E>, raw: string): Follow<E> {
    if f.failed then f
    else
      var lines := CompleteLines(raw);
      var from := StartAt(f.cursor, lines);
      var bad := FirstBad(read, lines, from);
      Follow(bad, f.out + Reports(read, lines, from), bad < |lines|)
  }

  class Follower<E> {
    const read: Mapping<E>
    var cursor: nat
    var out: seq<Report<E>>
    var failed: bool

    function Model(): Follow<E>
      reads this
    {
      Follow(cursor, out, failed)
    }

    constructor (read: Mapping<E>, cursor: nat)
      ensures this.read == read && Model() == Follow(cursor, [], false)
    {
      this.read, this.cursor, out, failed := read, cursor, [], false;
    }

    /** One turn of the polling loop; an unreadable line ends the command. */
    method Poll(raw: string)
      requires !failed
      modifies this
      ensures Model() == PollStep(read, old(Model()), raw)
    {
      hide CompleteLines;
      var lines := CompleteLines(raw);
      if |lines| < cursor {
        cursor := 0;
      }
      ghost var from := cursor;
      var index := cursor;
      while index < |lines|
        invariant from <= index <= |lines| && index == cursor && !failed
        invariant out + Reports(read, lines, index) == old(out) + Reports(read, lines, from)
        invariant FirstBad(read, lines, index) == FirstBad(read, lines, from)
      {
        match read(lines[index], index) {
          case Err(_) =>
            failed := true;
            return;
          case Ok(None) =>
          case Ok(Some(e)) =>
            out := out + [Report(index + 1, e)];
        }
        cursor := index + 1;
        index := index + 1;
      }
    }
  }

  // ----- growth only adds lines -----

  lemma {:induction false} IndexOfAppend(a: string, b: string, c: char)
    requires c in a
    ensures IndexOf(a + b, c) == IndexOf(a, c) < |a|
    decreases |a|
  {
    if a[0] != c {
      assert (a + b)[1..] == a[1..] + b;
      IndexOfAppend(a[1..], b, c);
    }
  }

  lemma NoLines()
    ensures Lines("") == []
  {
  }

  lemma LinesCons(s: string)
    requires IndexOf(s, '\n') < |s|
    ensures Lines(s) == [StripCr(s[..IndexOf(s, '\n')])] + Lines(s[IndexOf(s, '\n') + 1..])
  {
    hide StripCr, IndexOf;
  }

  lemma FirstLine(a: string, b: string)
    requires '\n' in a
    ensures IndexOf(a, '\n') < |a|
    ensures Lines(a + b) == [StripCr(a[..IndexOf(a, '\n')])] + Lines(a[IndexOf(a, '\n') + 1..] + b)
  {
    hide StripCr, Lines, IndexOf;
    IndexOfAppend(a, b, '\n');
    LinesCons(a + b);
    var i := IndexOf(a, '\n');
    assert (a + b)[..i] == a[..i] && (a + b)[i + 1..] == a[i + 1..] + b;
  }

  lemma {:induction false} LinesAppend(a: string, b: string)
    requires a == "" || a[|a| - 1] == '\n'
    ensures Lines(a + b) == Lines(a) + Lines(b)
    decreases |a|
  {
    hide StripCr, Lines, IndexOf;
    if a == "" {
      assert a + b == b && [] + Lines(b) == Lines(b);
      NoLines();
    } else {
      FirstLine(a, b);
      FirstLine(a, "");
      var i := IndexOf(a, '\n');
      var rest := a[i + 1..];
      assert a + "" == a && rest + "" == rest;
      LinesAppend(rest, b);
      ConsAppend(StripCr(a[..i]), Lines(rest), Lines(b));
    }
  }

  lemma ConsAppend<T>(x: T, a: seq<T>, b: seq<T>)
    ensures [x] + (a + b) == ([x] + a) + b
  {
  }

  lemma {:induction false} FilledAppend(a: seq<string>, b: seq<string>)
    ensures Filled(a + b) == Filled(a) + Filled(b)
    decreases |a|
  {
    if a == [] {
      assert a + b == b;
    } else {
      assert (a + b)[1..] == a[1..] + b;
      FilledAppend(a[1..], b);
    }
  }

  lemma KeptAppend(a: seq<string>, b: seq<string>)
    requires a != []
    ensures Kept(a + b) == Kept(a) + Filled(b)
  {
    var first := [TrimStartWhere(a[0], IsBom)];
    assert (a + b)[1..] == a[1..] + b;
    assert first + (a + b)[1..] == (first + a[1..]) + b;
    FilledAppend(first + a[1..], b);
  }

  lemma {:induction false} CompleteGrows(raw: string, more: string)
    ensures Complete(raw) <= Complete(raw + more)
    decreases |more|
  {
    if more == "" {
      assert raw + more == raw;
    } else {
      var m := |more| - 1;
      assert (raw + more)[..|raw + more| - 1] == raw + more[..m];
      CompleteGrows(raw, more[..m]);
    }
  }

  /** The lines a follower sees are never changed or removed by growth. */
  lemma CompleteLinesGrow(raw: string, later: string)
    requires raw <= later
    ensures CompleteLines(raw) <= CompleteLines(later)
  {
    assert later == raw + later[|raw|..];
    CompleteGrows(raw, later[|raw|..]);
    var a, b := Complete(raw), Complete(later)[|Complete(raw)|..];
    assert Complete(later) == a + b;
    LinesAppend(a, b);
    if Lines(a) != [] {
      KeptAppend(Lines(a), Lines(b));
    }
  }

  // ----- polls -----

  lemma {:induction false} ReportsExtend<E>(read: Mapping<E>, lines: seq<string>, longer: seq<string>, from: nat)
    requires from <= |lines| && lines <= longer
    ensures FirstBad(read, lines, from) < |lines| ==>
      FirstBad(read, longer, from) == FirstBad(read, lines, from) && Reports(read, longer, from) == Reports(read, lines, from)
    ensures FirstBad(read, lines, from) == |lines| ==>
      FirstBad(read, longer, from) == FirstBad(read, longer, |lines|)
      && Reports(read, longer, from) == Reports(read, lines, from) + Reports(read, longer, |lines|)
    decreases |lines| - from
  {
    if from < |lines| {
      assert longer[from] == lines[from];
      if read(lines[from], from).Ok? {
        ReportsExtend(read, lines, longer, from + 1);
      }
    }
  }

  ghost predicate Growing(polls: seq<string>) {
    forall i, j :: 0 <= i <= j < |polls| ==> polls[i] <= polls[j]
  }

  function PollAll<E>(read: Mapping<E>, f: Follow<E>, polls: seq<string>): Follow<E> {
    if polls == [] then f else PollStep(read, PollAll(read, f, polls[..|polls| - 1]), polls[|polls| - 1])
  }

  lemma {:induction false} FollowState<E>(read: Mapping<E>, cursor: nat, polls: seq<string>)
    requires polls != [] && Growing(polls)
    ensures
      var lines := CompleteLines(polls[|polls| - 1]);
      var from := StartAt(cursor, CompleteLines(polls[0]));
      && from <= |lines|
      && PollAll(read, Follow(cursor, [], false), polls)
         == Follow(FirstBad(read, lines, from), Reports(read, lines, from), FirstBad(read, lines, from) < |lines|)
    decreases |polls|
  {
    hide CompleteLines;
    var m := |polls| - 1;
    var start := Follow(cursor, [], false);
    if m == 0 {
      assert PollAll(read, start, polls[..0]) == start;
    } else {
      var past := polls[..m];
      FollowState(read, cursor, past);
      CompleteLinesGrow(polls[m - 1], polls[m]);
      ReportsExtend(read, CompleteLines(polls[m - 1]), CompleteLines(polls[m]), StartAt(cursor, CompleteLines(polls[0])));
    }
  }

  /** However the log grew between polls, the follower's output is one reading of the final complete
      lines, from the cursor it was started with (or from the top if that lies beyond the first poll). */
  lemma FollowerIsOneReading<E>(read: Mapping<E>, cursor: nat, polls: seq<string>)
    requires polls != [] && Growing(polls)
    ensures
      PollAll(read, Follow(cursor, [], false), polls).out
      == Reports(read, CompleteLines(polls[|polls| - 1]), StartAt(cursor, CompleteLines(polls[0])))
  {
    FollowState(read, cursor, polls);
  }

  // ----- restarting -----

  lemma ConsSplit<T>(all: seq<T>, rest: seq<T>, k: nat, after: seq<T>)
    requires all != [] && all == [all[0]] + rest && 1 <= k <= |rest| && rest == rest[..k] + after
    ensures all[k] == rest[k - 1] && all == all[..k + 1] + after
  {
    assert all[..k + 1] == [all[0]] + rest[..k];
  }

  /** Output up to any report, followed by what a restart from its cursor gives, is the whole output. */
  lemma {:induction false} RestartContinues<E>(read: Mapping<E>, lines: seq<string>, from: nat, k: nat)
    requires k < |Reports(read, lines, from)|
    ensures
      var all := Reports(read, lines, from);
      all[k].cursor <= |lines| && all == all[..k + 1] + Reports(read, lines, all[k].cursor)
    decreases |lines| - from
  {
    var all := Reports(read, lines, from);
    var rest := Reports(read, lines, from + 1);
    if read(lines[from], from).value.None? {
      RestartContinues(read, lines, from + 1, k);
    } else if k == 0 {
      assert all == all[..1] + rest;
    } else {
      RestartContinues(read, lines, from + 1, k - 1);
      ConsSplit(all, rest, k, Reports(read, lines, rest[k - 1].cursor));
    }
  }

  /** A follower restarted from any cursor another one reported neither loses nor repeats an event. */
  lemma RestartFromReport<E>(read: Mapping<E>, cursor: nat, polls: seq<string>, k: nat, later: seq<string>)
    requires polls != [] && Growing(polls) && later != [] && Growing(later) && polls[|polls| - 1] <= later[0]
    requires k < |PollAll(read, Follow(cursor, [], false), polls).out|
    ensures
      var first := PollAll(read, Follow(cursor, [], false), polls).out;
      var second := PollAll(read, Follow(first[k].cursor, [], false), later).out;
      first[..k + 1] + second
      == Reports(read, CompleteLines(later[|later| - 1]), StartAt(cursor, CompleteLines(polls[0])))
  {
    hide CompleteLines;
    var from := StartAt(cursor, CompleteLines(polls[0]));
    var seen, final := CompleteLines(polls[|polls| - 1]), CompleteLines(later[|later| - 1]);
    FollowState(read, cursor, polls);
    var first := PollAll(read, Follow(cursor, [], false), polls).out;
    RestartContinues(read, seen, from, k);
    CompleteLinesGrow(polls[|polls| - 1], later[0]);
    FollowerIsOneReading(read, first[k].cursor, later);
    CompleteLinesGrow(polls[|polls| - 1], later[|later| - 1]);
    ReportsExtend(read, seen, final, from);
    assert Reports(read, final, from)[..k + 1] == first[..k + 1];
    RestartContinues(read, final, from, k);
  }

  // ----- the cursor of a single reading counts a torn last line -----

  function Tail(raw: string): string { raw[|Complete(raw)|..] }

  /** A line as the reader judges it; `first` says whether it is the first of the file. */
  predicate Counts(line: string, first: bool) {
    !Blank(if first then TrimStartWhere(line, IsBom) else line)
  }

  predicate TailCounts(raw: string) {
    Tail(raw) != "" && Counts(Tail(raw), Lines(Complete(raw)) == [])
  }

  predicate AllWhite(s: string) {
    forall c :: c in s ==> IsWhitespace(c)
  }

  lemma {:induction false} TrimStartAll(s: string)
    ensures AllWhite(TrimStartWhere(s, IsWhitespace)) <==> AllWhite(s)
    decreases |s|
  {
    if s != "" && IsWhitespace(s[0]) {
      TrimStartAll(s[1..]);
      assert forall c :: c in s <==> c == s[0] || c in s[1..];
    }
  }

  lemma {:induction false} TrimEndAll(s: string)
    ensures TrimEndWhere(s, IsWhitespace) == "" <==> AllWhite(s)
    decreases |s|
  {
    if s != "" {
      var m := |s| - 1;
      assert forall c :: c in s <==> c == s[m] || c in s[..m];
      if IsWhitespace(s[m]) {
        TrimEndAll(s[..m]);
      }
    }
  }

  lemma BlankIsAllWhite(s: string)
    ensures Blank(s) <==> AllWhite(s)
  {
    TrimStartAll(s);
    TrimEndAll(TrimStartWhere(s, IsWhitespace));
  }

  lemma {:induction false} TrimStartAppend(a: string, b: string, drop: char -> bool)
    ensures TrimStartWhere(a + b, drop)
         == if TrimStartWhere(a, drop) != "" then TrimStartWhere(a, drop) + b else TrimStartWhere(b, drop)
    decreases |a|
  {
    if a == "" {
      assert a + b == b;
    } else if drop(a[0]) {
      assert (a + b)[1..] == a[1..] + b;
      TrimStartAppend(a[1..], b, drop);
    }
  }

  /** A line that counts still counts when more is written to it. */
  lemma CountsAppend(line: string, more: string, first: bool)
    requires Counts(line, first)
    ensures Counts(line + more, first)
  {
    hide Blank;
    TrimStartAppend(line, more, IsBom);
    var l := if first then TrimStartWhere(line, IsBom) else line;
    BlankIsAllWhite(l);
    BlankIsAllWhite(l + more);
    BlankIsAllWhite("");
  }

  lemma CountsStripped(line: string, first: bool)
    requires Counts(line, first)
    ensures Counts(StripCr(line), first)
  {
    hide Blank;
    if line != "" && line[|line| - 1] == '\r' {
      var rest := line[..|line| - 1];
      assert line == rest + "\r";
      TrimStartAppend(rest, "\r", IsBom);
      assert TrimStartWhere("\r", IsBom) == "\r";
      var l := if first then TrimStartWhere(rest, IsBom) else rest;
      BlankIsAllWhite(l);
      BlankIsAllWhite(l + "\r");
      BlankIsAllWhite("\r");
    }
  }

  lemma KeptSnoc(lines: seq<string>, line: string)
    ensures |Kept(lines + [line])| == |Kept(lines)| + (if Counts(line, lines == []) then 1 else 0)
  {
    assert [line][1..] == [];
    if lines == [] {
      var kept := TrimStartWhere(line, IsBom);
      assert lines + [line] == [line] && [kept] + [line][1..] == [kept] && [kept][1..] == [];
      assert Filled([kept]) == if Blank(kept) then [] else [kept];
    } else {
      KeptAppend(lines, [line]);
    }
  }

  lemma {:induction false} NoNewlineIndex(s: string)
    requires '\n' !in s
    ensures IndexOf(s, '\n') == |s|
    decreases |s|
  {
    if s != "" {
      NoNewlineIndex(s[1..]);
    }
  }

  /** One reading counts the torn last line, a follower does not. */
  lemma TornTailCounted(raw: string)
    ensures |AllLines(raw)| == |CompleteLines(raw)| + (if TailCounts(raw) then 1 else 0)
  {
    hide Kept, Counts;
    var body, tail := Complete(raw), Tail(raw);
    assert raw == body + tail;
    LinesAppend(body, tail);
    if tail == "" {
      assert Lines(body) + [] == Lines(body);
    } else {
      NoNewlineIndex(tail);
      KeptSnoc(Lines(body), tail);
    }
  }

  lemma {:induction false} CompleteUnchanged(raw: string, more: string)
    requires '\n' !in more
    ensures Complete(raw + more) == Complete(raw)
    decreases |more|
  {
    if more == "" {
      assert raw + more == raw;
    } else {
      var m := |more| - 1;
      assert (raw + more)[..|raw + more| - 1] == raw + more[..m];
      assert more[m] in more;
      CompleteUnchanged(raw, more[..m]);
    }
  }

  /** The torn line, once its newline arrives, is one more line for the follower. */
  lemma TailCompleted(raw: string, more: string)
    requires TailCounts(raw) && '\n' !in more
    ensures |CompleteLines(raw + more + "\n")| == |CompleteLines(raw)| + 1
  {
    hide Kept, Counts;
    var body, tail := Complete(raw), Tail(raw);
    var line := tail + more;
    var all := raw + more + "\n";
    assert all == body + (line + "\n") && Complete(all) == all;
    LinesAppend(body, line + "\n");
    NoNewlineIndex(line);
    IndexOfNewline(line);
    assert (line + "\n")[..|line|] == line && (line + "\n")[|line| + 1..] == "";
    assert Lines(line + "\n") == [StripCr(line)];
    CountsAppend(tail, more, Lines(body) == []);
    CountsStripped(line, Lines(body) == []);
    KeptSnoc(Lines(body), StripCr(line));
  }

  lemma {:induction false} IndexOfNewline(line: string)
    requires '\n' !in line
    ensures IndexOf(line + "\n", '\n') == |line|
    decreases |line|
  {
    if line != "" {
      assert (line + "\n")[1..] == line[1..] + "\n";
      IndexOfNewline(line[1..]);
    }
  }

  lemma {:induction false} FirstNewline(s: string)
    requires '\n' in s
    ensures IndexOf(s, '\n') < |s| && s[IndexOf(s, '\n')] == '\n' && '\n' !in s[..IndexOf(s, '\n')]
    decreases |s|
  {
    if s[0] != '\n' {
      FirstNewline(s[1..]);
      var i := IndexOf(s[1..], '\n');
      assert s[..i + 1] == [s[0]] + s[1..][..i];
    }
  }

  /** Following on from the cursor of a single reading keeps that cursor exactly when the reading
      met no torn line that counts, or the line's newline has arrived before the first poll.
      Otherwise the follower starts again from the top and repeats every event. */
  lemma OneReadingCursorKeptIff(raw: string, more: string)
    ensures StartAt(|AllLines(raw)|, CompleteLines(raw + more)) == |AllLines(raw)| <==> !TailCounts(raw) || '\n' in more
    ensures TailCounts(raw) && '\n' !in more ==> StartAt(|AllLines(raw)|, CompleteLines(raw + more)) == 0 < |AllLines(raw)|
  {
    hide CompleteLines, TailCounts;
    TornTailCounted(raw);
    CompleteLinesGrow(raw, raw + more);
    if TailCounts(raw) {
      if '\n' in more {
        FirstNewline(more);
        var i := IndexOf(more, '\n');
        TailCompleted(raw, more[..i]);
        assert more[..i] + "\n" == more[..i + 1];
        assert raw + more[..i] + "\n" == raw + more[..i + 1] <= raw + more;
        CompleteLinesGrow(raw + more[..i] + "\n", raw + more);
      } else {
        SameCompleteLines(raw, more);
      }
    }
  }

  lemma SameCompleteLines(raw: string, more: string)
    requires '\n' !in more
    ensures CompleteLines(raw + more) == CompleteLines(raw)
  {
    CompleteUnchanged(raw, more);
  }

  // ----- a log as it is written -----

  /** One written line; some writers end lines with CR LF. */
  datatype LogLine = LogLine(text: string, crlf: bool)
  {
    predicate Valid() { '\n' !in text && (text != "" ==> text[|text| - 1] != '\r') }

    function Ending(): string { if crlf then "\r\n" else "\n" }
  }

  function Log(lines: seq<LogLine>): string {
    if lines == [] then "" else lines[0].text + (lines[0].Ending() + Log(lines[1..]))
  }

  function LogTexts(lines: seq<LogLine>): (texts: seq<string>)
    ensures |texts| == |lines|
  {
    seq(|lines|, i requires 0 <= i < |lines| => lines[i].text)
  }

  /** The texts with a character that is not blank, in order. */
  function Spoken(lines: seq<LogLine>): seq<string> {
    if lines == [] then [] else (if AllWhite(lines[0].text) then [] else [lines[0].text]) + Spoken(lines[1..])
  }

  /** The line with its CR, if it has one. */
  function Body(line: LogLine): string {
    if line.crlf then line.text + "\r" else line.text
  }

  lemma BodyOfLine(line: LogLine, rest: string)
    requires line.Valid()
    ensures line.text + (line.Ending() + rest) == Body(line) + ("\n" + rest)
    ensures '\n' !in Body(line) && StripCr(Body(line)) == line.text
  {
    if line.crlf {
      assert line.text + ("\r\n" + rest) == (line.text + "\r") + ("\n" + rest);
      assert (line.text + "\r")[..|line.text|] == line.text;
    }
  }

  lemma LineRead(line: LogLine, rest: string)
    requires line.Valid()
    ensures Lines(line.text + (line.Ending() + rest)) == [line.text] + Lines(rest)
  {
    hide Lines, IndexOf, StripCr, Body, LogLine.Ending, LogLine.Valid;
    BodyOfLine(line, rest);
    var all := Body(line) + ("\n" + rest);
    IndexOfNewlineIn(Body(line), rest);
    assert all[..|Body(line)|] == Body(line) && all[|Body(line)| + 1..] == rest;
    LinesCons(all);
  }

  lemma {:induction false} IndexOfNewlineIn(body: string, rest: string)
    requires '\n' !in body
    ensures IndexOf(body + ("\n" + rest), '\n') == |body|
    decreases |body|
  {
    if body != "" {
      assert (body + ("\n" + rest))[1..] == body[1..] + ("\n" + rest);
      IndexOfNewlineIn(body[1..], rest);
    }
  }

  lemma {:induction false} LogLines(lines: seq<LogLine>)
    requires forall i :: 0 <= i < |lines| ==> lines[i].Valid()
    ensures Lines(Log(lines)) == LogTexts(lines)
    ensures lines != [] ==> Log(lines)[|Log(lines)| - 1] == '\n'
    decreases |lines|
  {
    hide Lines, LogLine.Valid;
    if lines == [] {
      NoLines();
    } else {
      LogLines(lines[1..]);
      LineRead(lines[0], Log(lines[1..]));
      assert LogTexts(lines) == [lines[0].text] + LogTexts(lines[1..]);
    }
  }

  lemma {:induction false} FilledSpoken(lines: seq<LogLine>)
    ensures Filled(LogTexts(lines)) == Spoken(lines)
    decreases |lines|
  {
    hide Blank, AllWhite;
    if lines != [] {
      BlankIsAllWhite(lines[0].text);
      FilledSpoken(lines[1..]);
      assert LogTexts(lines)[1..] == LogTexts(lines[1..]);
    }
  }

  lemma {:induction false} CompleteOf(body: string, tail: string)
    requires '\n' !in tail && (body == "" || body[|body| - 1] == '\n')
    ensures Complete(body + tail) == body
    decreases |tail|
  {
    if tail == "" {
      assert body + tail == body;
    } else {
      var m := |tail| - 1;
      assert (body + tail)[..|body + tail| - 1] == body + tail[..m] && tail[m] in tail;
      CompleteOf(body, tail[..m]);
    }
  }

  lemma LinesOfLog(front: string, lines: seq<LogLine>)
    requires forall i :: 0 <= i < |lines| ==> lines[i].Valid()
    requires lines != [] && (front == "" || front == "\U{feff}")
    ensures Lines(front + Log(lines)) == [front + lines[0].text] + LogTexts(lines[1..])
  {
    hide Lines;
    var first := LogLine(front + lines[0].text, lines[0].crlf);
    assert first.Valid();
    FrontOfLog(front, lines[0], Log(lines[1..]));
    LineRead(first, Log(lines[1..]));
    LogLines(lines[1..]);
  }

  lemma KeptCons(first: string, rest: seq<string>)
    ensures Kept([first] + rest) == Filled([TrimStartWhere(first, IsBom)] + rest)
  {
    hide Filled;
    assert ([first] + rest)[1..] == rest;
  }

  lemma LogKept(front: string, lines: seq<LogLine>)
    requires forall i :: 0 <= i < |lines| ==> lines[i].Valid()
    requires lines != [] && (front == "" || front == "\U{feff}") && (lines[0].text != "" ==> !IsBom(lines[0].text[0]))
    ensures Kept(Lines(front + Log(lines))) == Spoken(lines)
  {
    hide Lines, Filled, Spoken, Log, IsBom, Kept, LogLine.Valid;
    LinesOfLog(front, lines);
    KeptCons(front + lines[0].text, LogTexts(lines[1..]));
    MarkDropped(front, lines[0].text);
    assert [lines[0].text] + LogTexts(lines[1..]) == LogTexts(lines);
    FilledSpoken(lines);
  }

  lemma FrontOfLog(front: string, line: LogLine, rest: string)
    ensures (front + line.text) + (line.Ending() + rest) == front + (line.text + (line.Ending() + rest))
  {
  }

  /** A follower sees exactly the texts that are not blank of the lines written, whichever their endings,
      and nothing of a torn tail; a byte-order mark in front is dropped. */
  lemma LogReadsBack(front: string, lines: seq<LogLine>, tail: string)
    requires Written(front, lines) && '\n' !in tail
    ensures CompleteLines(front + (Log(lines) + tail)) == Spoken(lines)
  {
    if lines == [] {
      EmptyLogReadsBack(tail);
      assert front + (Log(lines) + tail) == tail;
    } else {
      hide Lines, Filled, Kept, LogLine.Valid, IsBom, Log, CompleteLines, Spoken;
      LogEnds(lines);
      CompleteLinesOf(front, Log(lines), tail);
      LogKept(front, lines);
    }
  }

  /** Lines without line ends of their own, behind nothing or one byte-order mark. */
  predicate Written(front: string, lines: seq<LogLine>) {
    && (forall i :: 0 <= i < |lines| ==> lines[i].Valid())
    && (front == "" || (front == "\U{feff}" && lines != []))
    && (lines != [] ==> lines[0].text != "" ==> !IsBom(lines[0].text[0]))
  }

  lemma EmptyLogReadsBack(tail: string)
    requires '\n' !in tail
    ensures CompleteLines(tail) == []
  {
    CompleteOf("", tail);
    assert "" + tail == tail;
  }

  lemma LogEnds(lines: seq<LogLine>)
    requires lines != [] && forall i :: 0 <= i < |lines| ==> lines[i].Valid()
    ensures Log(lines) != "" && Log(lines)[|Log(lines)| - 1] == '\n'
  {
    LogLines(lines);
  }

  lemma CompleteLinesOf(front: string, log: string, tail: string)
    requires '\n' !in tail && ((front == "" && log == "") || (log != "" && log[|log| - 1] == '\n'))
    ensures CompleteLines(front + (log + tail)) == Kept(Lines(front + log))
  {
    hide Lines, Kept;
    assert front + (log + tail) == (front + log) + tail;
    CompleteOf(front + log, tail);
  }

  lemma MarkDropped(front: string, text: string)
    requires front == "" || front == "\U{feff}"
    requires text != "" ==> !IsBom(text[0])
    ensures TrimStartWhere(front + text, IsBom) == text
  {
    if front == "" {
      assert front + text == text;
    } else {
      assert (front + text)[0] == '\U{feff}' && (front + text)[1..] == text;
    }
  }

  /** A single reading sees the same texts and, behind them, the torn last line unless it is blank. */
  lemma OneReadingSeesTail(front: string, lines: seq<LogLine>, tail: string)
    requires Written(front, lines) && '\n' !in tail && lines != []
    ensures AllLines(front + (Log(lines) + tail)) == Spoken(lines) + (if AllWhite(tail) then [] else [tail])
  {
    hide Kept, LogLine.Valid, IsBom, Log, Spoken, Blank, AllWhite, Lines;
    LogEnds(lines);
    assert front + (Log(lines) + tail) == (front + Log(lines)) + tail;
    LinesAppend(front + Log(lines), tail);
    LogKept(front, lines);
    LinesOfLog(front, lines);
    KeptAppend(Lines(front + Log(lines)), Lines(tail));
    LastLine(tail);
  }

  lemma LastLine(tail: string)
    requires '\n' !in tail
    ensures Filled(Lines(tail)) == if AllWhite(tail) then [] else [tail]
  {
    NoNewlineIndex(tail);
    BlankIsAllWhite(tail);
    if tail != "" {
      assert [tail][1..] == [] && Filled([tail][1..]) == [];
    }
  }

  // ----- what is reported -----

  /** The reports are the events of the readable lines before the first unreadable one: each with its
      own event and cursor, in order, none missing. */
  ghost predicate ReportsOf<E(!new)>(read: Mapping<E>, lines: seq<string>, from: nat, bad: nat, reports: seq<Report<E>>)
    requires bad <= |lines|
  {
    && (forall i :: from <= i < bad ==> read(lines[i], i).Ok?)
    && (bad < |lines| ==> read(lines[bad], bad).Err?)
    && (forall k :: 0 <= k < |reports| ==>
          from < reports[k].cursor <= bad
          && read(lines[reports[k].cursor - 1], reports[k].cursor - 1) == Ok(Some(reports[k].event)))
    && (forall j, k :: 0 <= j < k < |reports| ==> reports[j].cursor < reports[k].cursor)
    && (forall i :: from <= i < bad && read(lines[i], i).value.Some? ==> Reported(reports, i + 1))
  }

  ghost predicate Reported<E(!new)>(reports: seq<Report<E>>, cursor: nat) {
    exists k :: 0 <= k < |reports| && reports[k].cursor == cursor
  }

  lemma ReportsCons<E(!new)>(read: Mapping<E>, lines: seq<string>, from: nat, bad: nat, rest: seq<Report<E>>, e: E)
    requires from < bad <= |lines| && ReportsOf(read, lines, from + 1, bad, rest) && read(lines[from], from) == Ok(Some(e))
    ensures ReportsOf(read, lines, from, bad, [Report(from + 1, e)] + rest)
  {
    hide Reported;
    var first := Report(from + 1, e);
    var rs := [first] + rest;
    ReportedFirst(first, rest);
    forall i | from + 1 <= i < bad && read(lines[i], i).value.Some?
      ensures Reported(rs, i + 1)
    {
      ReportedBehind(first, rest, i + 1);
    }
    assert rs[0] == first && forall k :: 1 <= k < |rs| ==> rs[k] == rest[k - 1];
  }

  lemma ReportedFirst<E(!new)>(first: Report<E>, rest: seq<Report<E>>)
    ensures Reported([first] + rest, first.cursor)
  {
    assert ([first] + rest)[0] == first;
  }

  lemma ReportedBehind<E(!new)>(first: Report<E>, rest: seq<Report<E>>, cursor: nat)
    requires Reported(rest, cursor)
    ensures Reported([first] + rest, cursor)
  {
    var k :| 0 <= k < |rest| && rest[k].cursor == cursor;
    assert ([first] + rest)[k + 1] == rest[k];
  }

  lemma ReportsSkip<E(!new)>(read: Mapping<E>, lines: seq<string>, from: nat, bad: nat, rest: seq<Report<E>>)
    requires from < bad <= |lines| && ReportsOf(read, lines, from + 1, bad, rest) && read(lines[from], from) == Ok(None)
    ensures ReportsOf(read, lines, from, bad, rest)
  {
    hide Reported;
  }

  lemma ReportsEnd<E(!new)>(read: Mapping<E>, lines: seq<string>, from: nat)
    requires from <= |lines| && (from < |lines| ==> read(lines[from], from).Err?)
    ensures ReportsOf(read, lines, from, from, [])
  {
  }

  lemma {:induction false} ReportsMean<E(!new)>(read: Mapping<E>, lines: seq<string>, from: nat)
    requires from <= |lines|
    ensures ReportsOf(read, lines, from, FirstBad(read, lines, from), Reports(read, lines, from))
    decreases |lines| - from
  {
    hide ReportsOf;
    if from == |lines| || read(lines[from], from).Err? {
      ReportsEnd(read, lines, from);
    } else {
      ReportsMean(read, lines, from + 1);
      var bad, rest := FirstBad(read, lines, from + 1), Reports(read, lines, from + 1);
      match read(lines[from], from) {
        case Ok(None) => ReportsSkip(read, lines, from, bad, rest);
        case Ok(Some(e)) => ReportsCons(read, lines, from, bad, rest, e);
      }
    }
  }

  /** A follower started at the top reports, over any growth of a written log and however its last line
      is torn, exactly the events of its non-blank lines up to the first that cannot be read. */
  lemma FollowerReportsTheLog<E(!new)>(read: Mapping<E>, polls: seq<string>, front: string, lines: seq<LogLine>, tail: string)
    requires polls != [] && Growing(polls) && Written(front, lines) && '\n' !in tail
    requires polls[|polls| - 1] == front + (Log(lines) + tail)
    ensures
      var f := PollAll(read, Follow(0, [], false), polls);
      f.cursor <= |Spoken(lines)| && (f.failed <==> f.cursor < |Spoken(lines)|)
      && ReportsOf(read, Spoken(lines), 0, f.cursor, f.out)
  {
    hide CompleteLines, Spoken, Log, ReportsOf, Written;
    FollowState(read, 0, polls);
    LogReadsBack(front, lines, tail);
    ReportsMean(read, Spoken(lines), 0);
  }
}
