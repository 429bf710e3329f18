/** Lines of the control-mode protocol (core/src/control.rs): block markers and the escaping of
    pane output. */
module ControlWire {
  import opened Text
  import Decimal

  const MAX_U64: nat := 0xffff_ffff_ffff_ffff
  const MAX_I64: nat := 0x7fff_ffff_ffff_ffff

  function MinI64(): int { -(MAX_I64 as int) - 1 }

  predicate AllDigits(s: string) {
    s != "" && forall i :: 0 <= i < |s| ==> Decimal.IsDigit(s[i])
  }

  /** Digits with an optional sign, as the standard library reads machine integers. */
  function ParseU64(s: string): Option<nat> {
    var digits := if "+" <= s then s[1..] else s;
    if AllDigits(digits) && Decimal.Value(digits) <= MAX_U64 then Some(Decimal.Value(digits)) else None
  }

  function ParseI64(s: string): Option<int> {
    var digits := if "+" <= s || "-" <= s then s[1..] else s;
    if !AllDigits(digits) then None
    else if "-" <= s then (if Decimal.Value(digits) <= MAX_I64 + 1 then Some(-(Decimal.Value(digits) as int)) else None)
    else if Decimal.Value(digits) <= MAX_I64 then Some(Decimal.Value(digits)) else None
  }

  predicate IsLineEnd(c: char) { c == '\r' || c == '\n' }

  /** Command number and flags of a line that is the given marker. */
  function Metadata(line: string, marker: string): Option<(nat, nat)> {
    var fields := Fields(TrimEndWhere(line, IsLineEnd), IsAsciiWhitespace);
    if |fields| != 4 || fields[0] != marker || ParseI64(fields[1]).None? then None
    else
      match (ParseU64(fields[2]), ParseU64(fields[3]))
      case (Some(number), Some(flags)) => Some((number, flags))
      case _ => None
  }

  function FormatMarker(marker: string, timestamp: int, number: nat, flags: nat): string {
    marker + " " + (Decimal.PrintInt(timestamp) + " " + (Decimal.Print(number) + " " + Decimal.Print(flags)))
  }

  function FormatBegin(timestamp: int, number: nat, flags: nat): string { FormatMarker("%begin", timestamp, number, flags) }

  function FormatEnd(timestamp: int, number: nat, flags: nat): string { FormatMarker("%end", timestamp, number, flags) }

  function FormatError(timestamp: int, number: nat, flags: nat): string { FormatMarker("%error", timestamp, number, flags) }

  // ----- markers read back -----

  predicate Word(s: string) {
    s != "" && forall i :: 0 <= i < |s| ==> !IsAsciiWhitespace(s[i])
  }

  lemma {:induction false} SplitWord(word: string, rest: string)
    requires Word(word)
    ensures SplitWhere(word + " " + rest, IsAsciiWhitespace) == [word] + SplitWhere(rest, IsAsciiWhitespace)
    decreases |word|
  {
    var s := word + " " + rest;
    if |word| == 1 {
      assert s[1..] == " " + rest;
      assert (" " + rest)[1..] == rest;
      assert SplitWhere(" " + rest, IsAsciiWhitespace) == [""] + SplitWhere(rest, IsAsciiWhitespace);
      assert [word[0]] + "" == word;
    } else {
      assert s[1..] == word[1..] + " " + rest;
      SplitWord(word[1..], rest);
      assert [word[0]] + word[1..] == word;
    }
  }

  lemma {:induction false} SplitOneWord(word: string)
    requires forall i :: 0 <= i < |word| ==> !IsAsciiWhitespace(word[i])
    ensures SplitWhere(word, IsAsciiWhitespace) == [word]
    decreases |word|
  {
    if word != "" {
      SplitOneWord(word[1..]);
      assert [word[0]] + word[1..] == word;
    }
  }

  lemma FieldsOfWord(word: string, rest: string)
    requires Word(word)
    ensures Fields(word + " " + rest, IsAsciiWhitespace) == [word] + Fields(rest, IsAsciiWhitespace)
  {
    SplitWord(word, rest);
    assert ([word] + SplitWhere(rest, IsAsciiWhitespace))[1..] == SplitWhere(rest, IsAsciiWhitespace);
  }

  lemma FieldsOfLastWord(word: string)
    requires Word(word)
    ensures Fields(word, IsAsciiWhitespace) == [word]
  {
    SplitOneWord(word);
    assert [word][1..] == [] && NonEmpty([word][1..]) == [];
  }

  lemma PrintedReadsBack(n: nat)
    requires n <= MAX_U64
    ensures Word(Decimal.Print(n)) && ParseU64(Decimal.Print(n)) == Some(n)
  {
    Decimal.ValueOfPrint(n);
    assert Decimal.IsDigit(Decimal.Print(n)[0]);
  }

  lemma PrintedIntReadsBack(n: int)
    requires -(MAX_I64 as int) - 1 <= n <= MAX_I64
    ensures Word(Decimal.PrintInt(n)) && ParseI64(Decimal.PrintInt(n)) == Some(n)
  {
    hide Decimal.Print, Decimal.Value;
    var magnitude: nat := if n < 0 then -n else n;
    var digits := Decimal.Print(magnitude);
    Decimal.ValueOfPrint(magnitude);
    assert Decimal.IsDigit(digits[0]);
    if n < 0 {
      assert Decimal.PrintInt(n)[1..] == digits;
    }
  }

  lemma {:induction false} TrimLineEnd(body: string, end: string)
    requires body != "" && !IsLineEnd(body[|body| - 1]) && (forall i :: 0 <= i < |end| ==> IsLineEnd(end[i]))
    ensures TrimEndWhere(body + end, IsLineEnd) == body
    decreases |end|
  {
    if end == "" {
      assert body + end == body;
    } else {
      assert (body + end)[..|body + end| - 1] == body + end[..|end| - 1];
      TrimLineEnd(body, end[..|end| - 1]);
    }
  }

  /** Every formatted begin, end and error line, with or without its line end, reads back as the
      numbers it was made from, and as no other marker. */
  lemma MarkerReadsBack(marker: string, timestamp: int, number: nat, flags: nat, end: string, other: string)
    requires Word(marker) && -(MAX_I64 as int) - 1 <= timestamp <= MAX_I64 && number <= MAX_U64 && flags <= MAX_U64
    requires end == "" || end == "\n" || end == "\r\n"
    ensures Metadata(FormatMarker(marker, timestamp, number, flags) + end, other)
         == if other == marker then Some((number, flags)) else None
  {
    hide Metadata, ParseU64, ParseI64, Fields, Word;
    var t, n, f := Decimal.PrintInt(timestamp), Decimal.Print(number), Decimal.Print(flags);
    PrintedIntReadsBack(timestamp);
    PrintedReadsBack(number);
    PrintedReadsBack(flags);
    FieldsOfWord(marker, t + " " + (n + " " + f));
    FieldsOfWord(t, n + " " + f);
    FieldsOfWord(n, f);
    FieldsOfLastWord(f);
    var line := FormatMarker(marker, timestamp, number, flags);
    assert line[|line| - 1] == f[|f| - 1] && Decimal.IsDigit(f[|f| - 1]);
    TrimLineEnd(line, end);
    MetadataOfFields(line + end, other, [marker, t, n, f]);
  }

  /** The line of each kind of marker reads back as that kind and as neither of the others. */
  lemma MarkerKindsApart(timestamp: int, number: nat, flags: nat, end: string)
    requires -(MAX_I64 as int) - 1 <= timestamp <= MAX_I64 && number <= MAX_U64 && flags <= MAX_U64
    requires end == "" || end == "\n" || end == "\r\n"
    ensures
      var read := Some((number, flags));
      var (b, e, r) := (FormatBegin(timestamp, number, flags) + end, FormatEnd(timestamp, number, flags) + end,
                        FormatError(timestamp, number, flags) + end);
      && (Metadata(b, "%begin"), Metadata(b, "%end"), Metadata(b, "%error")) == (read, None, None)
      && (Metadata(e, "%begin"), Metadata(e, "%end"), Metadata(e, "%error")) == (None, read, None)
      && (Metadata(r, "%begin"), Metadata(r, "%end"), Metadata(r, "%error")) == (None, None, read)
  {
    hide Metadata, FormatMarker;
    forall marker | marker in {"%begin", "%end", "%error"}
      ensures forall other ::
        Metadata(FormatMarker(marker, timestamp, number, flags) + end, other)
        == if other == marker then Some((number, flags)) else None
    {
      assert Word(marker);
      forall other {
        MarkerReadsBack(marker, timestamp, number, flags, end, other);
      }
    }
  }

  lemma MetadataOfFields(line: string, marker: string, fields: seq<string>)
    requires Fields(TrimEndWhere(line, IsLineEnd), IsAsciiWhitespace) == fields && |fields| == 4
    requires ParseI64(fields[1]).Some? && ParseU64(fields[2]).Some? && ParseU64(fields[3]).Some?
    ensures Metadata(line, marker)
         == if fields[0] == marker then Some((ParseU64(fields[2]).value, ParseU64(fields[3]).value)) else None
  {
  }

  /** A line that begins with a character that is neither blank nor the marker's is not that marker. */
  lemma NotAMarker(line: string, marker: string)
    requires line != "" && marker != "" && line[0] != marker[0] && !IsAsciiWhitespace(line[0]) && !IsLineEnd(line[0])
    ensures Metadata(line, marker).None?
  {
    var cut := TrimEndWhere(line, IsLineEnd);
    TrimEndKeepsFront(line);
    var parts := SplitWhere(cut, IsAsciiWhitespace);
    assert parts[0] != "" && parts[0][0] == line[0];
    assert Fields(cut, IsAsciiWhitespace)[0] == parts[0];
  }

  lemma {:induction false} TrimEndKeepsFront(line: string)
    requires line != "" && !IsLineEnd(line[0])
    ensures TrimEndWhere(line, IsLineEnd) != "" && TrimEndWhere(line, IsLineEnd)[0] == line[0]
    decreases |line|
  {
    if IsLineEnd(line[|line| - 1]) {
      TrimEndKeepsFront(line[..|line| - 1]);
    }
  }

  // ----- pane output -----

  newtype Byte = b: int | 0 <= b < 256

  function OctalDigit(d: int): char
    requires 0 <= d < 8
  {
    ('0' as int + d) as char
  }

  function EscapeByte(b: Byte): string {
    if b == 92 then "\\134"
    else if 0x20 <= b <= 0x7e then [b as char]
    else if b == 9 then "\t"
    else "\\" + [OctalDigit(b as int / 64), OctalDigit(b as int / 8 % 8), OctalDigit(b as int % 8)]
  }

  function Escape(data: seq<Byte>): string {
    if data == [] then "" else Escape(data[..|data| - 1]) + EscapeByte(data[|data| - 1])
  }

  predicate IsOctal(c: char) { '0' <= c <= '7' }

  /** Undoes the escaping; `None` for text no output escapes to. */
  function Unescape(s: string): Option<seq<Byte>> {
    if s == "" then Some([])
    else if s[0] == '\\' then
      if |s| < 4 || !IsOctal(s[1]) || !IsOctal(s[2]) || !IsOctal(s[3]) then None
      else
        var value := (s[1] as int - 48) * 64 + (s[2] as int - 48) * 8 + (s[3] as int - 48);
        if value >= 256 then None
        else
          match Unescape(s[4..])
          case None => None
          case Some(rest) => Some([value as Byte] + rest)
    else if s[0] as int >= 128 then None
    else
      match Unescape(s[1..])
      case None => None
      case Some(rest) => Some([s[0] as int as Byte] + rest)
  }

  /** Three octal digits spell the byte. */
  lemma OctalEscape(b: Byte)
    requires b == 92 || !(0x20 <= b <= 0x7e || b == 9)
    ensures
      var s := EscapeByte(b);
      && |s| == 4 && s[0] == '\\' && IsOctal(s[1]) && IsOctal(s[2]) && IsOctal(s[3])
      && (s[1] as int - 48) * 64 + (s[2] as int - 48) * 8 + (s[3] as int - 48) == b as int
  {
    OctalDigits(b as int);
  }

  lemma OctalDigits(n: nat)
    ensures n == (n / 64) * 64 + (n / 8 % 8) * 8 + n % 8
  {
    var q := n / 8;
    assert n == q * 8 + n % 8 && q == (q / 8) * 8 + q % 8;
    assert n / 64 == q / 8;
  }

  lemma UnescapeOctal(s: string)
    requires |s| >= 4 && s[0] == '\\' && IsOctal(s[1]) && IsOctal(s[2]) && IsOctal(s[3])
    requires (s[1] as int - 48) * 64 + (s[2] as int - 48) * 8 + (s[3] as int - 48) < 256
    ensures
      var value := (s[1] as int - 48) * 64 + (s[2] as int - 48) * 8 + (s[3] as int - 48);
      Unescape(s) == match Unescape(s[4..]) case None => None case Some(rest) => Some([value as Byte] + rest)
  {
  }

  lemma UnescapePlain(s: string)
    requires s != "" && s[0] != '\\' && s[0] as int < 128
    ensures Unescape(s) == match Unescape(s[1..]) case None => None case Some(rest) => Some([s[0] as int as Byte] + rest)
  {
  }

  lemma UnescapeByte(b: Byte, s: string)
    ensures Unescape(EscapeByte(b) + s)
         == match Unescape(s) case None => None case Some(rest) => Some([b] + rest)
  {
    hide Unescape;
    var all := EscapeByte(b) + s;
    if b == 92 || !(0x20 <= b <= 0x7e || b == 9) {
      OctalEscape(b);
      assert all[..4] == EscapeByte(b) && all[4..] == s;
      UnescapeOctal(all);
    } else {
      UnescapePlain(all);
      assert all[1..] == s;
    }
  }

  lemma {:induction false} UnescapeAfter(data: seq<Byte>, s: string)
    ensures Unescape(Escape(data) + s)
         == match Unescape(s) case None => None case Some(rest) => Some(data + rest)
    decreases |data|
  {
    hide EscapeByte, Unescape;
    if data == [] {
      assert Escape(data) + s == s;
      if Unescape(s).Some? { assert data + Unescape(s).value == Unescape(s).value; }
    } else {
      var m := |data| - 1;
      assert Escape(data) + s == Escape(data[..m]) + (EscapeByte(data[m]) + s);
      UnescapeByte(data[m], s);
      UnescapeAfter(data[..m], EscapeByte(data[m]) + s);
      if Unescape(s).Some? {
        assert data[..m] + ([data[m]] + Unescape(s).value) == data + Unescape(s).value;
      }
    }
  }

  /** The decoder recovers every byte, so two outputs never escape to the same text. */
  lemma EscapeRoundTrip(data: seq<Byte>)
    ensures Unescape(Escape(data)) == Some(data)
  {
    UnescapeAfter(data, "");
    assert Escape(data) + "" == Escape(data);
    assert data + [] == data;
  }

  lemma EscapeInjective(a: seq<Byte>, b: seq<Byte>)
    requires Escape(a) == Escape(b)
    ensures a == b
  {
    EscapeRoundTrip(a);
    EscapeRoundTrip(b);
  }

  predicate Printable(c: char) { ' ' <= c <= '~' || c == '\t' }

  lemma EscapedPrintable(b: Byte)
    ensures forall i :: 0 <= i < |EscapeByte(b)| ==> Printable(EscapeByte(b)[i])
  {
  }

  method EscapeOutput(data: seq<Byte>) returns (text: string)
    ensures text == Escape(data)
    ensures forall i :: 0 <= i < |text| ==> Printable(text[i])
  {
    text := "";
    for i := 0 to |data|
      invariant text == Escape(data[..i])
      invariant forall k :: 0 <= k < |text| ==> Printable(text[k])
    {
      assert data[..i + 1][..i] == data[..i];
      var b := data[i];
      ghost var before := text;
      if b == 92 {
        text := text + "\\134";
      } else if 0x20 <= b <= 0x7e {
        text := text + [b as char];
      } else if b == 9 {
        text := text + "\t";
      } else {
        text := text + ("\\" + [OctalDigit(b as int / 64), OctalDigit(b as int / 8 % 8), OctalDigit(b as int % 8)]);
      }
      EscapedPrintable(b);
      assert text == before + EscapeByte(b);
    }
    assert data[..|data|] == data;
  }
}
