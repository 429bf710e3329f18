/** The string operations the program takes from its standard library, on sequences of
    characters. */
module Text {

  datatype Option<+T> = None | Some(value: T)

  predicate IsAsciiWhitespace(c: char) {
    c in " \t\n\r\U{0c}"
  }

  /** The White_Space characters of Unicode. */
  predicate IsWhitespace(c: char) {
    || '\t' <= c <= '\r' || c == ' ' || c == '\U{85}' || c == '\U{a0}' || c == '\U{1680}'
    || '\U{2000}' <= c <= '\U{200a}' || c == '\U{2028}' || c == '\U{2029}' || c == '\U{202f}'
    || c == '\U{205f}' || c == '\U{3000}'
  }

  function TrimStartWhere(s: string, drop: char -> bool): string {
    if s == "" || !drop(s[0]) then s else TrimStartWhere(s[1..], drop)
  }

  function TrimEndWhere(s: string, drop: char -> bool): string {
    if s == "" || !drop(s[|s| - 1]) then s else TrimEndWhere(s[..|s| - 1], drop)
  }

  function TrimWhere(s: string, drop: char -> bool): string {
    TrimEndWhere(TrimStartWhere(s, drop), drop)
  }

  function Trim(s: string): string {
    TrimWhere(s, IsWhitespace)
  }

  function TrimEnd(s: string): string {
    TrimEndWhere(s, IsWhitespace)
  }

  /** Nothing to trim at either end. */
  predicate Snug(s: string, drop: char -> bool) {
    s != "" ==> !drop(s[0]) && !drop(s[|s| - 1])
  }

  lemma TrimSnug(s: string, drop: char -> bool)
    requires Snug(s, drop)
    ensures TrimWhere(s, drop) == s
  {
  }

  lemma {:induction false} TrimStartShortens(s: string, drop: char -> bool)
    ensures |TrimStartWhere(s, drop)| <= |s|
    ensures |TrimStartWhere(s, drop)| == |s| <==> s == "" || !drop(s[0])
    decreases |s|
  {
    if s != "" && drop(s[0]) {
      TrimStartShortens(s[1..], drop);
    }
  }

  lemma {:induction false} TrimEndShortens(s: string, drop: char -> bool)
    ensures |TrimEndWhere(s, drop)| <= |s|
    ensures |TrimEndWhere(s, drop)| == |s| <==> s == "" || !drop(s[|s| - 1])
    decreases |s|
  {
    if s != "" && drop(s[|s| - 1]) {
      TrimEndShortens(s[..|s| - 1], drop);
    }
  }

  /** Trimming shortens a string exactly when there is something to trim at one of its ends. */
  lemma TrimShortens(s: string, drop: char -> bool)
    ensures |TrimWhere(s, drop)| <= |s|
    ensures |TrimWhere(s, drop)| == |s| <==> Snug(s, drop)
  {
    TrimStartShortens(s, drop);
    TrimEndShortens(TrimStartWhere(s, drop), drop);
  }

  lemma {:induction false} TrimStartPadded(s: string, q: char, drop: char -> bool)
    requires drop(q)
    ensures
      var front := TrimStartWhere(s, drop);
      TrimStartWhere(s + [q], drop) == if front == "" then "" else front + [q]
    decreases |s|
  {
    if s == "" {
      assert s + [q] == [q] && [q][1..] == "";
    } else if drop(s[0]) {
      assert (s + [q])[1..] == s[1..] + [q];
      TrimStartPadded(s[1..], q, drop);
    }
  }

  /** One more character to trim at each end changes nothing. */
  lemma TrimPadded(s: string, q: char, drop: char -> bool)
    requires drop(q)
    ensures TrimWhere([q] + s + [q], drop) == TrimWhere(s, drop)
  {
    var padded := [q] + s + [q];
    assert padded[0] == q && padded[1..] == s + [q];
    TrimStartPadded(s, q, drop);
    var front := TrimStartWhere(s, drop);
    assert (front + [q])[..|front|] == front;
  }

  predicate White(s: string) {
    forall i :: 0 <= i < |s| ==> IsWhitespace(s[i])
  }

  lemma {:induction false} TrimStartOf(front: string, s: string)
    requires White(front) && (s != "" ==> !IsWhitespace(s[0]))
    ensures TrimStartWhere(front + s, IsWhitespace) == s
    decreases |front|
  {
    if front == "" {
      assert front + s == s;
    } else {
      assert (front + s)[1..] == front[1..] + s && (front + s)[0] == front[0];
      TrimStartOf(front[1..], s);
    }
  }

  lemma {:induction false} TrimEndOf(s: string, back: string)
    requires White(back) && (s != "" ==> !IsWhitespace(s[|s| - 1]))
    ensures TrimEndWhere(s + back, IsWhitespace) == s
    decreases |back|
  {
    if back == "" {
      assert s + back == s;
    } else {
      var m := |back| - 1;
      assert (s + back)[..|s + back| - 1] == s + back[..m] && (s + back)[|s + back| - 1] == back[m];
      TrimEndOf(s, back[..m]);
    }
  }

  /** Blanks around a text are dropped, and nothing else. */
  lemma TrimOf(front: string, s: string, back: string)
    requires White(front) && White(back) && Snug(s, IsWhitespace)
    ensures Trim(front + (s + back)) == s
  {
    if s == "" {
      assert front + (s + back) == (front + back) + "" && White(front + back);
      TrimStartOf(front + back, "");
    } else {
      assert (s + back)[0] == s[0];
      TrimStartOf(front, s + back);
      TrimEndOf(s, back);
    }
  }

  /** The pieces of `s` between characters that satisfy `sep`; always at least one. */
  function SplitWhere(s: string, sep: char -> bool): (parts: seq<string>)
    ensures parts != []
  {
    if s == "" then [""]
    else if sep(s[0]) then [""] + SplitWhere(s[1..], sep)
    else
      var rest := SplitWhere(s[1..], sep);
      [[s[0]] + rest[0]] + rest[1..]
  }

  function NonEmpty(parts: seq<string>): seq<string> {
    if parts == [] then [] else (if parts[0] == "" then [] else [parts[0]]) + NonEmpty(parts[1..])
  }

  function Fields(s: string, sep: char -> bool): seq<string> {
    NonEmpty(SplitWhere(s, sep))
  }

  lemma {:induction false} SplitWhole(s: string, sep: char -> bool)
    requires forall i :: 0 <= i < |s| ==> !sep(s[i])
    ensures SplitWhere(s, sep) == [s]
    decreases |s|
  {
    if s != "" {
      SplitWhole(s[1..], sep);
      assert [s[0]] + s[1..] == s;
    }
  }

  lemma {:induction false} SplitFirst(word: string, c: char, rest: string, sep: char -> bool)
    requires sep(c) && forall i :: 0 <= i < |word| ==> !sep(word[i])
    ensures SplitWhere(word + ([c] + rest), sep) == [word] + SplitWhere(rest, sep)
    decreases |word|
  {
    var s := word + ([c] + rest);
    if word == "" {
      assert s[0] == c && s[1..] == rest;
    } else {
      assert s[0] == word[0] && s[1..] == word[1..] + ([c] + rest);
      SplitFirst(word[1..], c, rest, sep);
      assert [word[0]] + word[1..] == word;
    }
  }

  /** A field at the front, and one that is all there is. */
  lemma FieldsFirst(word: string, c: char, rest: string, sep: char -> bool)
    requires word != "" && sep(c) && forall i :: 0 <= i < |word| ==> !sep(word[i])
    ensures Fields(word + ([c] + rest), sep) == [word] + Fields(rest, sep)
    ensures Fields(word, sep) == [word]
  {
    SplitFirst(word, c, rest, sep);
    SplitWhole(word, sep);
    assert ([word] + SplitWhere(rest, sep))[1..] == SplitWhere(rest, sep);
    assert [word][1..] == [] && NonEmpty([word][1..]) == [];
  }

  function SplitWhitespace(s: string): seq<string> {
    Fields(s, IsWhitespace)
  }

  function Split(s: string, sep: char): seq<string> {
    SplitWhere(s, c => c == sep)
  }

  /** Position of the first `c`, or the length of `s`. */
  function IndexOf(s: string, c: char): (i: nat)
    ensures i <= |s|
  {
    if s == "" || s[0] == c then 0 else 1 + IndexOf(s[1..], c)
  }

  function LowerChar(c: char): char {
    if 'A' <= c <= 'Z' then (c as int + 32) as char else c
  }

  function Lower(s: string): string {
    seq(|s|, i requires 0 <= i < |s| => LowerChar(s[i]))
  }

  function Nth(parts: seq<string>, i: nat): string {
    if i < |parts| then parts[i] else ""
  }
}
