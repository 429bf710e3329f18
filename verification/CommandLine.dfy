/** The quote-aware command-line parser (core/src/commands.rs) and the client's quoting that it
    must undo (core/src/client.rs). */
module CommandLine {
  import opened Text

  /** Where the parser stands: finished arguments, the one being read, and the open quote. */
  datatype Lexer = Lexer(args: seq<string>, current: string, inDouble: bool, inSingle: bool)
  {
    function Push(c: char): Lexer { this.(current := current + [c]) }

    function Flush(): Lexer {
      if current == "" then this else this.(args := args + [current], current := "")
    }
  }

  /** The arguments of the rest of a line, read from state `l`. */
  function Lex(l: Lexer, s: string): seq<string>
    decreases |s|
  {
    if s == "" then l.Flush().args
    else
      var c := s[0];
      if l.inSingle then Lex(if c == '\'' then l.(inSingle := false) else l.Push(c), s[1..])
      else if c == '\\' && l.inDouble then
        if |s| > 1 && (s[1] == '"' || s[1] == '\\') then Lex(l.Push(s[1]), s[2..]) else Lex(l.Push(c), s[1..])
      else if c == '"' then Lex(l.(inDouble := !l.inDouble), s[1..])
      else if c == '\'' && !l.inDouble then Lex(l.(inSingle := true), s[1..])
      else if IsWhitespace(c) && !l.inDouble then Lex(l.Flush(), s[1..])
      else Lex(l.Push(c), s[1..])
  }

  const START := Lexer([], "", false, false)

  function Parse(line: string): seq<string> { Lex(START, line) }

  method ParseCommandLine(line: string) returns (args: seq<string>)
    ensures args == Parse(line)
    ensures forall i :: 0 <= i < |args| ==> args[i] != ""
  {
    args := [];
    var current, inDouble, inSingle := "", false, false;
    var i := 0;
    while i < |line|
      invariant 0 <= i <= |line|
      invariant Lex(Lexer(args, current, inDouble, inSingle), line[i..]) == Parse(line)
      invariant forall k :: 0 <= k < |args| ==> args[k] != ""
    {
      var c := line[i];
      ghost var rest := line[i..];
      assert rest[0] == c && rest[1..] == line[i + 1..];
      assert i + 1 < |line| ==> rest[1] == line[i + 1] && rest[2..] == line[i + 2..];
      if inSingle {
        if c == '\'' {
          inSingle := false;
        } else {
          current := current + [c];
        }
      } else if c == '\\' && inDouble {
        if i + 1 < |line| && line[i + 1] == '"' {
          current := current + ['"'];
          i := i + 1;
        } else if i + 1 < |line| && line[i + 1] == '\\' {
          current := current + ['\\'];
          i := i + 1;
        } else {
          current := current + [c];
        }
      } else if c == '"' {
        inDouble := !inDouble;
      } else if c == '\'' && !inDouble {
        inSingle := true;
      } else if IsWhitespace(c) && !inDouble {
        if current != "" {
          args := args + [current];
          current := "";
        }
      } else {
        current := current + [c];
      }
      i := i + 1;
    }
    if current != "" {
      args := args + [current];
    }
  }

  // ----- quoting -----

  function EscapeChar(c: char): string {
    if c == '"' then "\\\"" else if c == '\\' then "\\\\" else [c]
  }

  function EscapeText(s: string): string {
    if s == "" then "" else EscapeChar(s[0]) + EscapeText(s[1..])
  }

  function Quote(arg: string): string { "\"" + (EscapeText(arg) + "\"") }

  function QuoteAll(args: seq<string>): string {
    if args == [] then "" else Quote(args[0]) + (" " + QuoteAll(args[1..]))
  }

  lemma LexEscapedChar(l: Lexer, c: char, rest: string)
    requires l.inDouble && !l.inSingle
    ensures Lex(l, EscapeChar(c) + rest) == Lex(l.Push(c), rest)
  {
    var all := EscapeChar(c) + rest;
    if c == '"' || c == '\\' {
      assert all[0] == '\\' && all[1] == c && all[2..] == rest;
    } else {
      assert all[0] == c && all[1..] == rest;
    }
  }

  lemma EscapeFirst(arg: string, rest: string)
    requires arg != ""
    ensures EscapeText(arg) + rest == EscapeChar(arg[0]) + (EscapeText(arg[1..]) + rest)
  {
    hide EscapeChar;
  }

  /** Inside double quotes the escapes of an argument read back as the argument. */
  lemma {:induction false} LexEscaped(l: Lexer, arg: string, rest: string)
    requires l.inDouble && !l.inSingle
    ensures Lex(l, EscapeText(arg) + rest) == Lex(l.(current := l.current + arg), rest)
    decreases |arg|
  {
    hide Lex, EscapeChar, EscapeText;
    if arg == "" {
      EscapeNothing(rest);
      assert l.current + arg == l.current;
    } else {
      var tail := EscapeText(arg[1..]) + rest;
      EscapeFirst(arg, rest);
      LexEscapedChar(l, arg[0], tail);
      LexEscaped(l.Push(arg[0]), arg[1..], rest);
      assert (l.current + [arg[0]]) + arg[1..] == l.current + arg;
    }
  }

  lemma EscapeNothing(rest: string)
    ensures EscapeText("") + rest == rest
  {
  }

  lemma LexQuoted(l: Lexer, arg: string, rest: string)
    requires !l.inDouble && !l.inSingle
    ensures Lex(l, Quote(arg) + rest) == Lex(l.(current := l.current + arg), rest)
  {
    var all := Quote(arg) + rest;
    assert all[0] == '"' && all[1..] == EscapeText(arg) + ("\"" + rest);
    LexEscaped(l.(inDouble := true), arg, "\"" + rest);
    assert ("\"" + rest)[1..] == rest;
  }

  lemma {:induction false} LexQuoteAll(l: Lexer, args: seq<string>)
    requires !l.inDouble && !l.inSingle && l.current == ""
    ensures Lex(l, QuoteAll(args)) == l.args + NonEmpty(args)
    decreases |args|
  {
    hide Quote;
    if args != [] {
      var rest := QuoteAll(args[1..]);
      LexQuoted(l, args[0], " " + rest);
      assert l.current + args[0] == args[0];
      var read := l.(current := args[0]);
      assert (" " + rest)[1..] == rest;
      LexQuoteAll(read.Flush(), args[1..]);
      assert l.args + ((if args[0] == "" then [] else [args[0]]) + NonEmpty(args[1..]))
          == (l.args + (if args[0] == "" then [] else [args[0]])) + NonEmpty(args[1..]);
      assert l.args + [] == l.args;
    }
  }

  /** Quoting a list of arguments and parsing the line gives the list without its empty arguments. */
  lemma QuotedParsesBack(args: seq<string>)
    ensures Parse(QuoteAll(args)) == NonEmpty(args)
  {
    LexQuoteAll(START, args);
  }

  lemma {:induction false} NonEmptyLength(args: seq<string>)
    ensures |NonEmpty(args)| <= |args|
    ensures (forall i :: 0 <= i < |args| ==> args[i] != "") <==> |NonEmpty(args)| == |args|
    ensures |NonEmpty(args)| == |args| ==> NonEmpty(args) == args
    ensures forall i :: 0 <= i < |NonEmpty(args)| ==> NonEmpty(args)[i] != ""
    decreases |args|
  {
    if args != [] {
      NonEmptyLength(args[1..]);
      assert forall i :: 1 <= i < |args| ==> args[i] == args[1..][i - 1];
    }
  }

  /** The list itself comes back exactly when none of its arguments is empty. */
  lemma RoundTripIffNoEmptyArgument(args: seq<string>)
    ensures Parse(QuoteAll(args)) == args <==> forall i :: 0 <= i < |args| ==> args[i] != ""
  {
    QuotedParsesBack(args);
    NonEmptyLength(args);
  }

  /** Parsing, quoting and parsing again changes nothing, whatever the line. */
  lemma ParseIsStable(line: string)
    ensures Parse(QuoteAll(Parse(line))) == Parse(line)
  {
    QuotedParsesBack(Parse(line));
    LexNonEmpty(START, line);
    NonEmptyLength(Parse(line));
  }

  lemma {:induction false} LexNonEmpty(l: Lexer, s: string)
    requires forall i :: 0 <= i < |l.args| ==> l.args[i] != ""
    ensures forall i :: 0 <= i < |Lex(l, s)| ==> Lex(l, s)[i] != ""
    decreases |s|
  {
    if s != "" {
      var c := s[0];
      if l.inSingle {
        LexNonEmpty(if c == '\'' then l.(inSingle := false) else l.Push(c), s[1..]);
      } else if c == '\\' && l.inDouble {
        if |s| > 1 && (s[1] == '"' || s[1] == '\\') {
          LexNonEmpty(l.Push(s[1]), s[2..]);
        } else {
          LexNonEmpty(l.Push(c), s[1..]);
        }
      } else if c == '"' {
        LexNonEmpty(l.(inDouble := !l.inDouble), s[1..]);
      } else if c == '\'' && !l.inDouble {
        LexNonEmpty(l.(inSingle := true), s[1..]);
      } else if IsWhitespace(c) && !l.inDouble {
        LexNonEmpty(l.Flush(), s[1..]);
      } else {
        LexNonEmpty(l.Push(c), s[1..]);
      }
    }
  }

  // ----- a bare command word before the quoted argument -----

  predicate Bare(word: string) {
    forall i :: 0 <= i < |word| ==> !IsWhitespace(word[i]) && word[i] !in "\"'"
  }

  lemma {:induction false} LexBare(l: Lexer, word: string, rest: string)
    requires Bare(word) && !l.inDouble && !l.inSingle
    ensures Lex(l, word + rest) == Lex(l.(current := l.current + word), rest)
    decreases |word|
  {
    if word == "" {
      assert word + rest == rest && l.current + word == l.current;
    } else {
      assert (word + rest)[1..] == word[1..] + rest;
      LexBare(l.Push(word[0]), word[1..], rest);
      assert l.current + [word[0]] + word[1..] == l.current + word;
    }
  }

  /** The line the client sends for typed text reads back as the command and that text. */
  lemma SentTextParsesBack(word: string, text: string)
    requires Bare(word) && word != "" && text != ""
    ensures Parse(word + (" " + (Quote(text) + "\n"))) == [word, text]
  {
    hide Quote, EscapeText;
    LexBare(START, word, " " + (Quote(text) + "\n"));
    assert "" + word == word && "" + text == text;
    var named := Lexer([word], "", false, false);
    assert (" " + (Quote(text) + "\n"))[1..] == Quote(text) + "\n";
    LexQuoted(named, text, "\n");
    assert "\n"[1..] == "" && [] + [word] == [word] && [word] + [text] == [word, text];
  }

  // ----- every way of writing an argument -----

  /** A stretch of an argument: bare, in single quotes, or in double quotes with its escapes. */
  datatype Piece = Plain(text: string) | Single(text: string) | Double(text: string)
  {
    function Written(): string {
      match this
      case Plain(text) => text
      case Single(text) => "'" + (text + "'")
      case Double(text) => Quote(text)
    }

    predicate Valid() {
      match this
      case Plain(text) => Bare(text)
      case Single(text) => '\'' !in text
      case Double(_) => true
    }
  }

  function WrittenAll(pieces: seq<Piece>): string {
    if pieces == [] then "" else pieces[0].Written() + WrittenAll(pieces[1..])
  }

  function TextAll(pieces: seq<Piece>): string {
    if pieces == [] then "" else pieces[0].text + TextAll(pieces[1..])
  }

  lemma {:induction false} LexSingle(l: Lexer, text: string, rest: string)
    requires l.inSingle && !l.inDouble && '\'' !in text
    ensures Lex(l, text + ("'" + rest)) == Lex(l.(current := l.current + text, inSingle := false), rest)
    decreases |text|
  {
    var all := text + ("'" + rest);
    if text == "" {
      assert all[0] == '\'' && all[1..] == rest && l.current + text == l.current;
    } else {
      assert all[0] == text[0] && all[1..] == text[1..] + ("'" + rest);
      LexSingle(l.Push(text[0]), text[1..], rest);
      assert (l.current + [text[0]]) + text[1..] == l.current + text;
    }
  }

  lemma LexPiece(l: Lexer, piece: Piece, rest: string)
    requires !l.inDouble && !l.inSingle && piece.Valid()
    ensures Lex(l, piece.Written() + rest) == Lex(l.(current := l.current + piece.text), rest)
  {
    match piece {
      case Plain(text) => LexBare(l, text, rest);
      case Single(text) =>
        var all := piece.Written() + rest;
        assert all[0] == '\'' && all[1..] == text + ("'" + rest);
        LexSingle(l.(inSingle := true), text, rest);
      case Double(text) => LexQuoted(l, text, rest);
    }
  }

  lemma {:induction false} LexPieces(l: Lexer, pieces: seq<Piece>, rest: string)
    requires !l.inDouble && !l.inSingle && forall i :: 0 <= i < |pieces| ==> pieces[i].Valid()
    ensures Lex(l, WrittenAll(pieces) + rest) == Lex(l.(current := l.current + TextAll(pieces)), rest)
    decreases |pieces|
  {
    hide Lex, Piece.Written, Piece.Valid;
    if pieces == [] {
      assert "" + rest == rest && l.current + "" == l.current;
    } else {
      var behind := WrittenAll(pieces[1..]) + rest;
      assert WrittenAll(pieces) + rest == pieces[0].Written() + behind;
      LexPiece(l, pieces[0], behind);
      LexPieces(l.(current := l.current + pieces[0].text), pieces[1..], rest);
      assert (l.current + pieces[0].text) + TextAll(pieces[1..]) == l.current + TextAll(pieces);
    }
  }

  lemma {:induction false} LexBlanks(l: Lexer, blanks: string, rest: string)
    requires !l.inDouble && !l.inSingle && blanks != "" && forall i :: 0 <= i < |blanks| ==> IsWhitespace(blanks[i])
    ensures Lex(l, blanks + rest) == Lex(l.Flush(), rest)
    decreases |blanks|
  {
    assert (blanks + rest)[0] == blanks[0] && (blanks + rest)[1..] == blanks[1..] + rest;
    if |blanks| == 1 {
      assert blanks[1..] + rest == rest;
    } else {
      LexBlanks(l.Flush(), blanks[1..], rest);
    }
  }

  /** An argument and the blanks behind it. */
  datatype Word = Word(pieces: seq<Piece>, blanks: string)
  {
    predicate Valid() {
      && (forall i :: 0 <= i < |pieces| ==> pieces[i].Valid())
      && blanks != "" && forall i :: 0 <= i < |blanks| ==> IsWhitespace(blanks[i])
    }
  }

  function LineOf(words: seq<Word>): string {
    if words == [] then "" else WrittenAll(words[0].pieces) + (words[0].blanks + LineOf(words[1..]))
  }

  function ArgumentsOf(words: seq<Word>): (args: seq<string>)
    ensures |args| == |words|
  {
    seq(|words|, i requires 0 <= i < |words| => TextAll(words[i].pieces))
  }

  lemma {:induction false} LexWords(l: Lexer, words: seq<Word>)
    requires !l.inDouble && !l.inSingle && l.current == "" && forall i :: 0 <= i < |words| ==> words[i].Valid()
    ensures Lex(l, LineOf(words)) == l.args + NonEmpty(ArgumentsOf(words))
    decreases |words|
  {
    hide WrittenAll, TextAll;
    if words == [] {
      assert l.args + [] == l.args;
    } else {
      var w, behind := words[0], LineOf(words[1..]);
      var text := TextAll(w.pieces);
      LexPieces(l, w.pieces, w.blanks + behind);
      assert l.current + text == text;
      var read := l.(current := text);
      LexBlanks(read, w.blanks, behind);
      LexWords(read.Flush(), words[1..]);
      assert ArgumentsOf(words)[1..] == ArgumentsOf(words[1..]);
      var first := if text == "" then [] else [text];
      assert l.args + (first + NonEmpty(ArgumentsOf(words[1..]))) == (l.args + first) + NonEmpty(ArgumentsOf(words[1..]));
      assert l.args + [] == l.args;
    }
  }

  /** However each argument is written, in any mix of bare stretches, single quotes and double quotes,
      and whatever blanks stand between them, the arguments are read back, the empty ones left out. */
  lemma AnyWritingParsesBack(words: seq<Word>)
    requires forall i :: 0 <= i < |words| ==> words[i].Valid()
    ensures Parse(LineOf(words)) == NonEmpty(ArgumentsOf(words))
  {
    LexWords(START, words);
  }
}
