/** Reading known_hosts files (core/src/host_profile.rs).

The program folds over files and lines with three accumulators; the result is a
function of two sets, the matching fingerprints and the revoked ones. */
module KnownHosts {
  import opened Text
  import Decimal
  import HostPattern

  const DEFAULT_SSH_PORT: nat := 22

  datatype Host = Host(lookupName: string, port: nat)

  /** What the files say about a host. */
  datatype Presented = Absent | Unique(fingerprint: string) | Ambiguous | Revoked

  /** What one line says: nothing, a key of the host, or a key revoked for it. */
  datatype Entry = Nothing | Key(blob: string) | RevokedKey(blob: string)

  function Candidates(host: Host): seq<string> {
    ["[" + host.lookupName + "]:" + Decimal.Print(host.port)]
    + if host.port == DEFAULT_SSH_PORT then [host.lookupName] else []
  }

  ghost predicate NamesMatch(names: string, host: Host) {
    exists i :: 0 <= i < |Candidates(host)| && HostPattern.ListAccepts(names, Candidates(host)[i])
  }

  predicate Ignored(line: string) {
    line == "" || line[0] == '#' || "|1|" <= line
  }

  ghost function LineEntry(raw: string, host: Host): Entry {
    var line := Trim(raw);
    if Ignored(line) then Nothing
    else if "@revoked" <= line then
      var parts := SplitWhitespace(Trim(line[|"@revoked"|..]));
      if Nth(parts, 1) == "" || Nth(parts, 2) == "" then Nothing
      else if "|1|" <= Nth(parts, 0) || NamesMatch(Nth(parts, 0), host) then RevokedKey(Nth(parts, 2))
      else Nothing
    else if line[0] == '@' then Nothing
    else
      var parts := SplitWhitespace(line);
      if Nth(parts, 1) == "" || Nth(parts, 2) == "" || !NamesMatch(Nth(parts, 0), host) then Nothing
      else Key(Nth(parts, 2))
  }

  // ----- lines as they are written -----

  /** A literal name stands for the host exactly when it is its bracketed name with the port, or on
      port 22 its bare name, letter case aside. */
  lemma LiteralNameMatchesIff(names: string, host: Host)
    requires HostPattern.Literal(names)
    ensures NamesMatch(names, host) <==>
      Lower(names) == Lower("[" + host.lookupName + "]:" + Decimal.Print(host.port))
      || (host.port == 22 && Lower(names) == Lower(host.lookupName))
  {
    hide HostPattern.ListAccepts, HostPattern.Literal;
    var candidates := Candidates(host);
    HostPattern.LiteralAcceptsIff(names, candidates[0]);
    if host.port == 22 {
      HostPattern.LiteralAcceptsIff(names, candidates[1]);
    }
    assert NamesMatch(names, host) <==>
      HostPattern.ListAccepts(names, candidates[0]) || (|candidates| > 1 && HostPattern.ListAccepts(names, candidates[1]));
  }

  predicate Word(s: string) {
    s != "" && forall i :: 0 <= i < |s| ==> !IsWhitespace(s[i])
  }

  /** Nothing, or a blank and a comment. */
  predicate Tail(tail: string) {
    tail == "" || (|tail| >= 2 && tail[0] == ' ' && !IsWhitespace(tail[|tail| - 1]))
  }

  /** Names, key type, key and perhaps a comment. */
  function KeyLine(names: string, keyType: string, blob: string, tail: string): string {
    names + (" " + (keyType + (" " + (blob + tail))))
  }

  lemma KeyLineFields(names: string, keyType: string, blob: string, tail: string)
    requires Word(names) && Word(keyType) && Word(blob) && Tail(tail)
    ensures
      var parts := SplitWhitespace(KeyLine(names, keyType, blob, tail));
      Nth(parts, 0) == names && Nth(parts, 1) == keyType && Nth(parts, 2) == blob
  {
    hide Fields;
    FieldsFirst(names, ' ', keyType + (" " + (blob + tail)), IsWhitespace);
    FieldsFirst(keyType, ' ', blob + tail, IsWhitespace);
    FieldsFirst(blob, ' ', if tail == "" then "" else tail[1..], IsWhitespace);
    assert tail != "" ==> blob + tail == blob + ([' '] + tail[1..]);
    assert tail == "" ==> blob + tail == blob;
  }

  lemma KeyLineSnug(names: string, keyType: string, blob: string, tail: string)
    requires Word(names) && Word(keyType) && Word(blob) && Tail(tail)
    ensures var line := KeyLine(names, keyType, blob, tail); line != "" && line[0] == names[0] && Snug(line, IsWhitespace)
    ensures var line := "@revoked " + KeyLine(names, keyType, blob, tail); Snug(line, IsWhitespace)
  {
    var line := KeyLine(names, keyType, blob, tail);
    assert line[|line| - 1] == if tail == "" then blob[|blob| - 1] else tail[|tail| - 1];
  }

  /** A key line says its third field, exactly for the hosts its first field matches. */
  lemma KeyLineSays(names: string, keyType: string, blob: string, tail: string, front: string, back: string, host: Host)
    requires Word(names) && Word(keyType) && Word(blob) && Tail(tail) && White(front) && White(back)
    requires names[0] != '#' && names[0] != '@' && !("|1|" <= names)
    ensures LineEntry(front + (KeyLine(names, keyType, blob, tail) + back), host)
         == if NamesMatch(names, host) then Key(blob) else Nothing
  {
    hide NamesMatch, SplitWhitespace, Trim, Snug;
    var line := KeyLine(names, keyType, blob, tail);
    KeyLineSnug(names, keyType, blob, tail);
    TrimOf(front, line, back);
    KeyLineFields(names, keyType, blob, tail);
    NotHashed(names, keyType, blob, tail);
  }

  lemma NotHashed(names: string, keyType: string, blob: string, tail: string)
    requires Word(names) && !("|1|" <= names)
    ensures !("|1|" <= KeyLine(names, keyType, blob, tail))
    ensures names[0] != '@' ==> !("@revoked" <= KeyLine(names, keyType, blob, tail))
  {
    var line := KeyLine(names, keyType, blob, tail);
    assert line[0] == names[0];
    if |names| >= 3 {
      assert line[..3] == names[..3];
    } else {
      assert line[|names|] == ' ';
    }
  }

  /** Behind the revoked marker it says that the key is revoked, for hashed names always. */
  lemma RevokedLineSays(names: string, keyType: string, blob: string, tail: string, front: string, back: string, host: Host)
    requires Word(names) && Word(keyType) && Word(blob) && Tail(tail) && White(front) && White(back)
    ensures LineEntry(front + (("@revoked " + KeyLine(names, keyType, blob, tail)) + back), host)
         == if "|1|" <= names || NamesMatch(names, host) then RevokedKey(blob) else Nothing
  {
    hide NamesMatch, SplitWhitespace, Trim, Snug;
    var inner := KeyLine(names, keyType, blob, tail);
    var line := "@revoked " + inner;
    KeyLineSnug(names, keyType, blob, tail);
    TrimOf(front, line, back);
    assert line[|"@revoked"|..] == " " + (inner + "") && "@revoked" <= line && line[0] == '@' && line[1] == 'r';
    TrimOf(" ", inner, "");
    KeyLineFields(names, keyType, blob, tail);
  }

  /** Comments, hashed names without the marker and other markers say nothing. */
  lemma OtherLinesSayNothing(front: string, line: string, back: string, host: Host)
    requires White(front) && White(back) && Snug(line, IsWhitespace) && line != ""
    requires line[0] == '#' || "|1|" <= line || (line[0] == '@' && !("@revoked" <= line))
    ensures LineEntry(front + (line + back), host) == Nothing
  {
    hide NamesMatch, SplitWhitespace, Trim;
    TrimOf(front, line, back);
  }

  // ----- the set-based definition -----

  ghost function KeysIn(lines: set<string>, host: Host, hash: string -> string): set<string> {
    set l | l in lines && LineEntry(l, host).Key? :: hash(LineEntry(l, host).blob)
  }

  ghost function RevokedIn(lines: set<string>, host: Host, hash: string -> string): set<string> {
    set l | l in lines && LineEntry(l, host).RevokedKey? :: hash(LineEntry(l, host).blob)
  }

  ghost function Verdict(keys: set<string>, revoked: set<string>, confirmed: Option<string>): Presented {
    if confirmed.Some? && confirmed.value in revoked then Revoked
    else if keys == {} then Absent
    else
      var f :| f in keys;
      if keys != {f} then Ambiguous else if f in revoked then Revoked else Unique(f)
  }

  /** One key, not revoked, and the confirmed one not revoked either: nothing else presents a key. */
  lemma UniqueMeans(keys: set<string>, revoked: set<string>, confirmed: Option<string>, f: string)
    ensures Verdict(keys, revoked, confirmed) == Unique(f) <==>
      keys == {f} && f !in revoked && !(confirmed.Some? && confirmed.value in revoked)
  {
    if keys == {f} {
      assert forall g :: g in keys ==> g == f;
    }
  }

  lemma AmbiguousMeans(keys: set<string>, revoked: set<string>, confirmed: Option<string>)
    ensures Verdict(keys, revoked, confirmed) == Ambiguous <==>
      (exists f, g :: f in keys && g in keys && f != g) && !(confirmed.Some? && confirmed.value in revoked)
  {
    if exists f, g :: f in keys && g in keys && f != g {
      var f, g :| f in keys && g in keys && f != g;
      assert forall h :: keys != {h};
    }
    if keys != {} {
      var f :| f in keys;
      if keys != {f} {
        var g :| g in keys && g != f;
      }
    }
  }

  // ----- files -----

  /** A path is a file with lines, or no file. */
  type File = Option<seq<string>>

  function AllLines(files: seq<File>): seq<string> {
    if files == [] then []
    else AllLines(files[..|files| - 1]) + (if files[|files| - 1].Some? then files[|files| - 1].value else [])
  }

  ghost function LineSet(lines: seq<string>): set<string> {
    set l | l in lines
  }

  ghost function FilesVerdict(files: seq<File>, host: Host, hash: string -> string, confirmed: Option<string>): Presented {
    var lines := LineSet(AllLines(files));
    Verdict(KeysIn(lines, host, hash), RevokedIn(lines, host, hash), confirmed)
  }

  /** Reordering lines or files, or moving lines between files, changes nothing. */
  lemma RegroupingIrrelevant(files: seq<File>, others: seq<File>, host: Host, hash: string -> string, confirmed: Option<string>)
    requires multiset(AllLines(files)) == multiset(AllLines(others))
    ensures FilesVerdict(files, host, hash, confirmed) == FilesVerdict(others, host, hash, confirmed)
  {
    SameMultisetSameLines(AllLines(files), AllLines(others));
    assert LineSet(AllLines(files)) == LineSet(AllLines(others));
  }

  lemma {:induction false} LineOfSomeFile(files: seq<File>, line: string)
    ensures line in AllLines(files) <==> exists f :: f in files && f.Some? && line in f.value
    decreases |files|
  {
    if files != [] {
      var m := |files| - 1;
      LineOfSomeFile(files[..m], line);
      assert files == files[..m] + [files[m]];
    }
  }

  /** Listing the files in another order changes nothing. */
  lemma FileOrderIrrelevant(files: seq<File>, others: seq<File>, host: Host, hash: string -> string, confirmed: Option<string>)
    requires multiset(files) == multiset(others)
    ensures FilesVerdict(files, host, hash, confirmed) == FilesVerdict(others, host, hash, confirmed)
  {
    forall f
      ensures f in files <==> f in others
    {
      assert f in files <==> f in multiset(files);
      assert f in others <==> f in multiset(others);
    }
    forall line
      ensures line in AllLines(files) <==> line in AllLines(others)
    {
      LineOfSomeFile(files, line);
      LineOfSomeFile(others, line);
    }
    assert LineSet(AllLines(files)) == LineSet(AllLines(others));
  }

  lemma SameMultisetSameLines(a: seq<string>, b: seq<string>)
    requires multiset(a) == multiset(b)
    ensures forall l :: l in a <==> l in b
  {
    forall l
      ensures l in a <==> l in b
    {
      assert l in a <==> l in multiset(a);
      assert l in b <==> l in multiset(b);
    }
  }

  /** The three accumulators. */
  class Scanner {
    const host: Host
    const hash: string -> string
    var revoked: seq<string>
    var found: Option<string>
    var ambiguous: bool

    constructor (host: Host, hash: string -> string)
      ensures this.host == host && this.hash == hash && Holds({}, {})
    {
      this.host, this.hash := host, hash;
      revoked, found, ambiguous := [], None, false;
    }

    /** The accumulators stand for these two sets. */
    ghost predicate Holds(keys: set<string>, revokedKeys: set<string>)
      reads this
    {
      && (forall f :: f in revoked <==> f in revokedKeys)
      && (found.None? <==> keys == {})
      && (found.Some? ==> found.value in keys && (ambiguous <==> keys != {found.value}))
      && (found.None? ==> !ambiguous)
    }

    method HostNamesMatch(names: string) returns (matched: bool)
      ensures matched <==> NamesMatch(names, host)
    {
      hide HostPattern.ListAccepts;
      var candidates := Candidates(host);
      for i := 0 to |candidates|
        invariant forall k :: 0 <= k < i ==> !HostPattern.ListAccepts(names, candidates[k])
      {
        var hit := HostPattern.PatternListMatches(names, candidates[i]);
        if hit {
          return true;
        }
      }
      return false;
    }

    method ReadLine(raw: string) returns (entry: Entry)
      ensures entry == LineEntry(raw, host)
    {
      var line := Trim(raw);
      if line == "" || line[0] == '#' || "|1|" <= line {
        return Nothing;
      }
      if "@revoked" <= line {
        var parts := SplitWhitespace(Trim(line[|"@revoked"|..]));
        var names, keyType, blob := Nth(parts, 0), Nth(parts, 1), Nth(parts, 2);
        if keyType == "" || blob == "" {
          return Nothing;
        }
        var matched := HostNamesMatch(names);
        return if "|1|" <= names || matched then RevokedKey(blob) else Nothing;
      }
      if line[0] == '@' {
        return Nothing;
      }
      var parts := SplitWhitespace(line);
      var names, keyType, blob := Nth(parts, 0), Nth(parts, 1), Nth(parts, 2);
      if keyType == "" || blob == "" {
        return Nothing;
      }
      var matched := HostNamesMatch(names);
      return if matched then Key(blob) else Nothing;
    }

    method ScanKnownHostsText(lines: seq<string>, ghost before: seq<string>)
      requires Holds(KeysIn(LineSet(before), host, hash), RevokedIn(LineSet(before), host, hash))
      modifies this
      ensures Holds(KeysIn(LineSet(before + lines), host, hash), RevokedIn(LineSet(before + lines), host, hash))
    {
      hide LineEntry, KeysIn, RevokedIn, LineSet;
      assert before + lines[..0] == before;
      for i := 0 to |lines|
        invariant Holds(KeysIn(LineSet(before + lines[..i]), host, hash), RevokedIn(LineSet(before + lines[..i]), host, hash))
      {
        var entry := ReadLine(lines[i]);
        assert before + lines[..i + 1] == before + lines[..i] + [lines[i]];
        OneMoreLine(before + lines[..i], lines[i], host, hash);
        match entry {
          case Nothing =>
          case RevokedKey(blob) =>
            revoked := revoked + [hash(blob)];
          case Key(blob) =>
            var fingerprint := hash(blob);
            match found {
              case Some(existing) => if existing != fingerprint { ambiguous := true; }
              case None => found := Some(fingerprint);
            }
        }
      }
      assert lines[..|lines|] == lines;
    }
  }

  lemma OneMoreLine(lines: seq<string>, line: string, host: Host, hash: string -> string)
    ensures
      var (before, after) := (LineSet(lines), LineSet(lines + [line]));
      var entry := LineEntry(line, host);
      && KeysIn(after, host, hash) == KeysIn(before, host, hash) + (if entry.Key? then {hash(entry.blob)} else {})
      && RevokedIn(after, host, hash) == RevokedIn(before, host, hash) + (if entry.RevokedKey? then {hash(entry.blob)} else {})
  {
    hide LineEntry;
    assert LineSet(lines + [line]) == LineSet(lines) + {line};
  }

  lemma NothingRead(files: seq<File>, host: Host, hash: string -> string)
    ensures AllLines(files[..0]) == [] && KeysIn(LineSet([]), host, hash) == {} && RevokedIn(LineSet([]), host, hash) == {}
  {
  }

  lemma OneMoreFile(files: seq<File>, i: nat)
    requires i < |files|
    ensures AllLines(files[..i + 1])
         == if files[i].Some? then AllLines(files[..i]) + files[i].value else AllLines(files[..i])
  {
    assert files[..i + 1][..i] == files[..i];
  }

  /** The loops compute the set-based definition. */
  method KnownHostsFingerprint(files: seq<File>, host: Host, hash: string -> string, confirmed: Option<string>)
    returns (presented: Presented)
    ensures presented == FilesVerdict(files, host, hash, confirmed)
  {
    hide LineEntry, KeysIn, RevokedIn, AllLines, LineSet;
    var scanner := new Scanner(host, hash);
    var sawFile := false;
    NothingRead(files, host, hash);
    for i := 0 to |files|
      invariant fresh(scanner) && scanner.host == host && scanner.hash == hash
      invariant scanner.Holds(KeysIn(LineSet(AllLines(files[..i])), host, hash), RevokedIn(LineSet(AllLines(files[..i])), host, hash))
      invariant sawFile || AllLines(files[..i]) == []
    {
      OneMoreFile(files, i);
      if files[i].Some? {
        sawFile := true;
        scanner.ScanKnownHostsText(files[i].value, AllLines(files[..i]));
      }
    }
    assert files[..|files|] == files;
    if !sawFile {
      return Absent;
    }
    if confirmed.Some? && confirmed.value in scanner.revoked {
      return Revoked;
    }
    if scanner.ambiguous {
      return Ambiguous;
    }
    match scanner.found {
      case Some(fingerprint) =>
        presented := if fingerprint in scanner.revoked then Revoked else Unique(fingerprint);
      case None =>
        presented := Absent;
    }
  }
}
