/** Host patterns of known_hosts entries (core/src/host_profile.rs; OpenSSH ssh_config(5),
    section PATTERNS): a glob matcher and comma-separated lists with negation. */
module HostPattern {
  import opened Text

  // ----- what a pattern means -----

  /** The stretch of the name that one pattern character may stand for. */
  predicate Fits(p: char, part: string) {
    p == '*' || (|part| == 1 && (p == '?' || part[0] == p))
  }

  function Concat(parts: seq<string>): string {
    if parts == [] then "" else parts[0] + Concat(parts[1..])
  }

  /** `parts` cuts `name` into one stretch per pattern character. */
  ghost predicate Cut(pattern: string, parts: seq<string>, name: string) {
    |parts| == |pattern| && Concat(parts) == name && forall i :: 0 <= i < |pattern| ==> Fits(pattern[i], parts[i])
  }

  ghost predicate Accepts(pattern: string, name: string) {
    exists parts :: Cut(pattern, parts, name)
  }

  // ----- recursion over the pattern -----

  predicate Matches(pattern: string, name: string) {
    if pattern == "" then name == ""
    else if pattern[0] == '*' then exists k :: 0 <= k <= |name| && Matches(pattern[1..], name[k..])
    else name != "" && (pattern[0] == '?' || name[0] == pattern[0]) && Matches(pattern[1..], name[1..])
  }

  lemma {:induction false} CutMatches(pattern: string, parts: seq<string>, name: string)
    requires Cut(pattern, parts, name)
    ensures Matches(pattern, name)
    decreases |pattern|
  {
    if pattern != "" {
      var k := |parts[0]|;
      assert name[k..] == Concat(parts[1..]);
      CutMatches(pattern[1..], parts[1..], name[k..]);
    }
  }

  lemma {:induction false} MatchesCut(pattern: string, name: string) returns (parts: seq<string>)
    requires Matches(pattern, name)
    ensures Cut(pattern, parts, name)
    decreases |pattern|
  {
    parts := [];
    if pattern != "" {
      var k := 1;
      if pattern[0] == '*' {
        k :| 0 <= k <= |name| && Matches(pattern[1..], name[k..]);
      }
      var rest := MatchesCut(pattern[1..], name[k..]);
      parts := [name[..k]] + rest;
      assert parts[1..] == rest;
    }
  }

  lemma MatchesIffAccepts(pattern: string, name: string)
    ensures Matches(pattern, name) <==> Accepts(pattern, name)
  {
    if Matches(pattern, name) {
      var parts := MatchesCut(pattern, name);
    }
    if Accepts(pattern, name) {
      var parts :| Cut(pattern, parts, name);
      CutMatches(pattern, parts, name);
    }
  }

  lemma AtEnd(name: string, ni: nat)
    requires ni <= |name|
    ensures Matches("", name[ni..]) <==> ni == |name|
  {
  }

  lemma AtCharacter(pattern: string, pi: nat, name: string, ni: nat)
    requires pi < |pattern| && pattern[pi] != '*' && ni <= |name|
    ensures Matches(pattern[pi..], name[ni..]) <==>
      ni < |name| && (pattern[pi] == '?' || name[ni] == pattern[pi]) && Matches(pattern[pi + 1..], name[ni + 1..])
  {
    assert pattern[pi..][1..] == pattern[pi + 1..];
    if ni < |name| {
      assert name[ni..][1..] == name[ni + 1..];
    }
  }

  ghost predicate MatchesFrom(pattern: string, name: string, from: nat) {
    exists k :: from <= k <= |name| && Matches(pattern, name[k..])
  }

  lemma AtStar(pattern: string, pi: nat, name: string, ni: nat)
    requires pi < |pattern| && pattern[pi] == '*' && ni <= |name|
    ensures Matches(pattern[pi..], name[ni..]) <==> MatchesFrom(pattern[pi + 1..], name, ni)
  {
    var rest := name[ni..];
    assert pattern[pi..][1..] == pattern[pi + 1..];
    assert forall k :: 0 <= k <= |rest| ==> rest[k..] == name[ni + k..];
    if MatchesFrom(pattern[pi + 1..], name, ni) {
      var k :| ni <= k <= |name| && Matches(pattern[pi + 1..], name[k..]);
      assert rest[k - ni..] == name[k..];
    }
  }

  lemma FinalStar(name: string, ni: nat)
    requires ni <= |name|
    ensures MatchesFrom("", name, ni)
  {
    assert Matches("", name[|name|..]);
  }

  lemma TryLonger(pattern: string, name: string, ni: nat)
    requires ni <= |name|
    ensures MatchesFrom(pattern, name, ni) <==>
      Matches(pattern, name[ni..]) || (ni < |name| && MatchesFrom(pattern, name, ni + 1))
  {
  }

  /** The loop of the program: it recurses only at a star, and returns from inside it. */
  method SshGlobMatch(pattern: string, name: string) returns (matched: bool)
    ensures matched <==> Accepts(pattern, name)
    decreases |pattern|
  {
    hide Accepts, Matches, MatchesFrom;
    MatchesIffAccepts(pattern, name);
    var pi, ni := 0, 0;
    assert pattern[0..] == pattern && name[0..] == name;
    while pi < |pattern|
      invariant 0 <= pi <= |pattern| && 0 <= ni <= |name|
      invariant Matches(pattern, name) <==> Matches(pattern[pi..], name[ni..])
    {
      match pattern[pi] {
        case '*' =>
          AtStar(pattern, pi, name, ni);
          pi := pi + 1;
          if pi == |pattern| {
            assert pattern[pi..] == "";
            FinalStar(name, ni);
            return true;
          }
          while ni <= |name|
            invariant 0 <= ni <= |name|
            invariant Matches(pattern, name) <==> MatchesFrom(pattern[pi..], name, ni)
            decreases |name| - ni
          {
            MatchesIffAccepts(pattern[pi..], name[ni..]);
            TryLonger(pattern[pi..], name, ni);
            var here := SshGlobMatch(pattern[pi..], name[ni..]);
            if here {
              return true;
            }
            if ni == |name| {
              return false;
            }
            ni := ni + 1;
          }
          return false;
        case '?' =>
          AtCharacter(pattern, pi, name, ni);
          if ni >= |name| {
            return false;
          }
          pi, ni := pi + 1, ni + 1;
        case byte =>
          AtCharacter(pattern, pi, name, ni);
          if ni >= |name| || name[ni] != byte {
            return false;
          }
          pi, ni := pi + 1, ni + 1;
      }
    }
    assert pattern[pi..] == "";
    AtEnd(name, ni);
    matched := ni == |name|;
  }

  // ----- pattern lists -----

  ghost predicate PositiveHit(pattern: string, host: string) {
    var p := Trim(pattern);
    p != "" && p[0] != '!' && Accepts(Lower(p), host)
  }

  ghost predicate NegativeHit(pattern: string, host: string) {
    var p := Trim(pattern);
    p != "" && p[0] == '!' && Accepts(Lower(p[1..]), host)
  }

  /** Some positive pattern of the list matches the host, and no negated one does. */
  ghost predicate ListAccepts(list: string, host: string) {
    var patterns := Split(list, ',');
    && (exists i :: 0 <= i < |patterns| && PositiveHit(patterns[i], Lower(host)))
    && (forall i :: 0 <= i < |patterns| ==> !NegativeHit(patterns[i], Lower(host)))
  }

  method PatternListMatches(list: string, host: string) returns (accepted: bool)
    ensures accepted <==> ListAccepts(list, host)
  {
    hide Accepts;
    var name := Lower(host);
    var positive, negated := false, false;
    var patterns := Split(list, ',');
    for i := 0 to |patterns|
      invariant positive <==> exists k :: 0 <= k < i && PositiveHit(patterns[k], name)
      invariant negated <==> exists k :: 0 <= k < i && NegativeHit(patterns[k], name)
    {
      var pattern := Trim(patterns[i]);
      if pattern == "" {
        continue;
      }
      if pattern[0] == '!' {
        var hit := SshGlobMatch(Lower(pattern[1..]), name);
        if hit { negated := true; }
      } else {
        var hit := SshGlobMatch(Lower(pattern), name);
        if hit { positive := true; }
      }
    }
    accepted := positive && !negated;
  }

  // ----- names without wildcards -----

  /** A name that is a pattern for itself alone. */
  predicate Literal(s: string) {
    && s != "" && Snug(s, IsWhitespace) && s[0] != '!'
    && forall i :: 0 <= i < |s| ==> s[i] != '*' && s[i] != '?' && s[i] != ','
  }

  lemma {:induction false} LiteralMatches(pattern: string, name: string)
    requires forall i :: 0 <= i < |pattern| ==> pattern[i] != '*' && pattern[i] != '?'
    ensures Matches(pattern, name) <==> pattern == name
    decreases |pattern|
  {
    if pattern != "" {
      if name != "" {
        LiteralMatches(pattern[1..], name[1..]);
        assert pattern == [pattern[0]] + pattern[1..] && name == [name[0]] + name[1..];
      }
    }
  }

  /** A literal name accepts exactly that name, letter case aside. */
  lemma LiteralAcceptsIff(list: string, host: string)
    requires Literal(list)
    ensures ListAccepts(list, host) <==> Lower(list) == Lower(host)
  {
    hide Accepts, Matches, Trim;
    var patterns := Split(list, ',');
    SplitWhole(list, c => c == ',');
    SplitIs(list);
    TrimmedLiteral(list);
    LiteralMatches(Lower(list), Lower(host));
    MatchesIffAccepts(Lower(list), Lower(host));
    assert patterns == [list] && patterns[0] == list;
  }

  lemma SplitIs(list: string)
    requires forall i :: 0 <= i < |list| ==> list[i] != ','
    ensures Split(list, ',') == [list]
  {
    SplitWhole(list, c => c == ',');
  }

  lemma TrimmedLiteral(list: string)
    requires Snug(list, IsWhitespace)
    ensures Trim(list) == list
  {
    TrimSnug(list, IsWhitespace);
  }
}
